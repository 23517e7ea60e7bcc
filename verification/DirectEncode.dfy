/** The direct camera pass: a ring of decoders works ahead of the encoder, each slot refilled as soon as
    its frame has been encoded. */
module DirectEncode {
  import opened Wrappers
  import opened Progress

  type Message = nat
  type Frame = nat
  datatype Decoded = Picture(frame: Frame) | Undecodable

  /** Decoding, and the encoder's verdict on the frames it has been given so far. */
  datatype Setup = Setup(decode: Message -> Decoded, accepts: seq<Frame> -> bool)

  /** A bag's messages; reading past the last may fail instead of reporting the end. */
  datatype Stream = Stream(messages: seq<Message>, breaks: bool)

  /** The frames handed to the encoder, and whether all went well. */
  datatype Run = Run(frames: seq<Frame>, ok: bool)

  /** One message after the other. */
  function Serial(p: Setup, messages: seq<Message>, k: nat): Run
    requires k <= |messages|
  {
    if k == 0 then Run([], true)
    else
      var before := Serial(p, messages, k - 1);
      if !before.ok then before
      else match p.decode(messages[k - 1])
        case Undecodable => before.(ok := false)
        case Picture(frame) => Run(before.frames + [frame], p.accepts(before.frames + [frame]))
  }

  /** When nothing fails, every message is encoded once, in order. */
  lemma {:induction false} SerialEncodesAll(p: Setup, messages: seq<Message>, k: nat)
    requires k <= |messages| && Serial(p, messages, k).ok
    ensures var frames := Serial(p, messages, k).frames;
            |frames| == k && forall i | 0 <= i < k :: p.decode(messages[i]) == Picture(frames[i])
  {
    if k > 0 {
      SerialEncodesAll(p, messages, k - 1);
    }
  }

  lemma {:induction false} SerialStays(p: Setup, messages: seq<Message>, k: nat, n: nat)
    requires k <= n <= |messages| && !Serial(p, messages, k).ok
    ensures Serial(p, messages, n) == Serial(p, messages, k)
  {
    if k < n {
      SerialStays(p, messages, k, n - 1);
    }
  }

  /** How many messages are dealt with before a failing read is met: the pass reads as far ahead as it
      has slots. */
  function Dealt(stream: Stream, slots: nat): (k: nat)
    ensures k <= |stream.messages| || slots == 0
  {
    var n := |stream.messages|;
    if !stream.breaks then n else if n < slots then 0 else n - slots + 1
  }

  /** What the pass must do. */
  function Result(p: Setup, stream: Stream, slots: nat): Run
    requires slots >= 1
  {
    var run := Serial(p, stream.messages, Dealt(stream, slots));
    run.(ok := run.ok && !stream.breaks && stream.messages != [])
  }

  /** What the frames must be: those of the messages before the first that does not decode, the first frame the
      encoder does not take, or the end of the `n` dealt with; one a message, in order. */
  predicate FramesMeet(p: Setup, messages: seq<Message>, n: nat, frames: seq<Frame>)
    requires n <= |messages|
  {
    && |frames| <= n
    && (forall i | 0 <= i < |frames| :: p.decode(messages[i]) == Picture(frames[i]))
    && (forall i | 0 < i < |frames| :: p.accepts(frames[..i]))
    && (|frames| < n ==> p.decode(messages[|frames|]).Undecodable? || (frames != [] && !p.accepts(frames)))
  }

  predicate AllEncoded(p: Setup, n: nat, frames: seq<Frame>) {
    |frames| == n && (frames == [] || p.accepts(frames))
  }

  lemma {:induction false} SerialMeets(p: Setup, messages: seq<Message>, k: nat)
    requires k <= |messages|
    ensures FramesMeet(p, messages, k, Serial(p, messages, k).frames)
    ensures Serial(p, messages, k).ok <==> AllEncoded(p, k, Serial(p, messages, k).frames)
  {
    if k > 0 {
      SerialMeets(p, messages, k - 1);
      var before, after := Serial(p, messages, k - 1).frames, Serial(p, messages, k).frames;
      assert |after| == |before| + 1 ==> after[..|before|] == before;
      assert forall i | 0 < i < |before| :: after[..i] == before[..i];
    }
  }

  /** A decoder with the message it is at work on, and what came out once it is done. */
  datatype Slot = Slot(message: Message, decoded: Option<Decoded>)

  /** Slots `tick % n` to `(launched - 1) % n` hold messages `tick` to `launched - 1`. */
  ghost predicate Holds(p: Setup, messages: seq<Message>, ring: seq<Slot>, tick: nat, launched: nat) {
    && ring != [] && tick <= launched <= |messages| && launched - tick <= |ring|
    && forall t | tick <= t < launched ::
         var slot := ring[t % |ring|];
         slot.message == messages[t] && (slot.decoded.Some? ==> slot.decoded.value == p.decode(messages[t]))
  }

  lemma SlotsDiffer(t: nat, u: nat, n: nat)
    requires t < u < t + n
    ensures t % n != u % n
  {
    var k: int := u / n - t / n;
    assert u - t == k * n + (u % n - t % n) by {
      assert u == u / n * n + u % n && t == t / n * n + t % n;
      assert (u / n - t / n) * n == u / n * n - t / n * n;
    }
    Multiples(k, n);
  }

  lemma Multiples(k: int, n: nat)
    ensures k >= 1 ==> k * n >= n
    ensures k <= 0 ==> k * n <= 0
  {
    if k >= 1 {
      assert k * n == (k - 1) * n + n && (k - 1) * n >= 0;
    } else {
      assert (-k) * n >= 0;
    }
  }

  /** Let decoders finish, any of those at work next, until the slot asked for is done. */
  method WaitFor(p: Setup, ghost messages: seq<Message>, ring: array<Slot>, ghost tick: nat, ghost launched: nat,
                 j: nat)
    requires Holds(p, messages, ring[..], tick, launched) && j < ring.Length
    modifies ring
    ensures Holds(p, messages, ring[..], tick, launched) && ring[j].decoded.Some?
  {
    while ring[j].decoded.None?
      invariant Holds(p, messages, ring[..], tick, launched)
      decreases Total(ring[..], Undecoded)
    {
      var i :| 0 <= i < ring.Length && ring[i].decoded.None?;
      var done := ring[i].(decoded := Some(p.decode(ring[i].message)));
      TotalUpdate(ring[..], i, done, Undecoded);
      assert ring[..][i := done] == ring[..i] + [done] + ring[i + 1..];
      ring[i] := done;
    }
  }

  function Undecoded(slot: Slot): nat { Pending(slot.decoded.Some?) }

  /** Hand a message to the next slot, whose frame was encoded a ring's length of ticks ago. */
  method Launch(p: Setup, messages: seq<Message>, ring: array<Slot>, ghost tick: nat, launched: nat)
    requires Holds(p, messages, ring[..], tick, launched) && launched < |messages| && launched - tick < ring.Length
    modifies ring
    ensures Holds(p, messages, ring[..], tick, launched + 1)
  {
    forall t | tick <= t < launched
      ensures t % ring.Length != launched % ring.Length
    {
      SlotsDiffer(t, launched, ring.Length);
    }
    ring[launched % ring.Length] := Slot(messages[launched], None);
  }

  /** Fill the ring from the front of the bag; false when the bag could not be read that far. */
  method Fill(p: Setup, stream: Stream, ring: array<Slot>) returns (launched: nat, ok: bool)
    requires ring.Length > 0
    modifies ring
    ensures Holds(p, stream.messages, ring[..], 0, launched)
    ensures launched == if |stream.messages| < ring.Length then |stream.messages| else ring.Length
    ensures ok <==> !(stream.breaks && |stream.messages| < ring.Length)
  {
    launched := 0;
    while launched < ring.Length && launched < |stream.messages|
      invariant launched <= ring.Length && Holds(p, stream.messages, ring[..], 0, launched)
    {
      Launch(p, stream.messages, ring, 0, launched);
      launched := launched + 1;
    }
    ok := !(launched < ring.Length && stream.breaks);
  }

  /** Encode a finished slot. */
  method EncodeSlot(p: Setup, ghost messages: seq<Message>, ghost tick: nat, decoded: Decoded, frames: seq<Frame>,
                    ghost end: nat)
    returns (handed: seq<Frame>, ok: bool)
    requires tick < end <= |messages| && decoded == p.decode(messages[tick])
    requires Serial(p, messages, tick) == Run(frames, true)
    ensures Serial(p, messages, tick + 1) == Run(handed, ok)
    ensures !ok ==> Serial(p, messages, end) == Run(handed, false)
  {
    match decoded {
      case Undecodable =>
        handed, ok := frames, false;
      case Picture(frame) =>
        handed := frames + [frame];
        ok := p.accepts(handed);
    }
    if !ok {
      SerialStays(p, messages, tick + 1, end);
    }
  }

  /** Encode the messages in the ring and those that follow. */
  method EncodeRing(p: Setup, stream: Stream, ring: array<Slot>, filled: nat) returns (frames: seq<Frame>, status: int)
    requires ring.Length >= 1 && stream.messages != [] && (stream.breaks ==> ring.Length <= |stream.messages|)
    requires filled == if |stream.messages| < ring.Length then |stream.messages| else ring.Length
    requires Holds(p, stream.messages, ring[..], 0, filled)
    modifies ring
    ensures frames == Result(p, stream, ring.Length).frames
    ensures status == if Result(p, stream, ring.Length).ok then 0 else 1
  {
    var messages, n := stream.messages, ring.Length;
    ghost var end := Dealt(stream, n);
    frames := [];
    var launched, tick, ok := filled, 0, true;
    while tick < launched
      invariant tick <= launched == if |messages| < tick + n then |messages| else tick + n
      invariant Holds(p, messages, ring[..], tick, launched)
      invariant Serial(p, messages, tick) == Run(frames, true)
      invariant stream.breaks ==> tick + n <= |messages|
      decreases |messages| - tick
    {
      WaitFor(p, messages, ring, tick, launched, tick % n);
      var decoded := ring[tick % n].decoded.value;
      frames, ok := EncodeSlot(p, messages, tick, decoded, frames, end);
      if !ok {
        return frames, 1;
      }
      if launched < |messages| {
        Launch(p, messages, ring, tick + 1, launched);
        launched := launched + 1;
      } else if stream.breaks {
        return frames, 1;
      }
      tick := tick + 1;
    }
    status := 0;
  }

  method RunDirectEncodePass(p: Setup, stream: Stream, slots: nat) returns (frames: seq<Frame>, status: int)
    ensures var n := if slots < 1 then 1 else slots;
            frames == Result(p, stream, n).frames && status == if Result(p, stream, n).ok then 0 else 1
    ensures var n := if slots < 1 then 1 else slots;
            FramesMeet(p, stream.messages, Dealt(stream, n), frames)
    ensures status ==
            if stream.messages != [] && !stream.breaks && AllEncoded(p, |stream.messages|, frames) then 0 else 1
  {
    var n := if slots < 1 then 1 else slots;
    SerialMeets(p, stream.messages, Dealt(stream, n));
    var ring := new Slot[n](_ => Slot(0, None));
    frames, status := [], 1;
    var launched, ok := Fill(p, stream, ring);
    if ok && launched > 0 {
      frames, status := EncodeRing(p, stream, ring, launched);
    }
  }
}
