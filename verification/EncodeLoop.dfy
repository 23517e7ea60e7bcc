/** Composing a video from panels driven by a clock topic, one tick at a time: the specification both
    encode loops are proved against, and the plain loop.

    A panel is a deterministic state machine about which nothing else is known: `select` picks its
    input for a tick, `render` draws it into the panel's own cell.  Decoding and the encoder's verdict
    on the frames it has been given are unknown functions too. */
module EncodeLoop {
  import opened Wrappers

  type PanelState = nat
  type Picture = nat
  type Pixels = nat
  const BLACK: Pixels := 0

  type Side = n: nat | n > 0 witness 1
  datatype Size = Size(width: Side, height: Side)
  datatype Message = Message(record: int, payload: nat)
  datatype Tick = Tick(index: nat, message: Message)

  /** What a panel selects from: the tick alone, or for a camera clock also its decoded payload. */
  datatype Input = Plain(tick: Tick) | Decoded(tick: Tick, picture: Picture)

  /** A composed frame: one cell per panel. */
  datatype Image = Image(size: Size, cells: seq<Pixels>)

  /** The panels, which of them is the clock, and whether the clock is one that decodes ahead: a camera
      panel does, a point-cloud or map panel takes each tick as it comes. */
  datatype SetupData = Setup(initial: seq<PanelState>, clock: nat, decodesAhead: bool,
                             decode: Message -> Picture,
                             select: (nat, PanelState, Input, Option<Size>) -> (PanelState, bool),
                             clockSize: PanelState -> Option<Size>,
                             render: (nat, PanelState) -> (PanelState, bool, Pixels),
                             accepts: seq<Image> -> bool)

  type Setup = p: SetupData | p.clock < |p.initial|
    ghost witness Setup([0], 0, true, _ => 0, (_, s, _, _) => (s, true), _ => None, (_, s) => (s, true, 0), _ => true)

  function TickAt(stream: seq<Message>, k: nat): Tick
    requires k < |stream|
  {
    Tick(k, stream[k])
  }

  /** What the clock panel selects from when it has only the tick to go by. */
  function ClockInput(p: Setup, tick: Tick): Input {
    if p.decodesAhead then Decoded(tick, p.decode(tick.message)) else Plain(tick)
  }

  function InputOf(p: Setup, i: nat, tick: Tick): Input {
    if i == p.clock then ClockInput(p, tick) else Plain(tick)
  }

  // ---- what a tick makes of the panels ------------------------------------------------------

  /** What selecting and rendering make of one panel. */
  datatype Outcome = Outcome(state: PanelState, ok: bool, pixels: Pixels)

  function Rendered(p: Setup, i: nat, selected: (PanelState, bool)): Outcome {
    if !selected.1 then Outcome(selected.0, false, BLACK)
    else var (state, ok, pixels) := p.render(i, selected.0); Outcome(state, ok, pixels)
  }

  /** The cell size is fixed by the clock panel's first selection. */
  datatype Stage = Stage(panels: seq<PanelState>, size: Option<Size>)

  predicate Fits(p: Setup, st: Stage) {
    |st.panels| == |p.initial|
  }

  function ClockSelected(p: Setup, st: Stage, tick: Tick): (PanelState, bool)
    requires Fits(p, st)
  {
    p.select(p.clock, st.panels[p.clock], InputOf(p, p.clock, tick), st.size)
  }

  /** The cell size of a tick: the one in force, else what the clock panel asks for. */
  function SizeAt(p: Setup, st: Stage, tick: Tick): Option<Size>
    requires Fits(p, st)
  {
    if st.size.Some? then st.size else p.clockSize(ClockSelected(p, st, tick).0)
  }

  function SelectedAt(p: Setup, st: Stage, tick: Tick, i: nat): (PanelState, bool)
    requires Fits(p, st) && i < |p.initial|
  {
    p.select(i, st.panels[i], InputOf(p, i, tick), if i == p.clock then st.size else SizeAt(p, st, tick))
  }

  function OutcomeAt(p: Setup, st: Stage, tick: Tick, i: nat): Outcome
    requires Fits(p, st) && i < |p.initial|
  {
    Rendered(p, i, SelectedAt(p, st, tick, i))
  }

  /** A tick succeeds when there is a cell size and every panel selects and renders. */
  predicate TickWorks(p: Setup, st: Stage, tick: Tick)
    requires Fits(p, st)
  {
    && ClockSelected(p, st, tick).1
    && SizeAt(p, st, tick).Some?
    && forall i | 0 <= i < |p.initial| :: OutcomeAt(p, st, tick, i).ok
  }

  function StageAfter(p: Setup, st: Stage, tick: Tick): (after: Stage)
    requires Fits(p, st)
    ensures Fits(p, after)
  {
    Stage(seq(|p.initial|, i requires 0 <= i < |p.initial| => OutcomeAt(p, st, tick, i).state), SizeAt(p, st, tick))
  }

  function CellsAt(p: Setup, st: Stage, tick: Tick): (cells: seq<Pixels>)
    requires Fits(p, st)
    ensures |cells| == |p.initial|
    ensures forall i | 0 <= i < |p.initial| :: cells[i] == OutcomeAt(p, st, tick, i).pixels
  {
    var outcomes := seq(|p.initial|, i requires 0 <= i < |p.initial| => OutcomeAt(p, st, tick, i));
    PixelsOf(outcomes)
  }

  function PixelsOf(outcomes: seq<Outcome>): (cells: seq<Pixels>)
    ensures |cells| == |outcomes|
    ensures forall i | 0 <= i < |outcomes| :: cells[i] == outcomes[i].pixels
  {
    if outcomes == [] then [] else PixelsOf(outcomes[..|outcomes| - 1]) + [outcomes[|outcomes| - 1].pixels]
  }

  // ---- runs ----------------------------------------------------------------------------------

  /** After some ticks: the panels, the frames handed to the encoder, and whether the run goes on. */
  datatype Run = Run(stage: Stage, frames: seq<Image>, ok: bool)

  /** Compose one tick's frame and hand it to the encoder. */
  function RunTick(p: Setup, r: Run, tick: Tick): (after: Run)
    requires Fits(p, r.stage)
    ensures Fits(p, after.stage)
  {
    if !r.ok then r
    else if !TickWorks(p, r.stage, tick) then r.(ok := false)
    else
      var frames := r.frames + [Image(SizeAt(p, r.stage, tick).value, CellsAt(p, r.stage, tick))];
      Run(StageAfter(p, r.stage, tick), frames, p.accepts(frames))
  }

  /** The first `k` ticks of a stream. */
  function RunOf(p: Setup, stream: seq<Message>, k: nat): (r: Run)
    requires k <= |stream|
    ensures Fits(p, r.stage)
  {
    if k == 0 then Run(Stage(p.initial, None), [], true)
    else RunTick(p, RunOf(p, stream, k - 1), TickAt(stream, k - 1))
  }

  /** A run that has stopped stays as it was. */
  lemma {:induction false} StoppedRunStays(p: Setup, stream: seq<Message>, k: nat, n: nat)
    requires k <= n <= |stream| && !RunOf(p, stream, k).ok
    ensures RunOf(p, stream, n) == RunOf(p, stream, k)
  {
    if k < n {
      StoppedRunStays(p, stream, k, n - 1);
    }
  }

  /** When selecting or rendering first fails at tick `k`, frames 0 to k-1 have been handed over. */
  lemma {:induction false} FramesBeforeAFailure(p: Setup, stream: seq<Message>, k: nat)
    requires k < |stream| && RunOf(p, stream, k).ok && !TickWorks(p, RunOf(p, stream, k).stage, TickAt(stream, k))
    ensures RunOf(p, stream, |stream|) == RunOf(p, stream, k).(ok := false)
    ensures |RunOf(p, stream, |stream|).frames| == k
  {
    OneFramePerTick(p, stream, k);
    assert !RunOf(p, stream, k + 1).ok;
    StoppedRunStays(p, stream, k + 1, |stream|);
  }

  lemma {:induction false} OneFramePerTick(p: Setup, stream: seq<Message>, k: nat)
    requires k <= |stream| && RunOf(p, stream, k).ok
    ensures |RunOf(p, stream, k).frames| == k
  {
    if k > 0 {
      OneFramePerTick(p, stream, k - 1);
    }
  }

  // ---- what the frames show -------------------------------------------------------------------

  /** What panel `i` gets at tick `k`: the tick's own message, decoded for a clock that decodes ahead. */
  function InputAt(p: Setup, stream: seq<Message>, i: nat, k: nat): Input
    requires k < |stream|
  {
    if i == p.clock && p.decodesAhead then Decoded(Tick(k, stream[k]), p.decode(stream[k]))
    else Plain(Tick(k, stream[k]))
  }

  /** The cell size: what the clock panel names when it has first selected, without one. */
  function FirstSize(p: Setup, stream: seq<Message>): Option<Size>
    requires stream != []
  {
    p.clockSize(p.select(p.clock, p.initial[p.clock], InputAt(p, stream, p.clock, 0), None).0)
  }

  function SizeFor(p: Setup, stream: seq<Message>, i: nat, k: nat): Option<Size>
    requires stream != []
  {
    if k == 0 && i == p.clock then None else FirstSize(p, stream)
  }

  /** Panel `i` before tick `k`: as its own selecting and rendering left it. */
  function StateOf(p: Setup, stream: seq<Message>, i: nat, k: nat): PanelState
    requires i < |p.initial| && k <= |stream|
  {
    if k == 0 then p.initial[i]
    else
      var selected := p.select(i, StateOf(p, stream, i, k - 1), InputAt(p, stream, i, k - 1),
                               SizeFor(p, stream, i, k - 1));
      p.render(i, selected.0).0
  }

  function SelectsAt(p: Setup, stream: seq<Message>, i: nat, k: nat): (PanelState, bool)
    requires i < |p.initial| && k < |stream|
  {
    p.select(i, StateOf(p, stream, i, k), InputAt(p, stream, i, k), SizeFor(p, stream, i, k))
  }

  /** At tick `k` there is a cell size, and every panel selects and renders. */
  predicate Composes(p: Setup, stream: seq<Message>, k: nat)
    requires k < |stream|
  {
    && FirstSize(p, stream).Some?
    && forall i | 0 <= i < |p.initial| ::
         SelectsAt(p, stream, i, k).1 && p.render(i, SelectsAt(p, stream, i, k).0).1
  }

  /** Every cell of a frame of tick `k` holds what its panel renders of what it selects then. */
  predicate FrameMeets(p: Setup, stream: seq<Message>, k: nat, frame: Image)
    requires k < |stream|
  {
    && FirstSize(p, stream) == Some(frame.size) && |frame.cells| == |p.initial|
    && forall i | 0 <= i < |p.initial| :: frame.cells[i] == p.render(i, SelectsAt(p, stream, i, k).0).2
  }

  /** The frames of the first `n` ticks: one a tick, up to the first tick that does not compose or frame the
      encoder does not take. */
  predicate FramesMeet(p: Setup, stream: seq<Message>, n: nat, frames: seq<Image>)
    requires n <= |stream|
  {
    && |frames| <= n
    && (forall k | 0 <= k < |frames| :: Composes(p, stream, k) && FrameMeets(p, stream, k, frames[k]))
    && (forall k | 0 < k < |frames| :: p.accepts(frames[..k]))
    && (|frames| < n ==> !Composes(p, stream, |frames|) || (frames != [] && !p.accepts(frames)))
  }

  /** All of the first `n` ticks composed, and the encoder took every frame. */
  predicate AllEncoded(p: Setup, n: nat, frames: seq<Image>) {
    |frames| == n && (frames == [] || p.accepts(frames))
  }

  /** Before tick `k` every panel is as its own history left it, and the size is settled after the first. */
  ghost predicate StageMeets(p: Setup, stream: seq<Message>, k: nat, st: Stage)
    requires k <= |stream|
  {
    && Fits(p, st) && (forall i | 0 <= i < |p.initial| :: st.panels[i] == StateOf(p, stream, i, k))
    && if k == 0 then st.size == None else FirstSize(p, stream).Some? && st.size == FirstSize(p, stream)
  }

  lemma PanelMeets(p: Setup, stream: seq<Message>, k: nat, st: Stage, i: nat)
    requires k < |stream| && StageMeets(p, stream, k, st) && i < |p.initial|
    ensures SizeAt(p, st, TickAt(stream, k)) == FirstSize(p, stream)
    ensures SelectedAt(p, st, TickAt(stream, k), i) == SelectsAt(p, stream, i, k)
    ensures var outcome := OutcomeAt(p, st, TickAt(stream, k), i);
            && outcome.ok == (SelectsAt(p, stream, i, k).1 && p.render(i, SelectsAt(p, stream, i, k).0).1)
            && (outcome.ok ==> outcome.state == StateOf(p, stream, i, k + 1)
                               && outcome.pixels == p.render(i, SelectsAt(p, stream, i, k).0).2)
  {
    assert st.panels[p.clock] == StateOf(p, stream, p.clock, k);
    assert StateOf(p, stream, i, k + 1) == p.render(i, SelectsAt(p, stream, i, k).0).0;
  }

  lemma TickMeets(p: Setup, stream: seq<Message>, k: nat, st: Stage)
    requires k < |stream| && StageMeets(p, stream, k, st)
    ensures TickWorks(p, st, TickAt(stream, k)) <==> Composes(p, stream, k)
  {
    PanelMeets(p, stream, k, st, p.clock);
    forall i | 0 <= i < |p.initial|
      ensures OutcomeAt(p, st, TickAt(stream, k), i).ok ==
              (SelectsAt(p, stream, i, k).1 && p.render(i, SelectsAt(p, stream, i, k).0).1)
    {
      PanelMeets(p, stream, k, st, i);
    }
    if Composes(p, stream, k) {
      assert SelectsAt(p, stream, p.clock, k).1;
    }
  }

  lemma FrameIsAsAsked(p: Setup, stream: seq<Message>, k: nat, st: Stage)
    requires k < |stream| && StageMeets(p, stream, k, st) && TickWorks(p, st, TickAt(stream, k))
    ensures var tick := TickAt(stream, k);
            && StageMeets(p, stream, k + 1, StageAfter(p, st, tick))
            && FrameMeets(p, stream, k, Image(SizeAt(p, st, tick).value, CellsAt(p, st, tick)))
  {
    forall i | 0 <= i < |p.initial|
      ensures OutcomeAt(p, st, TickAt(stream, k), i).state == StateOf(p, stream, i, k + 1)
      ensures OutcomeAt(p, st, TickAt(stream, k), i).pixels == p.render(i, SelectsAt(p, stream, i, k).0).2
    {
      PanelMeets(p, stream, k, st, i);
    }
    PanelMeets(p, stream, k, st, p.clock);
  }

  ghost predicate RunFits(p: Setup, stream: seq<Message>, n: nat, r: Run)
    requires n <= |stream|
  {
    && FramesMeet(p, stream, n, r.frames) && (r.ok <==> AllEncoded(p, n, r.frames))
    && (r.ok ==> StageMeets(p, stream, n, r.stage))
  }

  lemma NextTickMeets(p: Setup, stream: seq<Message>, n: nat, r: Run, after: Run)
    requires 1 <= n <= |stream| && Fits(p, r.stage) && RunFits(p, stream, n - 1, r)
    requires after == RunTick(p, r, TickAt(stream, n - 1))
    ensures RunFits(p, stream, n, after)
  {
    var k, tick := n - 1, TickAt(stream, n - 1);
    if r.ok {
      TickMeets(p, stream, k, r.stage);
      if TickWorks(p, r.stage, tick) {
        FrameIsAsAsked(p, stream, k, r.stage);
        OneFrameMore(p, stream, k, r.frames, Image(SizeAt(p, r.stage, tick).value, CellsAt(p, r.stage, tick)));
      }
    }
  }

  /** The runs hand over those frames. */
  lemma {:induction false} RunMeets(p: Setup, stream: seq<Message>, n: nat)
    requires n <= |stream|
    ensures RunFits(p, stream, n, RunOf(p, stream, n))
  {
    if n == 0 {
      StartMeets(p, stream);
    } else {
      RunMeets(p, stream, n - 1);
      NextTickMeets(p, stream, n, RunOf(p, stream, n - 1), RunOf(p, stream, n));
    }
  }

  lemma StartMeets(p: Setup, stream: seq<Message>)
    ensures RunFits(p, stream, 0, Run(Stage(p.initial, None), [], true))
  {
  }

  lemma OneFrameMore(p: Setup, stream: seq<Message>, k: nat, frames: seq<Image>, frame: Image)
    requires k < |stream| && FramesMeet(p, stream, k, frames) && AllEncoded(p, k, frames)
    requires Composes(p, stream, k) && FrameMeets(p, stream, k, frame)
    ensures FramesMeet(p, stream, k + 1, frames + [frame])
  {
    forall j | 0 < j < |frames + [frame]|
      ensures p.accepts((frames + [frame])[..j])
    {
      assert (frames + [frame])[..j] == frames[..j];
      assert j == |frames| ==> frames[..j] == frames;
    }
  }

  // ---- the plain loop --------------------------------------------------------------------------

  /** Every panel but the clock selects; stops at the first that cannot. */
  method SelectOthers(p: Setup, ghost st: Stage, tick: Tick, size: Size, panels: seq<PanelState>)
    returns (after: seq<PanelState>, ok: bool)
    requires Fits(p, st) && SizeAt(p, st, tick) == Some(size)
    requires panels == st.panels[p.clock := ClockSelected(p, st, tick).0] && ClockSelected(p, st, tick).1
    ensures |after| == |panels|
    ensures ok <==> forall i | 0 <= i < |panels| :: SelectedAt(p, st, tick, i).1
    ensures ok ==> forall i | 0 <= i < |panels| :: after[i] == SelectedAt(p, st, tick, i).0
  {
    after := panels;
    var i := 0;
    while i < |panels|
      invariant i <= |after| == |panels|
      invariant forall j | 0 <= j < i || j == p.clock ::
                  SelectedAt(p, st, tick, j).1 && after[j] == SelectedAt(p, st, tick, j).0
      invariant forall j | i <= j < |panels| && j != p.clock :: after[j] == st.panels[j]
    {
      if i != p.clock {
        var (s, fine) := p.select(i, after[i], Plain(tick), Some(size));
        assert (s, fine) == SelectedAt(p, st, tick, i);
        if !fine {
          return after, false;
        }
        after := after[i := s];
      }
      i := i + 1;
    }
    ok := true;
  }

  /** Every panel renders into a cleared canvas; stops at the first that cannot. */
  method RenderAll(p: Setup, selected: seq<PanelState>) returns (after: seq<PanelState>, cells: seq<Pixels>, ok: bool)
    requires |selected| == |p.initial|
    ensures |after| == |cells| == |selected|
    ensures ok <==> forall i | 0 <= i < |selected| :: p.render(i, selected[i]).1
    ensures ok ==> forall i | 0 <= i < |selected| ::
              after[i] == p.render(i, selected[i]).0 && cells[i] == p.render(i, selected[i]).2
  {
    after, cells := selected, seq(|selected|, _ => BLACK);
    var i := 0;
    while i < |selected|
      invariant i <= |selected| == |after| == |cells|
      invariant forall j | 0 <= j < i ::
                  var (s, fine, pixels) := p.render(j, selected[j]); fine && after[j] == s && cells[j] == pixels
      invariant forall j | i <= j < |selected| :: after[j] == selected[j]
    {
      var (s, fine, pixels) := p.render(i, after[i]);
      after, cells := after[i := s], cells[i := pixels];
      if !fine {
        return after, cells, false;
      }
      i := i + 1;
    }
    ok := true;
  }

  /** The plain loop's work on one tick up to the encoder. */
  method ComposeTick(p: Setup, st: Stage, tick: Tick) returns (after: Stage, cells: seq<Pixels>, ok: bool)
    requires Fits(p, st)
    ensures ok <==> TickWorks(p, st, tick)
    ensures ok ==> after == StageAfter(p, st, tick) && cells == CellsAt(p, st, tick)
  {
    after, cells := st, [];
    var (s, fine) := p.select(p.clock, st.panels[p.clock], ClockInput(p, tick), st.size);
    assert (s, fine) == ClockSelected(p, st, tick);
    if !fine {
      return after, cells, false;
    }
    var size := st.size;
    if size.None? {
      size := p.clockSize(s);
      if size.None? {
        return after, cells, false;
      }
    }
    var selected, selects := SelectOthers(p, st, tick, size.value, st.panels[p.clock := s]);
    if !selects {
      var i :| 0 <= i < |p.initial| && !SelectedAt(p, st, tick, i).1;
      assert !OutcomeAt(p, st, tick, i).ok;
      return after, cells, false;
    }
    var panels;
    panels, cells, ok := RenderAll(p, selected);
    forall i | 0 <= i < |p.initial|
      ensures OutcomeAt(p, st, tick, i).ok == p.render(i, selected[i]).1
      ensures ok ==> OutcomeAt(p, st, tick, i) == Outcome(panels[i], true, cells[i])
    {
    }
    after := Stage(panels, size);
    if ok {
      assert after.panels == StageAfter(p, st, tick).panels;
    }
  }

  /** Compose one tick's frame and encode it. */
  method ComposeAndEncode(p: Setup, st: Stage, frames: seq<Image>, tick: Tick)
    returns (after: Stage, handed: seq<Image>, ok: bool)
    requires Fits(p, st)
    ensures Fits(p, after)
    ensures var r := RunTick(p, Run(st, frames, true), tick);
            handed == r.frames && ok == r.ok && (ok ==> after == r.stage)
  {
    var cells;
    after, cells, ok := ComposeTick(p, st, tick);
    if !ok {
      return st, frames, false;
    }
    handed := frames + [Image(after.size.value, cells)];
    ok := p.accepts(handed);
  }

  /** The panels, frames and verdict after `k` ticks; after `end` of them if the run has stopped. */
  ghost predicate Reached(p: Setup, stream: seq<Message>, end: nat, k: nat, stage: Stage, frames: seq<Image>, ok: bool)
    requires k <= end <= |stream|
  {
    var r := RunOf(p, stream, k);
    && r.frames == frames && r.ok == ok && (ok ==> r.stage == stage)
    && (!ok ==> RunOf(p, stream, end).frames == frames && !RunOf(p, stream, end).ok)
  }

  lemma ReachedNext(p: Setup, stream: seq<Message>, end: nat, k: nat, stage: Stage, frames: seq<Image>, after: Stage,
                    handed: seq<Image>, ok: bool)
    requires k < end <= |stream| && Fits(p, stage) && Reached(p, stream, end, k, stage, frames, true)
    requires var r := RunTick(p, Run(stage, frames, true), TickAt(stream, k));
             handed == r.frames && ok == r.ok && (ok ==> after == r.stage)
    ensures Reached(p, stream, end, k + 1, after, handed, ok)
  {
    if !ok {
      StoppedRunStays(p, stream, k + 1, end);
    }
  }

  /** The plain loop.  The read after the last message of a stream that `breaks` fails. */
  method RunEncodeLoopSync(p: Setup, stream: seq<Message>, breaks: bool) returns (frames: seq<Image>, status: int)
    ensures frames == RunOf(p, stream, |stream|).frames
    ensures status == if RunOf(p, stream, |stream|).ok && !breaks then 0 else 1
    ensures FramesMeet(p, stream, |stream|, frames)
    ensures status == if AllEncoded(p, |stream|, frames) && !breaks then 0 else 1
  {
    RunMeets(p, stream, |stream|);
    frames := [];
    var stage := Stage(p.initial, None);
    var tick := 0;
    while tick < |stream|
      invariant tick <= |stream| && Fits(p, stage)
      invariant Reached(p, stream, |stream|, tick, stage, frames, true)
    {
      var after, handed, ok := ComposeAndEncode(p, stage, frames, TickAt(stream, tick));
      ReachedNext(p, stream, |stream|, tick, stage, frames, after, handed, ok);
      stage, frames, tick := after, handed, tick + 1;
      if !ok {
        return frames, 1;
      }
    }
    status := if breaks then 1 else 0;
  }
}
