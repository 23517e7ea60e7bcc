/** Finding the message nearest in time to a tick: by reading forward through a bag, and by binary
    search in a sorted track. */
module NearestMessage {
  import opened Wrappers

  datatype Message = Message(record: int, payload: nat)

  predicate SortedByRecord(stream: seq<Message>) {
    forall i, j | 0 <= i < j < |stream| :: stream[i].record <= stream[j].record
  }

  function Distance(m: Message, target: int): nat {
    if m.record <= target then target - m.record else m.record - target
  }

  /** What a full scan looks for: no message is nearer, and none as near is earlier in time. */
  predicate IsNearest(stream: seq<Message>, i: nat, target: int) {
    && i < |stream|
    && forall j | 0 <= j < |stream| ::
         && Distance(stream[i], target) <= Distance(stream[j], target)
         && (Distance(stream[i], target) == Distance(stream[j], target) ==> stream[i].record <= stream[j].record)
  }

  /** The number of messages from the front that are not past the target. */
  function Passed(stream: seq<Message>, target: int): (k: nat)
    ensures k <= |stream|
    ensures k < |stream| ==> stream[k].record > target
    ensures forall i | 0 <= i < k :: stream[i].record <= target
  {
    if stream == [] || stream[0].record > target then 0 else 1 + Passed(stream[1..], target)
  }

  /** The choice between the two sides of a boundary. */
  function Nearer(stream: seq<Message>, k: nat, target: int): (i: nat)
    requires k <= |stream| && stream != []
    ensures i < |stream|
  {
    if k == 0 then 0
    else if k == |stream| then k - 1
    else if target - stream[k - 1].record <= stream[k].record - target then k - 1
    else k
  }

  /** The nearer side of a boundary at the target is the nearest of all. */
  lemma SidesAreNearest(stream: seq<Message>, k: nat, i: nat, target: int)
    requires SortedByRecord(stream) && k <= |stream| && i < |stream|
    requires forall j | 0 <= j < k :: stream[j].record <= target
    requires forall j | k <= j < |stream| :: stream[j].record >= target
    requires i == k || i == k - 1
    requires i == k && k > 0 ==> Distance(stream[k], target) < Distance(stream[k - 1], target)
    requires i == k - 1 && k < |stream| ==> Distance(stream[k - 1], target) <= Distance(stream[k], target)
    ensures IsNearest(stream, i, target)
  {
    forall j | 0 <= j < |stream|
      ensures j < k ==> stream[j].record <= stream[k - 1].record
      ensures j >= k ==> stream[k].record <= stream[j].record
    {
    }
  }

  /** At the target's own boundary the choice is the nearest of all. */
  lemma NearerIsNearest(stream: seq<Message>, target: int)
    requires SortedByRecord(stream) && stream != []
    ensures IsNearest(stream, Nearer(stream, Passed(stream, target), target), target)
  {
    var k := Passed(stream, target);
    SidesAreNearest(stream, k, Nearer(stream, k, target), target);
  }

  /** What one read yields, and what a fetch does. */
  datatype Reading = Got(message: Message) | End | ReadFailed
  datatype Fetched = Found(message: Message) | Empty | Unreadable

  /** Reads a topic forward, keeping the pair of messages around the last target.  On a topic that `breaks`
      the read after the last message fails. */
  class NearestMessageSource {
    const stream: seq<Message>
    const breaks: bool
    var read: nat
    var before: Option<Message>
    var after: Option<Message>
    var eof: bool
    /** The highest target so far. */
    ghost var top: Option<int>

    /** `k` messages are behind the boundary. */
    ghost predicate StandsAt(k: nat)
      reads this
    {
      && k <= |stream| && (breaks ==> k < |stream|)
      && before == (if k > 0 then Some(stream[k - 1]) else None)
      && after == (if k < |stream| then Some(stream[k]) else None)
      && eof == (k == |stream|)
      && read == if k < |stream| then k + 1 else k
    }

    /** A boundary at the target lies past the last message of a topic whose end cannot be read. */
    predicate ReadsPastTheEnd(target: int) {
      breaks && Passed(stream, target) == |stream|
    }

    ghost predicate Valid()
      reads this
    {
      if top.None? then before == after == None && !eof && read == 0
      else StandsAt(Passed(stream, top.value))
    }

    constructor (stream: seq<Message>, breaks: bool)
      ensures Valid() && this.stream == stream && this.breaks == breaks && top == None
    {
      this.stream, this.breaks := stream, breaks;
      read, before, after, eof, top := 0, None, None, false, None;
    }

    /** The next message; at the end of the topic, none and the end noted.  An ended reader is not asked
        again. */
    method ReadNext() returns (r: Reading)
      requires read <= |stream|
      modifies this`read, this`eof
      ensures if !old(eof) && old(read) < |stream| then r == Got(stream[old(read)]) && read == old(read) + 1 && !eof
              else r == (if !old(eof) && breaks then ReadFailed else End) && read == old(read) && eof == !r.ReadFailed?
    {
      if eof {
        return End;
      }
      if read == |stream| {
        if breaks {
          return ReadFailed;
        }
        eof := true;
        return End;
      }
      r := Got(stream[read]);
      read := read + 1;
    }

    /** Move the boundary to the target, or leave it where it is if it has passed it already.  A failing
        read is met exactly when every message lies behind the boundary. */
    method Advance(target: int) returns (ok: bool)
      requires Valid()
      modifies this
      ensures top == Some(Higher(old(top), target))
      ensures ok <==> !ReadsPastTheEnd(top.value)
      ensures ok ==> StandsAt(Passed(stream, top.value))
      ensures old(read) <= read <= |stream|
    {
      ghost var reached := Higher(top, target);
      ghost var k := if top.Some? then Passed(stream, top.value) else 0;
      top := Some(reached);
      if after.None? {
        var r := ReadNext();
        if r.ReadFailed? {
          return false;
        }
        after := if r.Got? then Some(r.message) else None;
      }
      while after.Some? && after.value.record <= target
        invariant StandsAt(k) && k <= Passed(stream, reached)
        invariant reached != target ==> k == Passed(stream, reached)
        invariant read >= old(read) && top == Some(reached)
        decreases |stream| - k
      {
        before := after;
        var r := ReadNext();
        if r.ReadFailed? {
          return false;
        }
        after := if r.Got? then Some(r.message) else None;
        k := k + 1;
      }
      ok := true;
    }

    /** The message nearest the target.  With targets that never go back it is the one a scan of the
        whole topic would find, and no message is ever read twice. */
    method Fetch(target: int) returns (r: Fetched)
      requires Valid()
      modifies this
      ensures top == Some(Higher(old(top), target)) && (!r.Unreadable? ==> Valid())
      ensures old(read) <= read <= |stream|
      ensures r.Unreadable? <==> ReadsPastTheEnd(top.value)
      ensures !r.Unreadable? ==>
                r == if stream == [] then Empty else Found(stream[Nearer(stream, Passed(stream, top.value), target)])
      ensures r.Found? && SortedByRecord(stream) && top.value == target ==>
                exists i: nat :: IsNearest(stream, i, target) && r == Found(stream[i])
    {
      var ok := Advance(target);
      if !ok {
        return Unreadable;
      }
      if top.value == target && stream != [] && SortedByRecord(stream) {
        NearerIsNearest(stream, target);
      }
      r := NearerSide(target, Passed(stream, top.value));
    }

    /** The message on the nearer side of the boundary. */
    method NearerSide(target: int, ghost k: nat) returns (r: Fetched)
      requires StandsAt(k)
      ensures r == if stream == [] then Empty else Found(stream[Nearer(stream, k, target)])
    {
      if before.None? {
        return if after.None? then Empty else Found(after.value);
      }
      if after.None? {
        return Found(before.value);
      }
      var gapBefore, gapAfter := target - before.value.record, after.value.record - target;
      r := Found(if gapBefore <= gapAfter then before.value else after.value);
    }
  }

  function Higher(top: Option<int>, target: int): int {
    if top.Some? && target < top.value then top.value else target
  }

  // ---- a follower panel -------------------------------------------------------------------------

  type Picture = nat
  datatype Selection = Selected | NothingThere | Failed
  /** What a panel draws: nothing, its picture, or a picture it does not have. */
  datatype Drawn = Black | Shows(picture: Picture) | NullPicture

  /** A camera panel that is not the clock decodes the message it fetches unless its record time is the
      one it decoded last; `NO_RECORD` stands for none yet. */
  const NO_RECORD := -1

  class Follower {
    const source: NearestMessageSource
    /** The picture of a message, brought to its size in the cell, if that can be done. */
    const decode: Message -> Option<Picture>
    var selected: bool
    var cachedRecord: int
    var cache: Option<Picture>

    /** The picture kept is that of a message of the topic recorded at the time kept. */
    ghost predicate Valid()
      reads this, source
    {
      && source.Valid()
      && match cache
         case None => cachedRecord == NO_RECORD
         case Some(picture) => PictureAt(cachedRecord, picture)
    }

    /** Some message recorded at this time has this picture. */
    ghost predicate PictureAt(record: int, picture: Picture)
      reads this
    {
      exists m | m in source.stream :: m.record == record && decode(m) == Some(picture)
    }

    constructor (stream: seq<Message>, breaks: bool, decode: Message -> Option<Picture>)
      ensures Valid() && source.stream == stream && source.breaks == breaks && this.decode == decode
      ensures fresh(source) && source.top == None && cache.None?
    {
      source := new NearestMessageSource(stream, breaks);
      this.decode := decode;
      selected, cachedRecord, cache := false, NO_RECORD, None;
    }

    /** Select for a tick: what is shown afterwards is a picture at the nearest record time.  The one
        exception is a message recorded at the very time that stands for "none yet", fetched before any
        other: it is mistaken for decoded already, and there is no picture. */
    method Select(target: int) returns (r: Selection)
      requires Valid() && SortedByRecord(source.stream)
      requires source.top.Some? ==> source.top.value <= target
      modifies this, source
      ensures source.top == Some(target) && (!r.Failed? ==> Valid()) && selected == r.Selected?
      ensures r.NothingThere? <==> source.stream == [] && !source.breaks
      ensures source.ReadsPastTheEnd(target) ==> r.Failed?
      ensures source.stream != [] && !source.ReadsPastTheEnd(target) ==>
                SelectsNearest(old(cachedRecord), old(cache), target, r)
      ensures source.stream != [] && !source.ReadsPastTheEnd(target) ==>
                (r.Selected? && cache.None? <==> old(cache).None? && NearestRecordedAt(target, NO_RECORD))
    {
      selected := false;
      var fetched := source.Fetch(target);
      if fetched.Unreadable? {
        return Failed;
      }
      if fetched.Empty? {
        return NothingThere;
      }
      r := Keep(fetched.message, target);
    }

    /** What is nearest the target was recorded at this time. */
    ghost predicate NearestRecordedAt(target: int, record: int)
      reads this
    {
      exists i: nat :: IsNearest(source.stream, i, target) && source.stream[i].record == record
    }

    /** A message nearest the target was selected, or its picture could not be had. */
    ghost predicate SelectsNearest(record: int, kept: Option<Picture>, target: int, r: Selection)
      reads this
    {
      exists i: nat :: IsNearest(source.stream, i, target) && SelectsFrom(record, kept, i, r)
    }

    /** Have the picture of a fetched message at hand. */
    method Keep(m: Message, ghost target: int) returns (r: Selection)
      requires Valid() && !selected
      requires exists i: nat :: IsNearest(source.stream, i, target) && m == source.stream[i]
      modifies this
      ensures (r.Selected? || r.Failed?) && selected == r.Selected?
      ensures !r.Failed? ==> Valid()
      ensures SelectsNearest(old(cachedRecord), old(cache), target, r)
      ensures r.Selected? && cache.None? <==> old(cache).None? && NearestRecordedAt(target, NO_RECORD)
    {
      if m.record != cachedRecord {
        var picture := decode(m);
        if picture.None? {
          return Failed;
        }
        cache, cachedRecord := picture, m.record;
      }
      selected := true;
      r := Selected;
    }

    /** What selecting message `i` makes of the picture kept. */
    ghost predicate SelectsFrom(record: int, kept: Option<Picture>, i: nat, r: Selection)
      requires i < |source.stream|
      reads this
    {
      var m := source.stream[i];
      if m.record == record then r.Selected? && cache == kept
      else if decode(m).None? then r.Failed?
      else r.Selected? && cache.Some? && PictureAt(m.record, cache.value)
    }

    /** Draw what was selected. */
    method Render() returns (drawn: Drawn)
      ensures drawn == if !selected then Black else if cache.None? then NullPicture else Shows(cache.value)
    {
      if !selected {
        return Black;
      }
      drawn := if cache.None? then NullPicture else Shows(cache.value);
    }
  }

  /** A topic whose one message is recorded at -1: the panel selects it and draws from a picture that is
      not there. */
  method FollowerOfMinusOne(payload: nat, decode: Message -> Option<Picture>, target: int) returns (drawn: Drawn)
    ensures drawn == NullPicture
  {
    var follower := new Follower([Message(NO_RECORD, payload)], false, decode);
    var selection := follower.Select(target);
    drawn := follower.Render();
  }

  // ---- binary search ----------------------------------------------------------------------------

  /** The number of messages before the first at or after the target. */
  method LowerBound(fixes: seq<Message>, target: int) returns (k: nat)
    requires SortedByRecord(fixes)
    ensures k <= |fixes|
    ensures forall i | 0 <= i < k :: fixes[i].record < target
    ensures forall i | k <= i < |fixes| :: fixes[i].record >= target
  {
    var lo, hi := 0, |fixes|;
    while lo < hi
      invariant 0 <= lo <= hi <= |fixes|
      invariant forall i | 0 <= i < lo :: fixes[i].record < target
      invariant forall i | hi <= i < |fixes| :: fixes[i].record >= target
    {
      var mid := (lo + hi) / 2;
      if fixes[mid].record < target {
        lo := mid + 1;
      } else {
        hi := mid;
      }
    }
    k := lo;
  }

  /** The fix nearest the target; a full scan, or reading forward, would settle on the same time. */
  method NearestMapFix(fixes: seq<Message>, target: int) returns (i: nat)
    requires SortedByRecord(fixes) && fixes != []
    ensures IsNearest(fixes, i, target)
    ensures fixes[i].record == fixes[Nearer(fixes, Passed(fixes, target), target)].record
  {
    var after := LowerBound(fixes, target);
    NearerIsNearest(fixes, target);
    if after == 0 {
      i := 0;
    } else if after == |fixes| {
      i := |fixes| - 1;
    } else {
      var before := after - 1;
      i := if fixes[after].record - target < target - fixes[before].record then after else before;
    }
    SidesAreNearest(fixes, after, i, target);
  }
}
