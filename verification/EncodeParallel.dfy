/** The parallel encode loop: two canvases in alternation, one job per panel, a table of decoders that
    work ahead for a camera clock panel, and the encoder reading one canvas while the jobs fill the other.
    Jobs, decoders and the encoder advance one action at a time in any order. */
module EncodeParallel {
  import opened Wrappers
  import opened EncodeLoop
  import opened Progress

  const AHEAD_DEPTH := 3

  datatype Canvas = Canvas(size: Option<Size>, cells: seq<Pixels>)

  /** One panel's work for one tick: take its decoded payload (a camera clock panel), select, draw. */
  datatype Job = Taking | Selecting(input: Input) | Drawing | Finished(ok: bool)

  // ---- the decode-ahead table -------------------------------------------------------------------

  /** A decoder slot; `picture` is there once the decoder is done. */
  datatype Slot = Slot(busy: bool, index: nat, message: Message, picture: Option<Picture>)
  const FREE_SLOT := Slot(false, 0, Message(0, 0), None)

  /** The first slot that is free; their number if none is. */
  function FirstFree(slots: seq<Slot>): (j: nat)
    ensures j <= |slots|
    ensures j < |slots| ==> !slots[j].busy
    ensures forall k | 0 <= k < j :: slots[k].busy
  {
    if slots == [] || !slots[0].busy then 0 else 1 + FirstFree(slots[1..])
  }

  /** The first slot at work on a tick; their number if none is. */
  function SlotOf(slots: seq<Slot>, index: nat): (j: nat)
    ensures j <= |slots|
    ensures j < |slots| ==> slots[j].busy && slots[j].index == index
    ensures forall k | 0 <= k < j :: !(slots[k].busy && slots[k].index == index)
  {
    if slots == [] || (slots[0].busy && slots[0].index == index) then 0 else 1 + SlotOf(slots[1..], index)
  }

  class AheadTable {
    var slots: seq<Slot>

    constructor ()
      ensures slots == []
    {
      slots := [];
    }

    /** Give a tick to the first free decoder; false when all are taken. */
    method Prefetch(tick: Tick) returns (taken: bool)
      modifies this
      ensures var before := if old(slots) == [] then seq(AHEAD_DEPTH, _ => FREE_SLOT) else old(slots);
              var j := FirstFree(before);
              && taken == (j < |before|)
              && slots == if taken then before[j := Slot(true, tick.index, tick.message, None)] else before
    {
      if slots == [] {
        slots := seq(AHEAD_DEPTH, _ => FREE_SLOT);
      }
      var j := 0;
      while j < |slots| && slots[j].busy
        invariant j <= |slots| && forall k | 0 <= k < j :: slots[k].busy
      {
        j := j + 1;
      }
      assert j == FirstFree(slots);
      if j == |slots| {
        return false;
      }
      slots := slots[j := Slot(true, tick.index, tick.message, None)];
      taken := true;
    }

    /** A decoder finishes. */
    method Decode(p: Setup, j: nat)
      requires j < |slots| && slots[j].busy && slots[j].picture.None?
      modifies this
      ensures slots == old(slots)[j := old(slots[j]).(picture := Some(p.decode(old(slots[j].message))))]
    {
      slots := slots[j := slots[j].(picture := Some(p.decode(slots[j].message)))];
    }

    /** Collect the picture of a tick and free its slot, once its decoder has finished. */
    method TakeAhead(index: nat) returns (picture: Option<Picture>)
      requires var j := SlotOf(slots, index); j < |slots| ==> slots[j].picture.Some?
      modifies this
      ensures var before := old(slots);
              var j := SlotOf(before, index);
              && picture == (if j < |before| then before[j].picture else None)
              && slots == if j < |before| then before[j := before[j].(busy := false)] else before
    {
      var j := 0;
      while j < |slots| && !(slots[j].busy && slots[j].index == index)
        invariant j <= |slots| && forall k | 0 <= k < j :: !(slots[k].busy && slots[k].index == index)
      {
        j := j + 1;
      }
      assert j == SlotOf(slots, index);
      if j == |slots| {
        return None;
      }
      picture := slots[j].picture;
      slots := slots[j := slots[j].(busy := false)];
    }

    /** A camera clock panel's input for a tick: decoded ahead, or else decoded here and now. */
    method TakeOrDecode(p: Setup, tick: Tick) returns (input: Input, here: bool)
      requires var j := SlotOf(slots, tick.index); j < |slots| ==> slots[j].picture.Some?
      modifies this
      ensures var before := old(slots);
              var j := SlotOf(before, tick.index);
              && here == (j == |before|)
              && input == Decoded(tick, if here then p.decode(tick.message) else before[j].picture.value)
              && slots == if here then before else before[j := before[j].(busy := false)]
    {
      var ahead := TakeAhead(tick.index);
      here := ahead.None?;
      input := Decoded(tick, if here then p.decode(tick.message) else ahead.value);
    }
  }

  predicate SlotFits(p: Setup, stream: seq<Message>, slot: Slot, lo: nat, hi: nat) {
    slot.busy ==>
      && lo <= slot.index < hi <= |stream| && slot.message == stream[slot.index]
      && (slot.picture.Some? ==> slot.picture.value == p.decode(slot.message))
  }

  predicate AtWorkOn(slots: seq<Slot>, n: nat) {
    exists j :: 0 <= j < |slots| && slots[j].busy && slots[j].index == n
  }

  /** The busy slots are at work on exactly the ticks from `lo` up to `hi`, one slot each.  A clock that
      does not decode ahead has no slots. */
  ghost predicate HoldsTicks(p: Setup, stream: seq<Message>, slots: seq<Slot>, lo: nat, hi: nat) {
    && lo <= hi <= |stream|
    && (|slots| == 0 || |slots| == AHEAD_DEPTH)
    && (forall j | 0 <= j < |slots| :: SlotFits(p, stream, slots[j], lo, hi))
    && (forall j, k | 0 <= j < k < |slots| && slots[j].busy && slots[k].busy :: slots[j].index != slots[k].index)
    && (if p.decodesAhead then forall n | lo <= n < hi :: AtWorkOn(slots, n) else slots == [])
  }

  lemma BusySlotsNeedTicks(p: Setup, stream: seq<Message>, slots: seq<Slot>, lo: nat, hi: nat)
    requires HoldsTicks(p, stream, slots, lo, hi) && slots != [] && forall k | 0 <= k < |slots| :: slots[k].busy
    ensures hi - lo >= AHEAD_DEPTH
  {
    assert SlotFits(p, stream, slots[0], lo, hi) && SlotFits(p, stream, slots[1], lo, hi);
    assert SlotFits(p, stream, slots[2], lo, hi);
  }

  /** With fewer ticks in work than decoders a prefetch finds a free one. */
  lemma PrefetchFindsASlot(p: Setup, stream: seq<Message>, slots: seq<Slot>, lo: nat, hi: nat)
    requires p.decodesAhead && HoldsTicks(p, stream, slots, lo, hi) && hi - lo < AHEAD_DEPTH && hi < |stream|
    ensures var before := if slots == [] then seq(AHEAD_DEPTH, _ => FREE_SLOT) else slots;
            var j := FirstFree(before);
            j < |before| && HoldsTicks(p, stream, before[j := Slot(true, hi, stream[hi], None)], lo, hi + 1)
  {
    var before := if slots == [] then seq(AHEAD_DEPTH, _ => FREE_SLOT) else slots;
    var j := FirstFree(before);
    if slots != [] && (forall k | 0 <= k < |slots| :: slots[k].busy) {
      BusySlotsNeedTicks(p, stream, slots, lo, hi);
      assert false;
    }
    var after := before[j := Slot(true, hi, stream[hi], None)];
    forall n | lo <= n < hi + 1
      ensures AtWorkOn(after, n)
    {
      if n < hi {
        assert AtWorkOn(slots, n);
        var k :| 0 <= k < |slots| && slots[k].busy && slots[k].index == n;
        assert after[k] == slots[k];
      } else {
        assert after[j].index == n;
      }
    }
  }

  /** The slot of the oldest tick is found, holds that tick's own decode once done, and taking it
      leaves the others. */
  lemma TakeFindsTheTick(p: Setup, stream: seq<Message>, slots: seq<Slot>, n: nat, hi: nat)
    requires p.decodesAhead && HoldsTicks(p, stream, slots, n, hi) && n < hi
    ensures var j := SlotOf(slots, n);
            && j < |slots|
            && (slots[j].picture.Some? ==> slots[j].picture.value == p.decode(stream[n]))
            && HoldsTicks(p, stream, slots[j := slots[j].(busy := false)], n + 1, hi)
  {
    assert AtWorkOn(slots, n);
    var j := SlotOf(slots, n);
    assert SlotFits(p, stream, slots[j], n, hi);
    var after := slots[j := slots[j].(busy := false)];
    forall m | n + 1 <= m < hi
      ensures AtWorkOn(after, m)
    {
      assert AtWorkOn(slots, m);
      var k :| 0 <= k < |slots| && slots[k].busy && slots[k].index == m;
      assert after[k] == slots[k];
    }
    forall k | 0 <= k < |slots|
      ensures SlotFits(p, stream, after[k], n + 1, hi)
    {
      assert SlotFits(p, stream, slots[k], n, hi);
    }
  }

  lemma DecodeKeepsTicks(p: Setup, stream: seq<Message>, slots: seq<Slot>, lo: nat, hi: nat, j: nat)
    requires HoldsTicks(p, stream, slots, lo, hi) && j < |slots| && slots[j].busy
    ensures HoldsTicks(p, stream, slots[j := slots[j].(picture := Some(p.decode(slots[j].message)))], lo, hi)
  {
    var after := slots[j := slots[j].(picture := Some(p.decode(slots[j].message)))];
    forall n | lo <= n < hi
      ensures AtWorkOn(after, n)
    {
      assert AtWorkOn(slots, n);
      var k :| 0 <= k < |slots| && slots[k].busy && slots[k].index == n;
      assert after[k].busy && after[k].index == n;
    }
  }

  // ---- the panels' jobs --------------------------------------------------------------------------

  /** Where one panel's job stands: what its state and its cell must hold at that point. */
  ghost predicate JobFits(p: Setup, st: Stage, tick: Tick, i: nat, state: PanelState, pixels: Pixels, job: Job)
    requires Fits(p, st) && i < |p.initial|
  {
    match job
    case Taking => i == p.clock && p.decodesAhead && st.size.Some? && state == st.panels[i] && pixels == BLACK
    case Selecting(input) =>
      && (i == p.clock ==> st.size.Some?)
      && state == st.panels[i] && pixels == BLACK && input == InputOf(p, i, tick)
    case Drawing => SelectedAt(p, st, tick, i) == (state, true) && pixels == BLACK
    case Finished(ok) =>
      ok == OutcomeAt(p, st, tick, i).ok && (ok ==> OutcomeAt(p, st, tick, i) == Outcome(state, true, pixels))
  }

  ghost predicate JobsFit(p: Setup, st: Stage, tick: Tick, panels: seq<PanelState>, cells: seq<Pixels>,
                          jobs: seq<Job>) {
    && Fits(p, st)
    && |panels| == |cells| == |jobs| == |p.initial|
    && forall i | 0 <= i < |jobs| :: JobFits(p, st, tick, i, panels[i], cells[i], jobs[i])
  }

  predicate AllFinished(jobs: seq<Job>) {
    forall i | 0 <= i < |jobs| :: jobs[i].Finished?
  }

  /** A job selects or draws. */
  method MoveJob(p: Setup, ghost st: Stage, ghost tick: Tick, size: Option<Size>, i: nat, state: PanelState,
                 pixels: Pixels, job: Job)
    returns (state': PanelState, pixels': Pixels, job': Job)
    requires Fits(p, st) && i < |p.initial| && size == SizeAt(p, st, tick)
    requires JobFits(p, st, tick, i, state, pixels, job) && (job.Selecting? || job.Drawing?)
    ensures JobFits(p, st, tick, i, state', pixels', job') && JobRank(job') < JobRank(job)
    ensures job'.Drawing? || job'.Finished?
  {
    match job
    case Selecting(input) =>
      var (s, ok) := p.select(i, state, input, size);
      assert (s, ok) == SelectedAt(p, st, tick, i);
      return s, pixels, if ok then Drawing else Finished(false);
    case Drawing =>
      var (s, ok, drawn) := p.render(i, state);
      return s, drawn, Finished(ok);
  }

  function JobRank(job: Job): nat {
    match job
    case Taking => 3
    case Selecting(_) => 2
    case Drawing => 1
    case Finished(_) => 0
  }

  function JobsLeft(jobs: seq<Job>): nat { Total(jobs, JobRank) }

  function DecodeRank(slot: Slot): nat { Pending(!slot.busy || slot.picture.Some?) }

  function DecodesLeft(slots: seq<Slot>): nat { Total(slots, DecodeRank) }

  // ---- a tick's jobs beside the encoder ------------------------------------------------------------

  /** What the jobs and the encoder share: panel states, both canvases, the jobs, and the cells of the
      finished frame the encoder has read. */
  datatype Scene = Scene(panels: seq<PanelState>, canvases: seq<Canvas>, jobs: seq<Job>, seen: seq<Pixels>)

  /** The canvas a tick is composed on; the other one is the encoder's. */
  function CanvasOf(tick: Tick): nat { tick.index % 2 }

  ghost predicate SceneFits(p: Setup, st: Stage, tick: Tick, sc: Scene, shown: Canvas) {
    && |sc.canvases| == 2
    && JobsFit(p, st, tick, sc.panels, sc.canvases[CanvasOf(tick)].cells, sc.jobs)
    && sc.canvases[CanvasOf(tick)].size == SizeAt(p, st, tick)
    && sc.canvases[1 - CanvasOf(tick)] == shown
    && |shown.cells| == |p.initial|
    && sc.seen <= shown.cells
  }

  /** The slots hold the ticks read ahead, and the current one until its job has taken it. */
  ghost predicate TableFits(p: Setup, stream: seq<Message>, tick: Tick, jobs: seq<Job>, slots: seq<Slot>, hi: nat) {
    && p.clock < |jobs| && tick.index < |stream| && tick == TickAt(stream, tick.index)
    && (forall i | 0 <= i < |jobs| && jobs[i].Taking? :: i == p.clock)
    && HoldsTicks(p, stream, slots, if jobs[p.clock].Taking? then tick.index else tick.index + 1, hi)
  }

  /** A job that can act: the clock panel's waits for its decoder. */
  predicate CanMove(tick: Tick, job: Job, slots: seq<Slot>) {
    match job
    case Taking => var j := SlotOf(slots, tick.index); j < |slots| ==> slots[j].picture.Some?
    case Finished(_) => false
    case _ => true
  }

  lemma OneJobMoved(p: Setup, st: Stage, tick: Tick, sc: Scene, shown: Canvas, i: nat, state: PanelState,
                    pixels: Pixels, job: Job)
    requires SceneFits(p, st, tick, sc, shown) && i < |sc.jobs|
    requires JobFits(p, st, tick, i, state, pixels, job)
    ensures SceneFits(p, st, tick, WithJob(sc, CanvasOf(tick), i, state, pixels, job), shown)
  {
  }

  /** A job's action touches its own panel, its own cell of the canvas being composed, and itself. */
  function WithJob(sc: Scene, c: nat, i: nat, state: PanelState, pixels: Pixels, job: Job): Scene
    requires c < |sc.canvases| && i < |sc.panels| && i < |sc.jobs| && i < |sc.canvases[c].cells|
  {
    var canvas := sc.canvases[c];
    sc.(panels := sc.panels[i := state], jobs := sc.jobs[i := job],
        canvases := sc.canvases[c := canvas.(cells := canvas.cells[i := pixels])])
  }

  method MovePanel(p: Setup, ghost st: Stage, tick: Tick, sc: Scene, ghost shown: Canvas, i: nat) returns (after: Scene)
    requires SceneFits(p, st, tick, sc, shown) && i < |sc.jobs|
    requires sc.jobs[i].Selecting? || sc.jobs[i].Drawing?
    ensures SceneFits(p, st, tick, after, shown) && JobsLeft(after.jobs) < JobsLeft(sc.jobs)
    ensures |after.jobs| == |sc.jobs| && after.seen == sc.seen
    ensures forall k | 0 <= k < |sc.jobs| :: after.jobs[k].Taking? == sc.jobs[k].Taking?
  {
    var c := CanvasOf(tick);
    var state, pixels, job := MoveJob(p, st, tick, sc.canvases[c].size, i, sc.panels[i], sc.canvases[c].cells[i],
                                      sc.jobs[i]);
    OneJobMoved(p, st, tick, sc, shown, i, state, pixels, job);
    TotalUpdate(sc.jobs, i, job, JobRank);
    after := WithJob(sc, c, i, state, pixels, job);
  }

  method TakeInput(p: Setup, ghost stream: seq<Message>, ghost st: Stage, tick: Tick, sc: Scene, ghost shown: Canvas,
                   table: AheadTable, ghost hi: nat) returns (after: Scene, here: bool)
    requires SceneFits(p, st, tick, sc, shown) && TableFits(p, stream, tick, sc.jobs, table.slots, hi)
    requires sc.jobs[p.clock].Taking? && tick.index < hi && CanMove(tick, Taking, table.slots)
    modifies table
    ensures SceneFits(p, st, tick, after, shown) && TableFits(p, stream, tick, after.jobs, table.slots, hi)
    ensures JobsLeft(after.jobs) < JobsLeft(sc.jobs) && after.seen == sc.seen
    ensures !here
  {
    TakeFindsTheTick(p, stream, table.slots, tick.index, hi);
    var input;
    input, here := table.TakeOrDecode(p, tick);
    assert input == InputOf(p, p.clock, tick);
    var c, i := CanvasOf(tick), p.clock;
    OneJobMoved(p, st, tick, sc, shown, i, sc.panels[i], sc.canvases[c].cells[i], Selecting(input));
    TotalUpdate(sc.jobs, i, Selecting(input), JobRank);
    after := WithJob(sc, c, i, sc.panels[i], sc.canvases[c].cells[i], Selecting(input));
  }

  lemma SomethingCanMove(p: Setup, stream: seq<Message>, tick: Tick, jobs: seq<Job>, slots: seq<Slot>, hi: nat)
    requires TableFits(p, stream, tick, jobs, slots, hi) && !AllFinished(jobs)
    ensures || (exists i :: 0 <= i < |jobs| && CanMove(tick, jobs[i], slots))
            || (exists j :: 0 <= j < |slots| && slots[j].busy && slots[j].picture.None?)
  {
    var i :| 0 <= i < |jobs| && !jobs[i].Finished?;
    if !CanMove(tick, jobs[i], slots) {
      assert slots[SlotOf(slots, tick.index)].busy;
    }
  }

  method FinishDecode(p: Setup, ghost stream: seq<Message>, ghost tick: Tick, ghost jobs: seq<Job>, table: AheadTable,
                      ghost hi: nat, j: nat)
    requires TableFits(p, stream, tick, jobs, table.slots, hi)
    requires j < |table.slots| && table.slots[j].busy && table.slots[j].picture.None?
    modifies table
    ensures TableFits(p, stream, tick, jobs, table.slots, hi)
    ensures DecodesLeft(table.slots) < DecodesLeft(old(table.slots))
  {
    DecodeKeepsTicks(p, stream, table.slots, if jobs[p.clock].Taking? then tick.index else tick.index + 1, hi, j);
    TotalUpdate(table.slots, j, table.slots[j].(picture := Some(p.decode(table.slots[j].message))), DecodeRank);
    table.Decode(p, j);
  }

  /** Let any job that can act do so. */
  method AnyJobMoves(p: Setup, ghost stream: seq<Message>, ghost st: Stage, tick: Tick, sc: Scene, ghost shown: Canvas,
                     table: AheadTable, ghost hi: nat) returns (after: Scene, here: bool)
    requires SceneFits(p, st, tick, sc, shown) && TableFits(p, stream, tick, sc.jobs, table.slots, hi)
    requires tick.index < hi && exists i :: 0 <= i < |sc.jobs| && CanMove(tick, sc.jobs[i], table.slots)
    modifies table
    ensures SceneFits(p, st, tick, after, shown) && TableFits(p, stream, tick, after.jobs, table.slots, hi)
    ensures JobsLeft(after.jobs) < JobsLeft(sc.jobs) && after.seen == sc.seen
    ensures !here
  {
    var i :| 0 <= i < |sc.jobs| && CanMove(tick, sc.jobs[i], table.slots);
    here := false;
    if sc.jobs[i].Taking? {
      after, here := TakeInput(p, stream, st, tick, sc, shown, table, hi);
    } else {
      after := MovePanel(p, st, tick, sc, shown, i);
    }
  }

  /** Run a tick's jobs, the decoders and, when there is a finished frame, the encoder's reading of it
      side by side, until the jobs are done and the frame is read. */
  method RunJobs(p: Setup, ghost stream: seq<Message>, ghost st: Stage, tick: Tick, scene: Scene, ghost shown: Canvas,
                 table: AheadTable, ghost hi: nat, reading: bool) returns (sc: Scene, here: bool)
    requires SceneFits(p, st, tick, scene, shown) && TableFits(p, stream, tick, scene.jobs, table.slots, hi)
    requires tick.index < hi && scene.seen == []
    modifies table
    ensures SceneFits(p, st, tick, sc, shown) && TableFits(p, stream, tick, sc.jobs, table.slots, hi)
    ensures AllFinished(sc.jobs) && (reading ==> sc.seen == shown.cells)
    ensures !here
  {
    sc, here := scene, false;
    var other := 1 - CanvasOf(tick);
    while !AllFinished(sc.jobs) || (reading && |sc.seen| < |sc.canvases[other].cells|)
      invariant SceneFits(p, st, tick, sc, shown) && TableFits(p, stream, tick, sc.jobs, table.slots, hi)
      invariant !here
      decreases JobsLeft(sc.jobs), DecodesLeft(table.slots), |shown.cells| - |sc.seen|
    {
      if !AllFinished(sc.jobs) {
        SomethingCanMove(p, stream, tick, sc.jobs, table.slots, hi);
      }
      if
      case exists i :: 0 <= i < |sc.jobs| && CanMove(tick, sc.jobs[i], table.slots) =>
        sc, here := AnyJobMoves(p, stream, st, tick, sc, shown, table, hi);
      case exists j :: 0 <= j < |table.slots| && table.slots[j].busy && table.slots[j].picture.None? =>
        var j :| 0 <= j < |table.slots| && table.slots[j].busy && table.slots[j].picture.None?;
        FinishDecode(p, stream, tick, sc.jobs, table, hi, j);
      case reading && |sc.seen| < |sc.canvases[other].cells| =>
        sc := sc.(seen := sc.seen + [sc.canvases[other].cells[|sc.seen|]]);
    }
  }

  // ---- the loop -----------------------------------------------------------------------------------

  /** The jobs of a tick all succeeded exactly when the tick works; they have then composed it. */
  lemma FinishedJobsComposeTheTick(p: Setup, st: Stage, tick: Tick, panels: seq<PanelState>, cells: seq<Pixels>,
                                   jobs: seq<Job>)
    requires JobsFit(p, st, tick, panels, cells, jobs) && AllFinished(jobs) && SizeAt(p, st, tick).Some?
    requires st.size.Some? || ClockSelected(p, st, tick).1
    ensures (forall i | 0 <= i < |jobs| :: jobs[i].ok) <==> TickWorks(p, st, tick)
    ensures TickWorks(p, st, tick) ==> panels == StageAfter(p, st, tick).panels && cells == CellsAt(p, st, tick)
  {
    if forall i | 0 <= i < |jobs| :: jobs[i].ok {
      assert jobs[p.clock].ok;
      assert ClockSelected(p, st, tick) == SelectedAt(p, st, tick, p.clock);
      assert forall i | 0 <= i < |panels| ::
               panels[i] == OutcomeAt(p, st, tick, i).state && cells[i] == OutcomeAt(p, st, tick, i).pixels;
    } else {
      var i :| 0 <= i < |jobs| && !jobs[i].ok;
      assert !OutcomeAt(p, st, tick, i).ok;
    }
  }

  /** Collect every job; false when one reported an error. */
  method WaitJobs(jobs: seq<Job>) returns (ok: bool)
    requires AllFinished(jobs)
    ensures ok <==> forall i | 0 <= i < |jobs| :: jobs[i].ok
  {
    ok := true;
    for i := 0 to |jobs|
      invariant ok <==> forall k | 0 <= k < i :: jobs[k].ok
    {
      if !jobs[i].ok {
        ok := false;
      }
    }
  }

  /** The ticks read and not composed yet are those from `from` on. */
  predicate QueueHolds(stream: seq<Message>, queued: seq<Tick>, from: nat) {
    && from + |queued| <= |stream|
    && forall k | 0 <= k < |queued| :: queued[k] == TickAt(stream, from + k)
  }

  /** Show the clock panel a tick read ahead: one that decodes ahead puts a decoder to work, any other
      does nothing.  False when no decoder was free. */
  method Prefetch(p: Setup, ghost stream: seq<Message>, table: AheadTable, tick: Tick, ghost from: nat)
    returns (taken: bool)
    requires tick.index < |stream| && tick == TickAt(stream, tick.index) && tick.index - from < AHEAD_DEPTH
    requires HoldsTicks(p, stream, table.slots, from, tick.index)
    modifies table
    ensures HoldsTicks(p, stream, table.slots, from, tick.index + 1)
    ensures taken
  {
    taken := true;
    if p.decodesAhead {
      PrefetchFindsASlot(p, stream, table.slots, from, tick.index);
      taken := table.Prefetch(tick);
    }
  }

  /** Read ticks up to the look-ahead depth, each shown to the clock panel as it is read; none is refused
      a decoder.  A failing read is met exactly when the window reaches past the last message. */
  method ReadAhead(p: Setup, stream: seq<Message>, breaks: bool, queued: seq<Tick>, ghost from: nat, table: AheadTable,
                   read: nat) returns (queued': seq<Tick>, read': nat, allTaken: bool, broken: bool)
    requires QueueHolds(stream, queued, from) && read == from + |queued| && |queued| <= AHEAD_DEPTH
    requires HoldsTicks(p, stream, table.slots, from, read)
    modifies table
    ensures QueueHolds(stream, queued', from) && read' == from + |queued'|
    ensures |queued'| <= AHEAD_DEPTH && (|queued'| < AHEAD_DEPTH ==> read' == |stream|)
    ensures HoldsTicks(p, stream, table.slots, from, read')
    ensures allTaken && (broken <==> breaks && |queued'| < AHEAD_DEPTH)
  {
    queued', read', allTaken := queued, read, true;
    while |queued'| < AHEAD_DEPTH && read' < |stream|
      invariant QueueHolds(stream, queued', from) && read' == from + |queued'| && |queued'| <= AHEAD_DEPTH
      invariant HoldsTicks(p, stream, table.slots, from, read')
      invariant allTaken
      decreases |stream| - read'
    {
      var taken := Prefetch(p, stream, table, Tick(read', stream[read']), from);
      allTaken := allTaken && taken;
      queued' := queued' + [Tick(read', stream[read'])];
      read' := read' + 1;
    }
    broken := breaks && |queued'| < AHEAD_DEPTH;
  }

  function Cleared(canvas: Canvas): (r: Canvas)
    ensures |r.cells| == |canvas.cells| && r.size == canvas.size && forall i | 0 <= i < |r.cells| :: r.cells[i] == BLACK
  {
    Canvas(canvas.size, seq(|canvas.cells|, _ => BLACK))
  }

  /** How the clock panel's job starts after the first tick. */
  function ClockJob(p: Setup, tick: Tick): Job {
    if p.decodesAhead then Taking else Selecting(Plain(tick))
  }

  /** The jobs of a tick as they are launched; on the first tick the clock panel has already selected. */
  function Launched(p: Setup, tick: Tick, clock: Job): (jobs: seq<Job>)
    ensures |jobs| == |p.initial|
    ensures forall i | 0 <= i < |jobs| :: jobs[i] == if i == p.clock then clock else Selecting(Plain(tick))
  {
    seq(|p.initial|, i requires 0 <= i < |p.initial| => if i == p.clock then clock else Selecting(Plain(tick)))
  }

  /** A tick after the first is launched over the stage the last one left. */
  lemma LaunchFits(p: Setup, stream: seq<Message>, st: Stage, tick: Tick, canvases: seq<Canvas>)
    requires Fits(p, st) && st.size.Some? && |canvases| == 2
    requires canvases[0].size == canvases[1].size == st.size
    requires |canvases[0].cells| == |canvases[1].cells| == |p.initial|
    ensures var c := CanvasOf(tick);
            var sc := Scene(st.panels, canvases[c := Cleared(canvases[c])], Launched(p, tick, ClockJob(p, tick)), []);
            SceneFits(p, st, tick, sc, canvases[1 - c])
  {
  }

  /** The clock panel can select on the first tick and names a cell size. */
  predicate ClockSizes(p: Setup, st: Stage, tick: Tick)
    requires Fits(p, st)
  {
    ClockSelected(p, st, tick).1 && SizeAt(p, st, tick).Some?
  }

  /** The state at the head of the loop: a tick's jobs are done, its frame not yet encoded, and the
      decoders are at work on exactly the ticks in the queue. */
  ghost predicate AtHead(p: Setup, stream: seq<Message>, tick: Tick, st: Stage, sc: Scene, slots: seq<Slot>,
                         queued: seq<Tick>, read: nat) {
    && tick.index < |stream| && tick == TickAt(stream, tick.index)
    && Fits(p, st) && ClockSizesIfNew(p, st, tick)
    && SizesAgree(p, st, tick, sc.canvases)
    && JobsFit(p, st, tick, sc.panels, sc.canvases[CanvasOf(tick)].cells, sc.jobs) && AllFinished(sc.jobs)
    && QueueHolds(stream, queued, tick.index + 1) && |queued| <= AHEAD_DEPTH && read == tick.index + 1 + |queued|
    && HoldsTicks(p, stream, slots, tick.index + 1, read)
  }

  predicate ClockSizesIfNew(p: Setup, st: Stage, tick: Tick)
    requires Fits(p, st)
  {
    st.size.Some? || ClockSizes(p, st, tick)
  }

  predicate SizesAgree(p: Setup, st: Stage, tick: Tick, canvases: seq<Canvas>)
    requires Fits(p, st)
  {
    && |canvases| == 2
    && canvases[0].size == canvases[1].size == SizeAt(p, st, tick)
    && canvases[0].size.Some?
    && |canvases[0].cells| == |canvases[1].cells| == |p.initial|
  }

  /** The first tick: the clock panel selects alone and pins the cell size of both canvases. */
  method ComposeFirst(p: Setup, stream: seq<Message>, table: AheadTable) returns (ok: bool, sc: Scene)
    requires stream != [] && table.slots == []
    modifies table
    ensures ok == ClockSizes(p, Stage(p.initial, None), TickAt(stream, 0))
    ensures ok ==> AtHead(p, stream, TickAt(stream, 0), Stage(p.initial, None), sc, table.slots, [], 1)
  {
    var tick := Tick(0, stream[0]);
    ghost var st := Stage(p.initial, None);
    var blank := Canvas(None, seq(|p.initial|, _ => BLACK));
    sc := Scene(p.initial, [blank, blank], [], []);
    var input := Plain(tick);
    if p.decodesAhead {
      var here;
      input, here := table.TakeOrDecode(p, tick);
    }
    var (s, fine) := p.select(p.clock, p.initial[p.clock], input, None);
    assert (s, fine) == ClockSelected(p, st, tick);
    if !fine {
      return false, sc;
    }
    var size := p.clockSize(s);
    if size.None? {
      return false, sc;
    }
    var canvas := Canvas(size, blank.cells);
    sc := Scene(p.initial[p.clock := s], [Cleared(canvas), canvas], Launched(p, tick, Drawing), []);
    FirstLaunchFits(p, stream, st, tick, sc);
    var here;
    sc, here := RunJobs(p, stream, st, tick, sc, canvas, table, 1, false);
    ok := true;
  }

  lemma FirstLaunchFits(p: Setup, stream: seq<Message>, st: Stage, tick: Tick, sc: Scene)
    requires stream != [] && tick == TickAt(stream, 0) && st == Stage(p.initial, None) && ClockSizes(p, st, tick)
    requires sc.panels == p.initial[p.clock := ClockSelected(p, st, tick).0] && sc.jobs == Launched(p, tick, Drawing)
    requires |sc.canvases| == 2 && sc.seen == []
    requires sc.canvases[0].size == sc.canvases[1].size == SizeAt(p, st, tick)
    requires |sc.canvases[0].cells| == |sc.canvases[1].cells| == |p.initial|
    requires forall i | 0 <= i < |p.initial| :: sc.canvases[0].cells[i] == BLACK
    ensures SceneFits(p, st, tick, sc, sc.canvases[1])
    ensures TableFits(p, stream, tick, sc.jobs, [], 1)
  {
    assert SelectedAt(p, st, tick, p.clock) == ClockSelected(p, st, tick);
  }

  /** A later tick: its jobs run while the encoder reads the frame before it. */
  method ComposeNext(p: Setup, stream: seq<Message>, ghost st: Stage, tick: Tick, panels: seq<PanelState>,
                     canvases: seq<Canvas>, table: AheadTable, ghost queued: seq<Tick>, ghost read: nat)
    returns (sc: Scene, here: bool)
    requires 1 <= tick.index < |stream| && tick == TickAt(stream, tick.index)
    requires Fits(p, st) && panels == st.panels && st.size.Some? && SizesAgree(p, st, tick, canvases)
    requires QueueHolds(stream, queued, tick.index + 1) && |queued| <= AHEAD_DEPTH && read == tick.index + 1 + |queued|
    requires HoldsTicks(p, stream, table.slots, tick.index, read)
    modifies table
    ensures AtHead(p, stream, tick, st, sc, table.slots, queued, read)
    ensures sc.seen == canvases[1 - CanvasOf(tick)].cells
    ensures sc.canvases[1 - CanvasOf(tick)] == canvases[1 - CanvasOf(tick)]
    ensures !here
  {
    var c := CanvasOf(tick);
    LaunchFits(p, stream, st, tick, canvases);
    sc := Scene(panels, canvases[c := Cleared(canvases[c])], Launched(p, tick, ClockJob(p, tick)), []);
    sc, here := RunJobs(p, stream, st, tick, sc, canvases[1 - c], table, read, true);
  }

  lemma ComposedAtHead(p: Setup, stream: seq<Message>, tick: Tick, st: Stage, sc: Scene, slots: seq<Slot>,
                       queued: seq<Tick>, read: nat)
    requires AtHead(p, stream, tick, st, sc, slots, queued, read)
    ensures (forall i | 0 <= i < |sc.jobs| :: sc.jobs[i].ok) <==> TickWorks(p, st, tick)
    ensures TickWorks(p, st, tick) ==>
              && Stage(sc.panels, SizeAt(p, st, tick)) == StageAfter(p, st, tick)
              && sc.canvases[CanvasOf(tick)] == Canvas(SizeAt(p, st, tick), CellsAt(p, st, tick))
  {
    FinishedJobsComposeTheTick(p, st, tick, sc.panels, sc.canvases[CanvasOf(tick)].cells, sc.jobs);
  }

  /** Read ahead between two ticks. */
  method ReadOn(p: Setup, stream: seq<Message>, breaks: bool, ghost tick: Tick, ghost st: Stage, ghost sc: Scene,
                queued: seq<Tick>, table: AheadTable, read: nat)
    returns (queued': seq<Tick>, read': nat, allTaken: bool, broken: bool)
    requires AtHead(p, stream, tick, st, sc, table.slots, queued, read)
    modifies table
    ensures AtHead(p, stream, tick, st, sc, table.slots, queued', read')
    ensures |queued'| < AHEAD_DEPTH ==> read' == |stream|
    ensures allTaken && (broken <==> breaks && |queued'| < AHEAD_DEPTH)
  {
    queued', read', allTaken, broken := ReadAhead(p, stream, breaks, queued, tick.index + 1, table, read);
  }

  /** Launch the next tick's jobs and meanwhile read the frame at hand off its canvas. */
  method LaunchAndRead(p: Setup, stream: seq<Message>, ghost st: Stage, tick: Tick, sc: Scene, queued: seq<Tick>,
                       ghost read: nat, table: AheadTable) returns (sc': Scene, image: Image, here: bool)
    requires AtHead(p, stream, tick, st, sc, table.slots, queued, read) && TickWorks(p, st, tick) && queued != []
    modifies table
    ensures AtHead(p, stream, queued[0], StageAfter(p, st, tick), sc', table.slots, queued[1..], read)
    ensures image == Image(SizeAt(p, st, tick).value, CellsAt(p, st, tick))
    ensures !here
  {
    LaunchableAtHead(p, stream, tick, st, sc, table.slots, queued, read);
    ghost var after := StageAfter(p, st, tick);
    ghost var canvas := sc.canvases[CanvasOf(tick)];
    sc', here := ComposeNext(p, stream, after, queued[0], sc.panels, sc.canvases, table, queued[1..], read);
    assert sc'.canvases[CanvasOf(tick)] == canvas && sc'.seen == canvas.cells;
    image := Image(sc'.canvases[CanvasOf(tick)].size.value, sc'.seen);
  }

  /** Launch the next tick's jobs and meanwhile encode the frame at hand. */
  method LaunchAndEncode(p: Setup, stream: seq<Message>, ghost end: nat, ghost st: Stage, tick: Tick, sc: Scene,
                         queued: seq<Tick>, ghost read: nat, frames: seq<Image>, table: AheadTable)
    returns (sc': Scene, frames': seq<Image>, ok: bool, here: bool)
    requires AtHead(p, stream, tick, st, sc, table.slots, queued, read) && TickWorks(p, st, tick) && queued != []
    requires tick.index < end <= |stream| && Reached(p, stream, end, tick.index, st, frames, true)
    modifies table
    ensures AtHead(p, stream, queued[0], StageAfter(p, st, tick), sc', table.slots, queued[1..], read)
    ensures Reached(p, stream, end, tick.index + 1, StageAfter(p, st, tick), frames', ok)
    ensures !here
  {
    FrameReached(p, stream, end, tick, st, frames);
    var image;
    sc', image, here := LaunchAndRead(p, stream, st, tick, sc, queued, read, table);
    frames' := frames + [image];
    ok := p.accepts(frames');
  }

  /** At the head, with a tick queued and the current one composed, the next one can be launched. */
  lemma LaunchableAtHead(p: Setup, stream: seq<Message>, tick: Tick, st: Stage, sc: Scene, slots: seq<Slot>,
                         queued: seq<Tick>, read: nat)
    requires AtHead(p, stream, tick, st, sc, slots, queued, read) && TickWorks(p, st, tick) && queued != []
    ensures var after, next := StageAfter(p, st, tick), queued[0];
            && next.index == tick.index + 1 && next == TickAt(stream, next.index)
            && sc.panels == after.panels && after.size.Some? && SizesAgree(p, after, next, sc.canvases)
            && QueueHolds(stream, queued[1..], next.index + 1) && read == next.index + 1 + |queued[1..]|
            && HoldsTicks(p, stream, slots, next.index, read)
    ensures sc.canvases[CanvasOf(tick)] == Canvas(SizeAt(p, st, tick), CellsAt(p, st, tick))
  {
    ComposedAtHead(p, stream, tick, st, sc, slots, queued, read);
  }

  lemma FrameReached(p: Setup, stream: seq<Message>, end: nat, tick: Tick, st: Stage, frames: seq<Image>)
    requires tick.index < end <= |stream| && tick == TickAt(stream, tick.index) && Fits(p, st) && TickWorks(p, st, tick)
    requires Reached(p, stream, end, tick.index, st, frames, true)
    ensures var handed := frames + [Image(SizeAt(p, st, tick).value, CellsAt(p, st, tick))];
            Reached(p, stream, end, tick.index + 1, StageAfter(p, st, tick), handed, p.accepts(handed))
  {
    var handed := frames + [Image(SizeAt(p, st, tick).value, CellsAt(p, st, tick))];
    ReachedNext(p, stream, end, tick.index, st, frames, StageAfter(p, st, tick), handed, p.accepts(handed));
  }

  lemma FailureReached(p: Setup, stream: seq<Message>, end: nat, tick: Tick, st: Stage, frames: seq<Image>)
    requires tick.index < |stream| && tick == TickAt(stream, tick.index) && Fits(p, st) && !TickWorks(p, st, tick)
    requires tick.index <= end <= |stream| && Reached(p, stream, end, tick.index, st, frames, true)
    ensures RunOf(p, stream, end).frames == frames && (tick.index < end ==> !RunOf(p, stream, end).ok)
  {
    if tick.index < end {
      ReachedNext(p, stream, end, tick.index, st, frames, st, frames, false);
    }
  }

  /** The last frame has no tick after it to be encoded beside. */
  method EncodeLast(p: Setup, ghost stream: seq<Message>, ghost st: Stage, tick: Tick, sc: Scene,
                    ghost slots: seq<Slot>, frames: seq<Image>) returns (frames': seq<Image>, ok: bool)
    requires AtHead(p, stream, tick, st, sc, slots, [], |stream|) && TickWorks(p, st, tick)
    requires Reached(p, stream, |stream|, tick.index, st, frames, true)
    ensures frames' == RunOf(p, stream, |stream|).frames && ok == RunOf(p, stream, |stream|).ok
  {
    ComposedAtHead(p, stream, tick, st, sc, slots, [], |stream|);
    FrameReached(p, stream, |stream|, tick, st, frames);
    var canvas := sc.canvases[CanvasOf(tick)];
    frames' := frames + [Image(canvas.size.value, canvas.cells)];
    ok := p.accepts(frames');
  }

  /** How many of the stream's ticks are run: all, or all but the look-ahead window when the read after the
      last one fails. */
  function TicksRun(n: nat, breaks: bool): (end: nat)
    ensures end <= n
  {
    if !breaks then n else if n < AHEAD_DEPTH then 0 else n - AHEAD_DEPTH
  }

  /** What the loop must hand over: of the ticks run, the frames their panels make, each of its own history;
      and status 0 only when all are encoded. */
  predicate EncodesAsAsked(p: Setup, stream: seq<Message>, breaks: bool, frames: seq<Image>, status: int) {
    && FramesMeet(p, stream, TicksRun(|stream|, breaks), frames)
    && status == if stream != [] && !breaks && AllEncoded(p, |stream|, frames) then 0 else 1
  }

  lemma RunIsAsAsked(p: Setup, stream: seq<Message>, breaks: bool)
    ensures EncodesAsAsked(p, stream, breaks, RunOf(p, stream, TicksRun(|stream|, breaks)).frames,
                           if stream != [] && !breaks && RunOf(p, stream, |stream|).ok then 0 else 1)
  {
    RunMeets(p, stream, TicksRun(|stream|, breaks));
  }

  /** Frames and status are those of the plain loop, whatever the interleaving, whoever fails, and
      whichever kind of panel is the clock; every cell shows what its panel renders.  No prefetch is refused
      a decoder, and a camera clock decodes only the first tick in the job that shows it.  When the stream
      `breaks`, the frames are the plain loop's but for the last three, which had been read ahead and were
      not encoded yet. */
  method RunEncodeLoopParallel(p: Setup, stream: seq<Message>, breaks: bool)
    returns (frames: seq<Image>, status: int, allTaken: bool, laterDecodedHere: bool)
    ensures frames == RunOf(p, stream, TicksRun(|stream|, breaks)).frames
    ensures status == if stream != [] && !breaks && RunOf(p, stream, |stream|).ok then 0 else 1
    ensures EncodesAsAsked(p, stream, breaks, frames, status)
    ensures allTaken && !laterDecodedHere
  {
    frames, status, allTaken, laterDecodedHere := [], 1, true, false;
    RunIsAsAsked(p, stream, breaks);
    if stream != [] {
      var table := new AheadTable();
      var ok, sc := ComposeFirst(p, stream, table);
      if ok {
        frames, status, allTaken, laterDecodedHere := EncodeTicks(p, stream, breaks, sc, table);
      } else {
        FailureReached(p, stream, TicksRun(|stream|, breaks), Tick(0, stream[0]), Stage(p.initial, None), frames);
      }
    }
  }

  /** Tick after tick, from the first one's jobs on. */
  method EncodeTicks(p: Setup, stream: seq<Message>, breaks: bool, first: Scene, table: AheadTable)
    returns (frames: seq<Image>, status: int, allTaken: bool, laterDecodedHere: bool)
    requires stream != [] && AtHead(p, stream, Tick(0, stream[0]), Stage(p.initial, None), first, table.slots, [], 1)
    modifies table
    ensures frames == RunOf(p, stream, TicksRun(|stream|, breaks)).frames
    ensures status == if !breaks && RunOf(p, stream, |stream|).ok then 0 else 1
    ensures allTaken && !laterDecodedHere
  {
    frames, allTaken, laterDecodedHere := [], true, false;
    ghost var end := TicksRun(|stream|, breaks);
    ghost var st := Stage(p.initial, None);
    var tick, sc := Tick(0, stream[0]), first;
    var queued: seq<Tick>, read, ok, broken := [], 1, true, false;
    while true
      invariant AtHead(p, stream, tick, st, sc, table.slots, queued, read)
      invariant tick.index <= end && Reached(p, stream, end, tick.index, st, frames, true)
      invariant allTaken && !laterDecodedHere
      decreases |stream| - tick.index
    {
      ComposedAtHead(p, stream, tick, st, sc, table.slots, queued, read);
      ok := WaitJobs(sc.jobs);
      if !ok {
        FailureReached(p, stream, end, tick, st, frames);
        return frames, 1, allTaken, laterDecodedHere;
      }
      queued, read, allTaken, broken := ReadOn(p, stream, breaks, tick, st, sc, queued, table, read);
      if broken {
        return frames, 1, allTaken, laterDecodedHere;
      }
      if queued == [] {
        break;
      }
      ghost var after := StageAfter(p, st, tick);
      var next := queued[0];
      sc, frames, ok, laterDecodedHere :=
        LaunchAndEncode(p, stream, end, st, tick, sc, queued, read, frames, table);
      if !ok {
        return frames, 1, allTaken, laterDecodedHere;
      }
      st, tick, queued := after, next, queued[1..];
    }
    frames, ok := EncodeLast(p, stream, st, tick, sc, table.slots, frames);
    status := if ok then 0 else 1;
  }

  function Lesser(a: nat, b: nat): nat { if a < b then a else b }

  /** Frames are only ever added. */
  lemma {:induction false} FramesGrow(p: Setup, stream: seq<Message>, k: nat)
    requires k <= |stream|
    ensures RunOf(p, stream, k).frames <= RunOf(p, stream, |stream|).frames
    decreases |stream| - k
  {
    if k < |stream| {
      FramesGrow(p, stream, k + 1);
    }
  }

  /** Every tick but the one a run stops at makes a frame: after `k` ticks there are the first `k` frames of
      the whole run, or all of them. */
  lemma FramesAfter(p: Setup, stream: seq<Message>, k: nat)
    requires k <= |stream|
    ensures |RunOf(p, stream, |stream|).frames| <= |stream|
    ensures var all := RunOf(p, stream, |stream|).frames; RunOf(p, stream, k).frames == all[..Lesser(k, |all|)]
  {
    AtMostOneFramePerTick(p, stream, |stream|);
    FramesGrow(p, stream, k);
    if RunOf(p, stream, k).ok {
      OneFramePerTick(p, stream, k);
    } else {
      StoppedRunStays(p, stream, k, |stream|);
      AtMostOneFramePerTick(p, stream, k);
    }
  }

  lemma OneTickMore(p: Setup, r: Run, tick: Tick)
    requires Fits(p, r.stage) && r.ok
    ensures if TickWorks(p, r.stage, tick)
            then |RunTick(p, r, tick).frames| == |r.frames| + 1 && r.frames <= RunTick(p, r, tick).frames
            else RunTick(p, r, tick).frames == r.frames && !RunTick(p, r, tick).ok
  {
  }

  lemma {:induction false} AtMostOneFramePerTick(p: Setup, stream: seq<Message>, k: nat)
    requires k <= |stream|
    ensures |RunOf(p, stream, k).frames| <= k
  {
    if k > 0 {
      AtMostOneFramePerTick(p, stream, k - 1);
    }
  }

  /** What the parallel loop hands over on a stream that breaks: the plain loop's frames up to the window, so
      at most three are lost, and one is lost exactly when the first tick of the window is reached and
      works. */
  lemma BrokenStreamLosesTheWindow(p: Setup, stream: seq<Message>)
    ensures var k, all := TicksRun(|stream|, true), RunOf(p, stream, |stream|).frames;
            && RunOf(p, stream, k).frames == all[..Lesser(k, |all|)]
            && |all| <= |RunOf(p, stream, k).frames| + AHEAD_DEPTH
            && (RunOf(p, stream, k).frames != all <==> stream != [] && FrameFollows(p, stream, k))
  {
    var k := TicksRun(|stream|, true);
    FramesAfter(p, stream, k);
    if stream != [] {
      FramesAfter(p, stream, k + 1);
      FramesLeftIff(p, stream, k);
    }
  }

  /** Tick `k` is reached and works. */
  predicate FrameFollows(p: Setup, stream: seq<Message>, k: nat)
    requires k < |stream|
  {
    RunOf(p, stream, k).ok && TickWorks(p, RunOf(p, stream, k).stage, TickAt(stream, k))
  }

  lemma FramesLeftIff(p: Setup, stream: seq<Message>, k: nat)
    requires k < |stream|
    ensures RunOf(p, stream, k).frames != RunOf(p, stream, |stream|).frames <==> FrameFollows(p, stream, k)
  {
    if !RunOf(p, stream, k).ok {
      StoppedRunStays(p, stream, k, |stream|);
    } else if !FrameFollows(p, stream, k) {
      FramesBeforeAFailure(p, stream, k);
    } else {
      FramesAfter(p, stream, k + 1);
      OneTickMore(p, RunOf(p, stream, k), TickAt(stream, k));
    }
  }

  // ---- a stream that loses its window ----------------------------------------------------------------

  /** One panel that always selects and renders, and an encoder that takes every frame. */
  function SteadyPanel(): Setup {
    Setup([0], 0, true, (m: Message) => 0, (i: nat, s: PanelState, input: Input, size: Option<Size>) => (s, true),
          (s: PanelState) => Some(Size(1, 1)), (i: nat, s: PanelState) => (s, true, BLACK), (f: seq<Image>) => true)
  }

  lemma {:induction false} SteadyPanelWorks(stream: seq<Message>, k: nat)
    requires k <= |stream|
    ensures RunOf(SteadyPanel(), stream, k).ok && |RunOf(SteadyPanel(), stream, k).frames| == k
  {
    if k > 0 {
      SteadyPanelWorks(stream, k - 1);
    }
  }

  /** Of three messages followed by a failing read the plain loop encodes all, the parallel loop none. */
  method LoseTheWindow(stream: seq<Message>) returns (plain: seq<Image>, parallel: seq<Image>)
    requires |stream| == 3
    ensures |plain| == 3 && parallel == []
  {
    var status, allTaken, laterDecodedHere;
    plain, status := RunEncodeLoopSync(SteadyPanel(), stream, true);
    parallel, status, allTaken, laterDecodedHere := RunEncodeLoopParallel(SteadyPanel(), stream, true);
    SteadyPanelWorks(stream, 3);
  }
}
