/** What the parallel pass guarantees at any thread count and under every interleaving: it is the
    synchronous pass, its window is bounded, it never gets stuck, and it always ends. */
module ParallelPassResults {
  import opened Wrappers
  import opened TransformPass
  import opened TransformLaw
  import opened ParallelPass
  import opened Progress

  // ---- the same output as the synchronous pass --------------------------------------------

  /** Equal in the output bag, declarations, warnings and in every tally except the one under the
      empty key, where only the parallel pass counts the messages it copies through. */
  ghost predicate SameButCopyTally(a: Sink, b: Sink) {
    && a.log == b.log && a.declared == b.declared && a.warned == b.warned && a.warnings == b.warnings
    && forall k | k != "" :: (k in a.stats <==> k in b.stats) && (k in a.stats ==> a.stats[k] == b.stats[k])
  }

  ghost predicate SameOutcome(a: Outcome, b: Outcome) {
    (a.Running? <==> b.Running?) && SameButCopyTally(a.sink, b.sink)
  }

  lemma DrainedAlike(topics: seq<TopicInfo>, a: Sink, b: Sink, item: Item)
    requires item.error.None? && SameButCopyTally(a, b)
    ensures SameButCopyTally(Drained(topics, a, item), Drained(topics, b, item))
  {
  }

  /** Draining a copied message differs from writing it directly in the empty key's tally only. */
  lemma CopyDrainedIsWritten(p: Pass, sink: Sink, m: Message)
    ensures SameButCopyTally(
              Drained(p.bagTopics, sink, CopyItem(p, m)),
              sink.(log := sink.log + [Wrote(m.topic, m.stamp, m.payload, KindOf(p.bagTopics, m.topic))]))
  {
  }

  lemma StepAlike(p: Pass, a: Outcome, b: Outcome, m: Message)
    requires SameOutcome(a, b)
    ensures SameOutcome(if Kept(p, m) then DrainStep(p.bagTopics, a, ItemOf(p, m)) else a, SyncStep(p, b, m))
  {
    if a.Running? && Kept(p, m) && ItemOf(p, m).error.None? {
      DrainedAlike(p.bagTopics, a.sink, b.sink, ItemOf(p, m));
      if !Selected(p, m) {
        CopyDrainedIsWritten(p, b.sink, m);
      }
    }
  }

  /** Draining the submitted items in order is the synchronous pass over the messages. */
  lemma {:induction false} DrainingIsSync(p: Pass, n: nat)
    requires n <= |p.bag.messages|
    ensures SameOutcome(DrainAll(p, ItemsUpTo(p, n)), SyncAfter(p, n))
  {
    if n > 0 {
      DrainingIsSync(p, n - 1);
      var m := p.bag.messages[n - 1];
      StepAlike(p, DrainAll(p, ItemsUpTo(p, n - 1)), SyncAfter(p, n - 1), m);
      if Kept(p, m) {
        assert ItemsUpTo(p, n)[..|ItemsUpTo(p, n)| - 1] == ItemsUpTo(p, n - 1);
      }
    }
  }

  /** A reachable end state of a pass whose writer raised nothing holds what the synchronous pass
      leaves behind, and its exit status. */
  lemma FinalIsSync(p: Pass, s: State)
    requires Inv(p, s) && Final(s) && !s.writerThrew
    ensures SameButCopyTally(s.sink, SyncSink(p))
    ensures s.reader.status == SyncStatus(p)
  {
    var items := AllItems(p);
    DrainingIsSync(p, |p.bag.messages|);
    if s.collector.Finished? {
      assert items[..DrainedCount(s)] == items;
    } else {
      DrainAllSnoc(p, items, DrainedCount(s));
      DrainAbortIsFinal(p, items, DrainedCount(s) + 1);
    }
  }

  /** The parallel pass is the synchronous pass: in every complete run in which the writer raises
      nothing, the output bag receives the same declarations and writes in the same order, with the
      same warnings, tallies (but the one under the empty key) and exit status.  This covers a
      fatal transform error and a read error anywhere in the bag. */
  lemma ParallelPassIsSyncPass(p: Pass, states: seq<State>, steps: seq<Step>)
    requires IsRun(p, states, steps)
    requires Final(states[|steps|]) && !states[|steps|].writerThrew
    ensures SameButCopyTally(states[|steps|].sink, SyncSink(p))
    ensures states[|steps|].reader.status == SyncStatus(p)
  {
    RunKeepsInv(p, states, steps, |steps|);
    FinalIsSync(p, states[|steps|]);
  }

  /** The number of messages a fatal transform error lets through: exactly those before it. */
  lemma {:induction false} FatalItemStopsTheSyncPass(p: Pass, k: nat)
    requires k < |p.bag.messages| && SyncAfter(p, k).Running?
    requires Selected(p, p.bag.messages[k]) && ItemOf(p, p.bag.messages[k]).error.Some?
    ensures SyncSink(p) == SyncAfter(p, k).sink && SyncStatus(p) == 1
  {
    SyncAbortIsFinal(p, k + 1, |p.bag.messages|);
  }

  /** What the synchronous pass meets, the parallel one meets for every topic with a name. */
  lemma ParallelPassMeets(p: Pass, sink: Sink, status: int)
    requires SameButCopyTally(sink, SyncSink(p)) && status == SyncStatus(p)
    ensures PassMeets(p, sink, status, NAMED_TOPICS)
  {
    SyncPassMeets(p);
    var k :| EndsAt(p, k) && Leaves(p, k, SyncSink(p), EVERY_TOPIC) && status == StatusOf(p, k);
    forall topic: Topic | topic != ""
      ensures TallyMeets(p, k, sink.stats, topic)
    {
      assert TallyMeets(p, k, SyncSink(p).stats, topic);
    }
  }

  // ---- the window ------------------------------------------------------------------------

  /** The sequence numbers held in the job queue, by workers, and in the completion map. */
  function QueueTickets(c: Shared): set<nat> {
    set j | 0 <= j < |c.jobQueue| :: c.jobQueue[j].seqNo
  }

  function HandTickets(workers: seq<WorkerPc>): set<nat> {
    set w | 0 <= w < |workers| && workers[w].Busy? :: workers[w].job.seqNo
  }

  ghost function Window(c: Shared): set<nat> {
    set k | 0 <= k < c.totalSubmitted && InRange(c, k)
  }

  lemma {:induction false} WindowSize(c: Shared)
    requires c.nextOutputSeq <= c.totalSubmitted
    ensures |Window(c)| == c.totalSubmitted - c.nextOutputSeq
    decreases c.totalSubmitted - c.nextOutputSeq
  {
    if c.nextOutputSeq < c.totalSubmitted {
      var fewer := c.(totalSubmitted := c.totalSubmitted - 1);
      WindowSize(fewer);
      assert Window(c) == Window(fewer) + {c.totalSubmitted - 1};
    }
  }

  /** In every reachable state the sequence numbers not yet output are split between the three
      places without overlap or loss; there are `inFlight` of them, and at most three per worker. */
  lemma WindowIsPartitioned(p: Pass, s: State)
    requires Inv(p, s)
    ensures var c := s.shared;
            && Window(c) == QueueTickets(c) + HandTickets(s.workers) + c.completed.Keys
            && QueueTickets(c) !! HandTickets(s.workers) !! c.completed.Keys
            && s.shared.inFlight == |Window(c)| == c.totalSubmitted - c.nextOutputSeq <= 3 * p.numThreads
  {
    var c := s.shared;
    WindowSize(c);
    forall k
      ensures k in QueueTickets(c) <==> Queued(c, k)
      ensures k in HandTickets(s.workers) <==> InHand(s.workers, k)
    {
    }
    forall k | k in Window(c)
      ensures k in QueueTickets(c) + HandTickets(s.workers) + c.completed.Keys
    {
      assert InRange(c, k);
    }
  }

  // ---- no deadlock ------------------------------------------------------------------------

  /** Somebody among reader, workers and collector holds or can hand on the next item. */
  lemma WindowHeadMoves(p: Pass, s: State) returns (step: Step)
    requires Inv(p, s) && s.shared.nextOutputSeq < s.shared.totalSubmitted
    requires s.collector.Waiting? && |s.workers| > 0
    requires forall w | 0 <= w < |s.workers| && s.workers[w].Exited? :: s.shared.jobQueue == []
    ensures Enabled(p, s, step)
  {
    var k := s.shared.nextOutputSeq;
    assert InRange(s.shared, k);
    if k in s.shared.completed {
      step := CollectorTake;
    } else if InHand(s.workers, k) {
      var w :| 0 <= w < |s.workers| && s.workers[w].Busy? && s.workers[w].job.seqNo == k;
      step := WorkerFinish(w);
    } else {
      step := if s.workers[0].Busy? then WorkerFinish(0) else WorkerTake(0);
    }
  }

  /** A collector that is not waiting can always take its next step. */
  function CollectorMove(s: State): Step
    requires s.collector.Draining? || s.collector.Failing?
  {
    if s.collector.Draining? then CollectorDrain else CollectorStop
  }

  /** Every reachable state that is not final has an enabled step other than the writer raising an
      exception: the system never deadlocks, whatever the collector met. */
  lemma NeverStuck(p: Pass, s: State) returns (step: Step)
    requires Inv(p, s) && !Final(s) && p.numThreads > 0
    ensures Enabled(p, s, step) && !step.CollectorThrow?
  {
    match s.reader
    case Reading => step := ReadNext;
    case Leaving(_) => step := ReaderDone;
    case Submitting(_) =>
      if ReaderMayProceed(s.shared) {
        step := if s.shared.stop then ReaderBreak else ReaderSubmit;
      } else if s.collector.Waiting? {
        step := WindowHeadMoves(p, s);
        assert !step.CollectorThrow?;
      } else {
        step := CollectorMove(s);
      }
    case JoiningWorkers(_) =>
      if w :| 0 <= w < |s.workers| && !s.workers[w].Exited? {
        step := if s.workers[w].Busy? then WorkerFinish(w)
                else if s.shared.jobQueue == [] then WorkerExit(w) else WorkerTake(w);
      } else {
        step := JoinWorkers;
      }
    case JoiningCollector(_) =>
      if s.collector.Stopped? || s.collector.Finished? {
        step := JoinCollector;
      } else if !s.collector.Waiting? {
        step := CollectorMove(s);
      } else if AllDrained(s.shared) {
        step := CollectorFinish;
      } else {
        step := WindowHeadMoves(p, s);
        assert !step.CollectorThrow?;
      }
    case Joined(_) =>
  }

  // ---- termination ------------------------------------------------------------------------

  function WorkerWork(worker: WorkerPc): nat {
    match worker
    case Idle => 1
    case Busy(_) => 6
    case Exited => 0
  }

  function ReaderWork(reader: ReaderPc): nat {
    match reader
    case Reading => 4
    case Submitting(_) => 14
    case Leaving(_) => 3
    case JoiningWorkers(_) => 2
    case JoiningCollector(_) => 1
    case Joined(_) => 0
  }

  function CollectorWork(collector: CollectorPc): nat {
    match collector
    case Waiting => 2
    case Draining(_) => 4
    case Failing => 1
    case Stopped => 0
    case Finished => 0
  }

  /** An upper bound on the steps still to come. */
  function Work(p: Pass, s: State): nat
    requires s.cursor <= |p.bag.messages|
  {
    14 * (|p.bag.messages| - s.cursor) + ReaderWork(s.reader) + 8 * |s.shared.jobQueue| + Total(s.workers, WorkerWork)
    + 4 * |s.shared.completed| + CollectorWork(s.collector)
  }

  lemma CompletedGrowsByOne(completed: map<nat, Item>, k: nat, item: Item)
    ensures |completed[k := item]| <= |completed| + 1
  {
    assert completed[k := item].Keys == completed.Keys + {k};
  }

  lemma CompletedShrinksByOne(completed: map<nat, Item>, k: nat)
    requires k in completed
    ensures |completed - {k}| == |completed| - 1
  {
    assert completed.Keys == (completed - {k}).Keys + {k};
  }

  lemma ReaderStepLowersWork(p: Pass, s: State, step: Step)
    requires s.cursor <= |p.bag.messages| && Enabled(p, s, step)
    requires step.ReadNext? || step.ReaderSubmit? || step.ReaderBreak? || step.ReaderDone? || step.JoinWorkers?
             || step.JoinCollector?
    ensures Next(p, s, step).cursor <= |p.bag.messages|
    ensures Work(p, Next(p, s, step)) < Work(p, s)
  {
    if step.ReaderSubmit? {
      CompletedGrowsByOne(s.shared.completed, s.shared.totalSubmitted, CopyItem(p, s.reader.message));
    }
  }

  lemma WorkerStepLowersWork(p: Pass, s: State, step: Step)
    requires s.cursor <= |p.bag.messages| && Enabled(p, s, step)
    requires step.WorkerTake? || step.WorkerFinish? || step.WorkerExit?
    ensures Work(p, Next(p, s, step)) < Work(p, s)
  {
    TotalUpdate(s.workers, step.w, Next(p, s, step).workers[step.w], WorkerWork);
    if step.WorkerFinish? {
      var job := s.workers[step.w].job;
      CompletedGrowsByOne(s.shared.completed, job.seqNo, ItemOf(p, job.message));
    }
  }

  lemma CollectorStepLowersWork(p: Pass, s: State, step: Step)
    requires s.cursor <= |p.bag.messages| && Enabled(p, s, step)
    requires step.CollectorTake? || step.CollectorDrain? || step.CollectorThrow? || step.CollectorStop?
             || step.CollectorFinish?
    ensures Work(p, Next(p, s, step)) < Work(p, s)
  {
    if step.CollectorTake? {
      CompletedShrinksByOne(s.shared.completed, s.shared.nextOutputSeq);
    }
  }

  /** Every step lowers the bound, so no run is longer than `Work(p, Init(p))`. */
  lemma StepLowersWork(p: Pass, s: State, step: Step)
    requires s.cursor <= |p.bag.messages| && Enabled(p, s, step)
    ensures Next(p, s, step).cursor <= |p.bag.messages|
    ensures Work(p, Next(p, s, step)) < Work(p, s)
  {
    if step.WorkerTake? || step.WorkerFinish? || step.WorkerExit? {
      WorkerStepLowersWork(p, s, step);
    } else if step.CollectorTake? || step.CollectorDrain? || step.CollectorThrow? || step.CollectorStop?
              || step.CollectorFinish? {
      CollectorStepLowersWork(p, s, step);
    } else {
      ReaderStepLowersWork(p, s, step);
    }
  }

  lemma {:induction false} RunsAreBounded(p: Pass, states: seq<State>, steps: seq<Step>, i: nat)
    requires IsRun(p, states, steps) && i <= |steps|
    ensures states[i].cursor <= |p.bag.messages|
    ensures i + Work(p, states[i]) <= Work(p, Init(p))
  {
    if i > 0 {
      RunsAreBounded(p, states, steps, i - 1);
      RunKeepsInv(p, states, steps, i - 1);
      StepLowersWork(p, states[i - 1], steps[i - 1]);
    }
  }

  /** No run goes on for ever, and one that can go no further has ended properly: everybody has left,
      and unless the collector failed, everything submitted has been transformed and drained. */
  lemma EveryRunEnds(p: Pass, states: seq<State>, steps: seq<Step>)
    requires IsRun(p, states, steps) && p.numThreads > 0
    ensures |steps| <= Work(p, Init(p))
    ensures var s := states[|steps|];
            (forall step :: !Enabled(p, s, step)) ==>
              && Final(s)
              && (forall w | 0 <= w < |s.workers| :: s.workers[w].Exited?)
              && (s.collector.Stopped? || (s.collector.Finished? && s.shared.nextOutputSeq == |AllItems(p)|))
  {
    RunsAreBounded(p, states, steps, |steps|);
    RunKeepsInv(p, states, steps, |steps|);
    var s := states[|steps|];
    if !Final(s) {
      var step := NeverStuck(p, s);
    }
  }
}
