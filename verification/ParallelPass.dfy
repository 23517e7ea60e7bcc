/** The parallel rewrite pass: one reader, a worker pool and one collector share a monitor.
    Every critical section of the program is one step of a transition system (`Enabled`, `Next`),
    and the guard of a condition-variable wait is the step's guard, since each change that can
    enable a waiter is followed by a notify of everybody.  The module's results hold of every
    interleaving of the steps. */
module ParallelPass {
  import opened Wrappers
  import opened TransformPass

  datatype Job = Job(seqNo: nat, message: Message)

  /** The fields of the monitor.  `inFlight` is an integer so that an underflow would show. */
  datatype Shared = Shared(jobQueue: seq<Job>, completed: map<nat, Item>, nextOutputSeq: nat, totalSubmitted: nat,
                           inFlight: int, maxInFlight: int, stop: bool, readerDone: bool)

  datatype ReaderPc =
    | Reading
    | Submitting(message: Message)
    | Leaving(readFailed: bool)
    | JoiningWorkers(readFailed: bool)
    | JoiningCollector(readFailed: bool)
    | Joined(status: int)

  datatype WorkerPc = Idle | Busy(job: Job) | Exited

  /** `Failing` has met a fatal item or a throwing writer and has not yet set `stop`;
      `Stopped` has.  `Finished` drained everything and closed the writer. */
  datatype CollectorPc = Waiting | Draining(item: Item) | Failing | Stopped | Finished

  /** The whole system.  `writerThrew` records that the writer raised an exception, after which
      nothing is said about the sink. */
  datatype State = State(shared: Shared, cursor: nat, reader: ReaderPc, workers: seq<WorkerPc>,
                         collector: CollectorPc, sink: Sink, writerThrew: bool)

  datatype Step =
    | ReadNext | ReaderSubmit | ReaderBreak | ReaderDone | JoinWorkers | JoinCollector
    | WorkerTake(w: nat) | WorkerFinish(w: nat) | WorkerExit(w: nat)
    | CollectorTake | CollectorDrain | CollectorThrow(left: Sink) | CollectorStop | CollectorFinish

  // ---- the monitor's critical sections, as functions -----------------------------------

  function NewShared(numThreads: nat): Shared {
    Shared([], map[], 0, 0, 0, 3 * numThreads, false, false)
  }

  function SubmitJob(s: Shared, m: Message): Shared {
    s.(jobQueue := s.jobQueue + [Job(s.totalSubmitted, m)], totalSubmitted := s.totalSubmitted + 1,
       inFlight := s.inFlight + 1)
  }

  function SubmitItem(s: Shared, item: Item): Shared {
    s.(completed := s.completed[s.totalSubmitted := item], totalSubmitted := s.totalSubmitted + 1,
       inFlight := s.inFlight + 1)
  }

  function TakeJob(s: Shared): Shared
    requires s.jobQueue != []
  {
    s.(jobQueue := s.jobQueue[1..])
  }

  function CompleteJob(s: Shared, seqNo: nat, item: Item): Shared {
    s.(completed := if seqNo in s.completed then s.completed else s.completed[seqNo := item])
  }

  function TakeCompleted(s: Shared): Shared {
    s.(completed := s.completed - {s.nextOutputSeq}, nextOutputSeq := s.nextOutputSeq + 1, inFlight := s.inFlight - 1)
  }

  predicate ReaderMayProceed(s: Shared) { s.inFlight < s.maxInFlight || s.stop }

  predicate AllDrained(s: Shared) { s.readerDone && s.nextOutputSeq == s.totalSubmitted }

  // ---- the transition system ---------------------------------------------------------

  function Init(p: Pass): State {
    State(NewShared(p.numThreads), 0, Reading, seq(p.numThreads, _ => Idle), Waiting, InitialSink(p), false)
  }

  predicate Enabled(p: Pass, s: State, step: Step) {
    match step
    case ReadNext => s.reader.Reading? && s.cursor <= |p.bag.messages|
    case ReaderSubmit => s.reader.Submitting? && ReaderMayProceed(s.shared) && !s.shared.stop
    case ReaderBreak => s.reader.Submitting? && s.shared.stop
    case ReaderDone => s.reader.Leaving?
    case JoinWorkers => s.reader.JoiningWorkers? && forall w | 0 <= w < |s.workers| :: s.workers[w].Exited?
    case JoinCollector => s.reader.JoiningCollector? && (s.collector.Stopped? || s.collector.Finished?)
    case WorkerTake(w) => w < |s.workers| && s.workers[w].Idle? && s.shared.jobQueue != []
    case WorkerFinish(w) => w < |s.workers| && s.workers[w].Busy?
    case WorkerExit(w) => w < |s.workers| && s.workers[w].Idle? && s.shared.stop && s.shared.jobQueue == []
    case CollectorTake =>
      s.collector.Waiting? && !AllDrained(s.shared) && s.shared.nextOutputSeq in s.shared.completed
    case CollectorDrain => s.collector.Draining?
    case CollectorThrow(_) => s.collector.Draining?
    case CollectorStop => s.collector.Failing?
    case CollectorFinish => s.collector.Waiting? && AllDrained(s.shared)
  }

  function ExitStatus(p: Pass, readFailed: bool, collector: CollectorPc): int {
    if readFailed || !collector.Finished? || !p.closeOk then 1 else 0
  }

  function Next(p: Pass, s: State, step: Step): State
    requires Enabled(p, s, step)
  {
    match step
    case ReadNext =>
      if s.cursor == |p.bag.messages| then s.(reader := Leaving(p.bag.ending.ReadError?))
      else
        var m := p.bag.messages[s.cursor];
        s.(cursor := s.cursor + 1, reader := if Kept(p, m) then Submitting(m) else Reading)
    case ReaderSubmit =>
      var m := s.reader.message;
      s.(reader := Reading, shared := if Selected(p, m) then SubmitJob(s.shared, m)
                                      else SubmitItem(s.shared, CopyItem(p, m)))
    case ReaderBreak => s.(reader := Leaving(false))
    case ReaderDone =>
      s.(reader := JoiningWorkers(s.reader.readFailed), shared := s.shared.(readerDone := true, stop := true))
    case JoinWorkers => s.(reader := JoiningCollector(s.reader.readFailed))
    case JoinCollector => s.(reader := Joined(ExitStatus(p, s.reader.readFailed, s.collector)))
    case WorkerTake(w) =>
      s.(workers := s.workers[w := Busy(s.shared.jobQueue[0])], shared := TakeJob(s.shared))
    case WorkerFinish(w) =>
      var job := s.workers[w].job;
      s.(workers := s.workers[w := Idle], shared := CompleteJob(s.shared, job.seqNo, ItemOf(p, job.message)))
    case WorkerExit(w) => s.(workers := s.workers[w := Exited])
    case CollectorTake =>
      s.(collector := Draining(s.shared.completed[s.shared.nextOutputSeq]), shared := TakeCompleted(s.shared))
    case CollectorDrain =>
      s.(collector := if s.collector.item.error.Some? then Failing else Waiting,
         sink := DrainStep(p.bagTopics, Running(s.sink), s.collector.item).sink)
    case CollectorThrow(left) => s.(collector := Failing, sink := left, writerThrew := true)
    case CollectorStop => s.(collector := Stopped, shared := s.shared.(stop := true))
    case CollectorFinish => s.(collector := Finished)
  }

  predicate Final(s: State) { s.reader.Joined? }

  /** A run is a sequence of states, each the successor of the one before under the step at its index. */
  ghost predicate IsRun(p: Pass, states: seq<State>, steps: seq<Step>) {
    && |states| == |steps| + 1
    && states[0] == Init(p)
    && forall i | 0 <= i < |steps| :: Enabled(p, states[i], steps[i]) && states[i + 1] == Next(p, states[i], steps[i])
  }

  // ---- what the reader submits -------------------------------------------------------

  /** The items of the first `n` messages: entry `k` is what sequence number `k` stands for. */
  function ItemsUpTo(p: Pass, n: nat): (items: seq<Item>)
    requires n <= |p.bag.messages|
    ensures |items| <= n
  {
    if n == 0 then []
    else
      var before := ItemsUpTo(p, n - 1);
      if Kept(p, p.bag.messages[n - 1]) then before + [ItemOf(p, p.bag.messages[n - 1])] else before
  }

  function AllItems(p: Pass): seq<Item> {
    ItemsUpTo(p, |p.bag.messages|)
  }

  lemma {:induction false} ItemsUpToPrefix(p: Pass, n: nat, m: nat)
    requires n <= m <= |p.bag.messages|
    ensures ItemsUpTo(p, n) <= ItemsUpTo(p, m)
    decreases m
  {
    if n < m {
      ItemsUpToPrefix(p, n, m - 1);
    }
  }

  /** Draining a sequence of items one after the other, stopping at the first fatal one. */
  function DrainAll(p: Pass, items: seq<Item>): Outcome {
    if items == [] then Running(InitialSink(p))
    else DrainStep(p.bagTopics, DrainAll(p, items[..|items| - 1]), items[|items| - 1])
  }

  lemma DrainAllSnoc(p: Pass, items: seq<Item>, k: nat)
    requires k < |items|
    ensures DrainAll(p, items[..k + 1]) == DrainStep(p.bagTopics, DrainAll(p, items[..k]), items[k])
  {
    assert items[..k + 1][..k] == items[..k];
  }

  lemma {:induction false} DrainAbortIsFinal(p: Pass, items: seq<Item>, n: nat)
    requires n <= |items|
    requires DrainAll(p, items[..n]).Aborted?
    ensures DrainAll(p, items) == DrainAll(p, items[..n])
    decreases |items|
  {
    if n < |items| {
      var front := items[..|items| - 1];
      assert front[..n] == items[..n];
      DrainAbortIsFinal(p, front, n);
    } else {
      assert items[..n] == items;
    }
  }

  // ---- the invariant -----------------------------------------------------------------

  ghost predicate Queued(c: Shared, k: nat) {
    exists j :: 0 <= j < |c.jobQueue| && c.jobQueue[j].seqNo == k
  }

  ghost predicate InHand(workers: seq<WorkerPc>, k: nat) {
    exists w :: 0 <= w < |workers| && workers[w].Busy? && workers[w].job.seqNo == k
  }

  /** The counters agree and stay within the back-pressure bound. */
  ghost predicate CountersInv(c: Shared) {
    && c.nextOutputSeq <= c.totalSubmitted
    && c.inFlight == c.totalSubmitted - c.nextOutputSeq <= c.maxInFlight
  }

  ghost predicate InRange(c: Shared, k: nat) {
    c.nextOutputSeq <= k < c.totalSubmitted
  }

  /** Every holder of a sequence number holds its own, in flight. */
  ghost predicate HoldersInv(c: Shared, workers: seq<WorkerPc>) {
    && (forall j | 0 <= j < |c.jobQueue| :: InRange(c, c.jobQueue[j].seqNo) && c.jobQueue[j].seqNo !in c.completed)
    && (forall i, j | 0 <= i < j < |c.jobQueue| :: c.jobQueue[i].seqNo < c.jobQueue[j].seqNo)
    && (forall w | 0 <= w < |workers| && workers[w].Busy? ::
          && InRange(c, workers[w].job.seqNo)
          && workers[w].job.seqNo !in c.completed
          && !Queued(c, workers[w].job.seqNo))
    && (forall v, w | 0 <= v < w < |workers| && workers[v].Busy? && workers[w].Busy? ::
          workers[v].job.seqNo != workers[w].job.seqNo)
    && (forall k | k in c.completed :: InRange(c, k))
  }

  /** No sequence number in flight is lost. */
  ghost predicate CoverInv(c: Shared, workers: seq<WorkerPc>) {
    forall k | InRange(c, k) :: k in c.completed || InHand(workers, k) || Queued(c, k)
  }

  ghost predicate JobMatches(p: Pass, items: seq<Item>, job: Job) {
    job.seqNo < |items| && Selected(p, job.message) && ItemOf(p, job.message) == items[job.seqNo]
  }

  /** Jobs and finished items are the ones their sequence numbers stand for. */
  ghost predicate ContentsInv(p: Pass, items: seq<Item>, c: Shared, workers: seq<WorkerPc>) {
    && c.totalSubmitted <= |items|
    && (forall j | 0 <= j < |c.jobQueue| :: JobMatches(p, items, c.jobQueue[j]))
    && (forall w | 0 <= w < |workers| && workers[w].Busy? :: JobMatches(p, items, workers[w].job))
    && (forall k | k in c.completed :: k < |items| && c.completed[k] == items[k])
  }

  /** The flow of sequence numbers from the reader to the collector. */
  ghost predicate FlowInv(c: Shared, workers: seq<WorkerPc>) {
    CountersInv(c) && HoldersInv(c, workers) && CoverInv(c, workers)
  }

  /** What the reader has submitted, given how far it has read. */
  ghost predicate ReaderInv(p: Pass, s: State) {
    && s.cursor <= |p.bag.messages|
    && match s.reader
       case Reading => s.shared.totalSubmitted == |ItemsUpTo(p, s.cursor)|
       case Submitting(m) =>
         && 0 < s.cursor && m == p.bag.messages[s.cursor - 1] && Kept(p, m)
         && s.shared.totalSubmitted == |ItemsUpTo(p, s.cursor - 1)|
       case Leaving(f) => ReadToTheEnd(p, s, f) || (s.collector.Stopped? && !f)
       case JoiningWorkers(f) => ReadToTheEnd(p, s, f) || (s.collector.Stopped? && !f)
       case JoiningCollector(f) => ReadToTheEnd(p, s, f) || (s.collector.Stopped? && !f)
       case Joined(status) =>
         exists f :: status == ExitStatus(p, f, s.collector) && (ReadToTheEnd(p, s, f) || (s.collector.Stopped? && !f))
  }

  ghost predicate ReadToTheEnd(p: Pass, s: State, readFailed: bool) {
    && s.shared.totalSubmitted == |AllItems(p)|
    && readFailed == p.bag.ending.ReadError?
  }

  /** The shutdown flags, and who may have left. */
  ghost predicate ShutdownInv(p: Pass, s: State) {
    && |s.workers| == p.numThreads && s.shared.maxInFlight == 3 * p.numThreads
    && (s.shared.readerDone <==> s.reader.JoiningWorkers? || s.reader.JoiningCollector? || s.reader.Joined?)
    && (s.shared.stop <==> s.shared.readerDone || s.collector.Stopped?)
    && (forall w | 0 <= w < |s.workers| && s.workers[w].Exited? :: s.shared.stop && s.shared.jobQueue == [])
    && (s.reader.JoiningCollector? || s.reader.Joined? ==>
          forall w | 0 <= w < |s.workers| :: s.workers[w].Exited?)
    && (s.reader.Joined? ==> s.collector.Stopped? || s.collector.Finished?)
  }

  /** How many items have been drained without an error. */
  function DrainedCount(s: State): int {
    if s.collector.Waiting? || s.collector.Finished? then s.shared.nextOutputSeq else s.shared.nextOutputSeq - 1
  }

  ghost predicate CollectorInv(p: Pass, items: seq<Item>, s: State) {
    var done := DrainedCount(s);
    && 0 <= done <= s.shared.nextOutputSeq <= |items|
    && (s.collector.Finished? ==> AllDrained(s.shared))
    && (s.collector.Draining? ==> done < |items| && s.collector.item == items[done])
    && (s.writerThrew ==> s.collector.Failing? || s.collector.Stopped?)
    && (!s.writerThrew ==> DrainAll(p, items[..done]) == Running(s.sink))
    && (!s.writerThrew && (s.collector.Failing? || s.collector.Stopped?) ==> done < |items| && items[done].error.Some?)
  }

  ghost predicate Inv(p: Pass, s: State) {
    && FlowInv(s.shared, s.workers)
    && ContentsInv(p, AllItems(p), s.shared, s.workers)
    && ReaderInv(p, s) && ShutdownInv(p, s) && CollectorInv(p, AllItems(p), s)
  }

  lemma InitSatisfiesInv(p: Pass)
    ensures Inv(p, Init(p))
  {
    assert AllItems(p)[..0] == [];
  }

  // ---- every step keeps the invariant ----------------------------------------------------

  lemma SubmitJobKeepsFlow(c: Shared, workers: seq<WorkerPc>, m: Message)
    requires FlowInv(c, workers) && c.inFlight < c.maxInFlight
    ensures FlowInv(SubmitJob(c, m), workers)
  {
    var c' := SubmitJob(c, m);
    forall k
      ensures Queued(c', k) == (Queued(c, k) || k == c.totalSubmitted)
    {
      if Queued(c, k) {
        var j :| 0 <= j < |c.jobQueue| && c.jobQueue[j].seqNo == k;
        assert c'.jobQueue[j].seqNo == k;
      } else if k == c.totalSubmitted {
        assert c'.jobQueue[|c.jobQueue|].seqNo == k;
      }
    }
  }

  lemma SubmitItemKeepsFlow(c: Shared, workers: seq<WorkerPc>, item: Item)
    requires FlowInv(c, workers) && c.inFlight < c.maxInFlight
    ensures FlowInv(SubmitItem(c, item), workers)
  {
    var c' := SubmitItem(c, item);
    assert forall k :: Queued(c', k) == Queued(c, k);
  }

  lemma TakeJobKeepsFlow(c: Shared, workers: seq<WorkerPc>, w: nat)
    requires FlowInv(c, workers)
    requires c.jobQueue != [] && w < |workers| && workers[w].Idle?
    ensures FlowInv(TakeJob(c), workers[w := Busy(c.jobQueue[0])])
  {
    var c', workers' := TakeJob(c), workers[w := Busy(c.jobQueue[0])];
    var taken := c.jobQueue[0].seqNo;
    assert forall j | 0 <= j < |c'.jobQueue| :: c'.jobQueue[j] == c.jobQueue[j + 1];
    assert Queued(c, taken);
    forall k
      ensures Queued(c, k) == (Queued(c', k) || k == taken)
    {
      if Queued(c, k) {
        var j :| 0 <= j < |c.jobQueue| && c.jobQueue[j].seqNo == k;
        assert j == 0 || c'.jobQueue[j - 1].seqNo == k;
      }
    }
    assert !Queued(c', taken);
    InHandAfterUpdate(workers, w, Busy(c.jobQueue[0]));
    forall k | InRange(c', k)
      ensures k in c'.completed || InHand(workers', k) || Queued(c', k)
    {
      assert InRange(c, k);
      assert k in c.completed || InHand(workers, k) || Queued(c, k);
      assert InHand(workers', k) == (InHand(workers, k) || k == taken);
    }
  }

  /** Giving a worker without a job a new state adds what that state holds. */
  lemma InHandAfterUpdate(workers: seq<WorkerPc>, w: nat, pc: WorkerPc)
    requires w < |workers| && !workers[w].Busy?
    ensures forall k :: InHand(workers[w := pc], k) == (InHand(workers, k) || (pc.Busy? && pc.job.seqNo == k))
  {
    var workers' := workers[w := pc];
    forall k
      ensures InHand(workers', k) == (InHand(workers, k) || (pc.Busy? && pc.job.seqNo == k))
    {
      if InHand(workers, k) {
        var v :| 0 <= v < |workers| && workers[v].Busy? && workers[v].job.seqNo == k;
        assert workers'[v].job.seqNo == k;
      } else if pc.Busy? && pc.job.seqNo == k {
        assert workers'[w].job.seqNo == k;
      }
    }
  }

  lemma CompleteJobKeepsFlow(c: Shared, workers: seq<WorkerPc>, w: nat, item: Item)
    requires FlowInv(c, workers)
    requires w < |workers| && workers[w].Busy?
    ensures FlowInv(CompleteJob(c, workers[w].job.seqNo, item), workers[w := Idle])
  {
    var job, workers' := workers[w].job, workers[w := Idle];
    var c' := CompleteJob(c, job.seqNo, item);
    assert forall k :: Queued(c', k) == Queued(c, k);
    InHandAfterUpdate(workers', w, workers[w]);
    assert workers'[w := workers[w]] == workers;
  }

  lemma TakeCompletedKeepsFlow(c: Shared, workers: seq<WorkerPc>)
    requires FlowInv(c, workers) && c.nextOutputSeq in c.completed
    ensures FlowInv(TakeCompleted(c), workers)
  {
    var c' := TakeCompleted(c);
    forall k
      ensures Queued(c', k) == Queued(c, k)
      ensures InRange(c', k) == (InRange(c, k) && k != c.nextOutputSeq)
    {
    }
  }

  lemma ExitKeepsFlow(c: Shared, workers: seq<WorkerPc>, w: nat)
    requires FlowInv(c, workers)
    requires w < |workers| && workers[w].Idle?
    ensures FlowInv(c, workers[w := Exited])
  {
    InHandAfterUpdate(workers, w, Exited);
  }

  /** Steps that touch only the flags. */
  lemma FlagsKeepFlow(c: Shared, workers: seq<WorkerPc>, c': Shared)
    requires FlowInv(c, workers)
    requires c' == c.(stop := c'.stop, readerDone := c'.readerDone)
    ensures FlowInv(c', workers)
  {
    forall k
      ensures Queued(c', k) == Queued(c, k) && InRange(c', k) == InRange(c, k)
    {
    }
  }

  lemma StepKeepsFlow(p: Pass, s: State, step: Step)
    requires FlowInv(s.shared, s.workers) && Enabled(p, s, step)
    ensures FlowInv(Next(p, s, step).shared, Next(p, s, step).workers)
  {
    var c := s.shared;
    match step
    case ReaderSubmit =>
      if Selected(p, s.reader.message) {
        SubmitJobKeepsFlow(c, s.workers, s.reader.message);
      } else {
        SubmitItemKeepsFlow(c, s.workers, CopyItem(p, s.reader.message));
      }
    case WorkerTake(w) => TakeJobKeepsFlow(c, s.workers, w);
    case WorkerFinish(w) => CompleteJobKeepsFlow(c, s.workers, w, ItemOf(p, s.workers[w].job.message));
    case WorkerExit(w) => ExitKeepsFlow(c, s.workers, w);
    case CollectorTake => TakeCompletedKeepsFlow(c, s.workers);
    case _ => FlagsKeepFlow(c, s.workers, Next(p, s, step).shared);
  }

  lemma SubmitKeepsContents(p: Pass, s: State)
    requires FlowInv(s.shared, s.workers) && ContentsInv(p, AllItems(p), s.shared, s.workers)
    requires ReaderInv(p, s) && Enabled(p, s, ReaderSubmit)
    ensures ContentsInv(p, AllItems(p), Next(p, s, ReaderSubmit).shared, s.workers)
    ensures ReaderInv(p, Next(p, s, ReaderSubmit))
  {
    var m, items := s.reader.message, AllItems(p);
    ItemsUpToPrefix(p, s.cursor, |p.bag.messages|);
    assert items[s.shared.totalSubmitted] == ItemOf(p, m);
    if Selected(p, m) {
      assert JobMatches(p, items, Job(s.shared.totalSubmitted, m));
    }
  }

  lemma StepKeepsContents(p: Pass, items: seq<Item>, s: State, step: Step)
    requires HoldersInv(s.shared, s.workers) && ContentsInv(p, items, s.shared, s.workers)
    requires Enabled(p, s, step) && !step.ReaderSubmit?
    ensures ContentsInv(p, items, Next(p, s, step).shared, Next(p, s, step).workers)
  {
    match step
    case WorkerFinish(w) => assert JobMatches(p, items, s.workers[w].job);
    case WorkerTake(_) => assert JobMatches(p, items, s.shared.jobQueue[0]);
    case _ =>
  }

  lemma StepKeepsReader(p: Pass, s: State, step: Step)
    requires ReaderInv(p, s) && ShutdownInv(p, s) && Enabled(p, s, step) && !step.ReaderSubmit?
    ensures ReaderInv(p, Next(p, s, step))
  {
  }

  lemma StepKeepsShutdown(p: Pass, s: State, step: Step)
    requires ShutdownInv(p, s) && CountersInv(s.shared) && Enabled(p, s, step)
    ensures ShutdownInv(p, Next(p, s, step))
  {
  }

  lemma StepKeepsCollector(p: Pass, items: seq<Item>, s: State, step: Step)
    requires CollectorInv(p, items, s) && ContentsInv(p, items, s.shared, s.workers) && CountersInv(s.shared)
    requires s.collector.Finished? ==> s.shared.stop
    requires Enabled(p, s, step)
    requires step.ReaderSubmit? ==> s.shared.totalSubmitted < |items|
    ensures CollectorInv(p, items, Next(p, s, step))
  {
    if step.CollectorDrain? {
      DrainKeepsCollector(p, items, s);
    } else if step.CollectorTake? || step.CollectorThrow? || step.CollectorStop? || step.CollectorFinish? {
      CollectorMoveKeepsCollector(p, items, s, step);
    }
  }

  lemma DrainKeepsCollector(p: Pass, items: seq<Item>, s: State)
    requires CollectorInv(p, items, s) && Enabled(p, s, CollectorDrain)
    ensures CollectorInv(p, items, Next(p, s, CollectorDrain))
  {
    DrainAllSnoc(p, items, s.shared.nextOutputSeq - 1);
  }

  lemma CollectorMoveKeepsCollector(p: Pass, items: seq<Item>, s: State, step: Step)
    requires CollectorInv(p, items, s) && ContentsInv(p, items, s.shared, s.workers) && CountersInv(s.shared)
    requires Enabled(p, s, step)
    requires step.CollectorTake? || step.CollectorThrow? || step.CollectorStop? || step.CollectorFinish?
    ensures CollectorInv(p, items, Next(p, s, step))
  {
  }

  lemma StepKeepsInv(p: Pass, s: State, step: Step)
    requires Inv(p, s) && Enabled(p, s, step)
    ensures Inv(p, Next(p, s, step))
  {
    StepKeepsFlow(p, s, step);
    if step.ReaderSubmit? {
      SubmitKeepsContents(p, s);
    } else {
      StepKeepsContents(p, AllItems(p), s, step);
      StepKeepsReader(p, s, step);
    }
    StepKeepsShutdown(p, s, step);
    StepKeepsCollector(p, AllItems(p), s, step);
  }

  lemma {:induction false} RunKeepsInv(p: Pass, states: seq<State>, steps: seq<Step>, i: nat)
    requires IsRun(p, states, steps) && i < |states|
    ensures Inv(p, states[i])
  {
    if i == 0 {
      InitSatisfiesInv(p);
    } else {
      RunKeepsInv(p, states, steps, i - 1);
      StepKeepsInv(p, states[i - 1], steps[i - 1]);
    }
  }
}
