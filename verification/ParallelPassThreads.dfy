/** The parallel pass over the objects themselves: the monitor's critical sections as methods, and
    the threads executed one critical section at a time in an arbitrary order. */
module ParallelPassThreads {
  import opened Wrappers
  import opened TransformPass
  import opened TransformLaw
  import opened ParallelPass
  import opened ParallelPassResults

  /** State shared by the reader, the workers and the collector.  Each method is the body of one
      critical section; where the program first waits on the condition variable, the wait's
      predicate is the method's precondition. */
  class ParallelContext {
    var jobQueue: seq<Job>
    var completed: map<nat, Item>
    var nextOutputSeq: nat
    var totalSubmitted: nat
    var inFlight: int
    const maxInFlight: int
    var stop: bool
    var readerDone: bool

    ghost function View(): Shared
      reads this
    {
      Shared(jobQueue, completed, nextOutputSeq, totalSubmitted, inFlight, maxInFlight, stop, readerDone)
    }

    constructor (numThreads: nat)
      ensures View() == NewShared(numThreads)
    {
      jobQueue, completed := [], map[];
      nextOutputSeq, totalSubmitted, inFlight := 0, 0, 0;
      maxInFlight := numThreads * 3;
      stop, readerDone := false, false;
    }

    /** The reader hands a selected message to the workers, or learns that it must stop. */
    method SubmitJob(m: Message) returns (submitted: bool)
      requires ReaderMayProceed(View())
      modifies this
      ensures submitted == !old(stop)
      ensures View() == if submitted then ParallelPass.SubmitJob(old(View()), m) else old(View())
    {
      if stop {
        return false;
      }
      jobQueue := jobQueue + [Job(totalSubmitted, m)];
      totalSubmitted := totalSubmitted + 1;
      inFlight := inFlight + 1;
      return true;
    }

    /** The reader puts a copied message straight into the completion map. */
    method SubmitItem(item: Item) returns (submitted: bool)
      requires ReaderMayProceed(View())
      modifies this
      ensures submitted == !old(stop)
      ensures View() == if submitted then ParallelPass.SubmitItem(old(View()), item) else old(View())
    {
      if stop {
        return false;
      }
      completed := completed[totalSubmitted := item];
      totalSubmitted := totalSubmitted + 1;
      inFlight := inFlight + 1;
      return true;
    }

    /** A worker takes the oldest job, or learns that it may leave. */
    method TakeJob() returns (job: Option<Job>)
      requires stop || jobQueue != []
      modifies this
      ensures job == if old(jobQueue) == [] then None else Some(old(jobQueue)[0])
      ensures View() == if old(jobQueue) == [] then old(View()) else ParallelPass.TakeJob(old(View()))
    {
      if stop && jobQueue == [] {
        return None;
      }
      job := Some(jobQueue[0]);
      jobQueue := jobQueue[1..];
    }

    /** A worker deposits a finished item. */
    method CompleteJob(seqNo: nat, item: Item)
      modifies this
      ensures View() == ParallelPass.CompleteJob(old(View()), seqNo, item)
    {
      if seqNo !in completed {
        completed := completed[seqNo := item];
      }
    }

    /** The collector takes the next item in order, or learns that everything was drained. */
    method TakeCompleted() returns (item: Option<Item>)
      requires nextOutputSeq in completed || AllDrained(View())
      modifies this
      ensures item == if AllDrained(old(View())) then None else Some(old(completed[nextOutputSeq]))
      ensures View() == if item.None? then old(View()) else ParallelPass.TakeCompleted(old(View()))
    {
      if readerDone && nextOutputSeq == totalSubmitted {
        return None;
      }
      item := Some(completed[nextOutputSeq]);
      completed := completed - {nextOutputSeq};
      nextOutputSeq := nextOutputSeq + 1;
      inFlight := inFlight - 1;
    }

    method RequestStop()
      modifies this
      ensures View() == old(View()).(stop := true)
    {
      stop := true;
    }

    method FinishReading()
      modifies this
      ensures View() == old(View()).(readerDone := true, stop := true)
    {
      readerDone := true;
      stop := true;
    }
  }

  /** The threads of one pass with the objects they share.  A turn is one critical section, with the
      thread's local work around it; it returns the step of the transition system it took. */
  class Threads {
    const pass: Pass
    const ctx: ParallelContext
    const drainer: OutputDrainer
    var cursor: nat
    var reader: ReaderPc
    var workers: seq<WorkerPc>
    var collector: CollectorPc
    var writerThrew: bool

    ghost function View(): State
      reads this, ctx, drainer, drainer.writer
    {
      State(ctx.View(), cursor, reader, workers, collector, drainer.View(), writerThrew)
    }

    /** What a single turn relies on; it follows from the invariant of the transition system. */
    ghost predicate Ready()
      reads this, ctx, drainer, drainer.writer
    {
      && drainer.topics == pass.bagTopics
      && cursor <= |pass.bag.messages|
      && forall w | 0 <= w < |workers| && workers[w].Busy? :: Selected(pass, workers[w].job.message)
    }

    ghost predicate Valid()
      reads this, ctx, drainer, drainer.writer
    {
      Ready() && Inv(pass, View())
    }

    constructor (pass: Pass, drainer: OutputDrainer)
      requires drainer.topics == pass.bagTopics && drainer.View() == InitialSink(pass)
      ensures this.pass == pass && this.drainer == drainer
      ensures Valid() && fresh(ctx)
      ensures View() == Init(pass)
    {
      this.pass, this.drainer := pass, drainer;
      ctx := new ParallelContext(pass.numThreads);
      cursor, reader, collector, writerThrew := 0, Reading, Waiting, false;
      workers := seq(pass.numThreads, _ => Idle);
      new;
      InitSatisfiesInv(pass);
    }

    /** Whether the turn from `before` to now was `step`. */
    twostate predicate Took(step: Step)
      reads this, ctx, drainer, drainer.writer
    {
      Enabled(pass, old(View()), step) && View() == Next(pass, old(View()), step)
    }

    predicate ReaderCanMove()
      reads this, ctx
    {
      match reader
      case Reading => true
      case Submitting(_) => ctx.inFlight < ctx.maxInFlight || ctx.stop
      case Leaving(_) => true
      case JoiningWorkers(_) => forall w | 0 <= w < |workers| :: workers[w].Exited?
      case JoiningCollector(_) => collector.Stopped? || collector.Finished?
      case Joined(_) => false
    }

    method ReaderTurn() returns (ghost step: Step)
      requires Ready() && ReaderCanMove()
      modifies this, ctx
      ensures Took(step)
    {
      var p := pass;
      match reader
      case Reading =>
        step := ReadNext;
        if cursor == |p.bag.messages| {
          reader := Leaving(p.bag.ending.ReadError?);
        } else {
          var m := p.bag.messages[cursor];
          cursor := cursor + 1;
          if m.topic in p.plan.outputByInput || m.topic !in p.plan.suppress {
            reader := Submitting(m);
          }
        }
      case Submitting(m) =>
        var submitted;
        if m.topic in p.plan.outputByInput {
          submitted := ctx.SubmitJob(m);
        } else {
          submitted := ctx.SubmitItem(CopyItem(p, m));
        }
        step := if submitted then ReaderSubmit else ReaderBreak;
        reader := if submitted then Reading else Leaving(false);
      case Leaving(readFailed) =>
        step := ReaderDone;
        ctx.FinishReading();
        reader := JoiningWorkers(readFailed);
      case JoiningWorkers(readFailed) =>
        step := Step.JoinWorkers;
        reader := JoiningCollector(readFailed);
      case JoiningCollector(readFailed) =>
        step := Step.JoinCollector;
        reader := ReaderPc.Joined(ExitStatus(p, readFailed, collector));
    }

    predicate WorkerCanMove(w: nat)
      reads this, ctx
    {
      w < |workers| && (workers[w].Busy? || (workers[w].Idle? && (ctx.stop || ctx.jobQueue != [])))
    }

    method WorkerTurn(w: nat) returns (ghost step: Step)
      requires Ready() && WorkerCanMove(w)
      modifies this, ctx
      ensures Took(step)
    {
      if workers[w].Busy? {
        step := WorkerFinish(w);
        var job := workers[w].job;
        var item := ProcessTransformJob(pass, job.message, pass.plan.outputByInput[job.message.topic]);
        ctx.CompleteJob(job.seqNo, item);
        workers := workers[w := Idle];
      } else {
        var job := ctx.TakeJob();
        step := if job.Some? then WorkerTake(w) else WorkerExit(w);
        workers := workers[w := if job.Some? then Busy(job.value) else Exited];
      }
    }

    predicate CollectorCanMove()
      reads this, ctx
    {
      match collector
      case Waiting =>
        ctx.nextOutputSeq in ctx.completed || (ctx.readerDone && ctx.nextOutputSeq == ctx.totalSubmitted)
      case Draining(_) => true
      case Failing => true
      case Stopped => false
      case Finished => false
    }

    /** `writerThrows` says whether the writer, if used, raises an exception. */
    method CollectorTurn(writerThrows: bool) returns (ghost step: Step)
      requires Ready() && CollectorCanMove()
      modifies this, ctx, drainer, drainer.writer
      ensures Took(step)
    {
      match collector
      case Waiting =>
        var item := ctx.TakeCompleted();
        step := if item.Some? then CollectorTake else CollectorFinish;
        collector := if item.Some? then Draining(item.value) else Finished;
      case Draining(item) =>
        step := DrainTurn(item, writerThrows);
      case Failing =>
        step := CollectorStop;
        ctx.RequestStop();
        collector := Stopped;
    }

    /** The collector's work outside the lock: drain the item it took. */
    method DrainTurn(item: Item, writerThrows: bool) returns (ghost step: Step)
      requires Ready() && collector == Draining(item)
      modifies this, drainer, drainer.writer
      ensures Took(step)
    {
      if writerThrows {
        step := CollectorThrow(drainer.View());
        collector, writerThrew := Failing, true;
      } else {
        step := CollectorDrain;
        var ok := drainer.Drain(item);
        collector := if ok then Waiting else Failing;
      }
    }

    predicate SomeoneMayMove()
      reads this, ctx
    {
      ReaderCanMove() || CollectorCanMove() || exists w :: 0 <= w < |workers| && WorkerCanMove(w)
    }

    /** Let one thread that can move take a turn: any of the three kinds, any worker. */
    method AnyTurn(writerThrows: bool) returns (ghost step: Step)
      requires Ready() && SomeoneMayMove()
      modifies this, ctx, drainer, drainer.writer
      ensures Took(step)
    {
      if
      case ReaderCanMove() => step := ReaderTurn();
      case CollectorCanMove() => step := CollectorTurn(writerThrows);
      case exists w :: 0 <= w < |workers| && WorkerCanMove(w) =>
        var w :| 0 <= w < |workers| && WorkerCanMove(w);
        step := WorkerTurn(w);
    }

    /** A turn keeps the objects valid and brings the end nearer. */
    twostate lemma TurnKeepsValid(step: Step)
      requires old(Valid()) && Took(step)
      ensures Valid() && Work(pass, View()) < old(Work(pass, View()))
    {
      StepKeepsInv(pass, old(View()), step);
      StepLowersWork(pass, old(View()), step);
    }

    /** Someone can always take a turn until the reader has joined everybody. */
    lemma SomeoneCanMove()
      requires Valid() && !reader.Joined? && pass.numThreads > 0
      ensures SomeoneMayMove()
    {
      var step := NeverStuck(pass, View());
      match step
      case WorkerTake(w) => assert WorkerCanMove(w);
      case WorkerFinish(w) => assert WorkerCanMove(w);
      case WorkerExit(w) => assert WorkerCanMove(w);
      case _ =>
    }
  }

  /** Run reader, workers and collector to the end, always letting any one of the threads that can
      move do so.  No interleaving gets stuck or runs for ever, and when the writer raised nothing
      the output bag, the warnings, the tallies and the exit status are the synchronous pass's. */
  method RunParallelTransformPass(p: Pass, writer: BagWriter, writerThrows: nat -> bool)
    returns (status: int, drainer: OutputDrainer, writerThrew: bool)
    requires writer.log == [] && p.numThreads >= 2
    modifies writer
    ensures drainer.writer == writer
    ensures !writerThrew ==> SameButCopyTally(drainer.View(), SyncSink(p)) && status == SyncStatus(p)
    ensures !writerThrew ==> PassMeets(p, drainer.View(), status, NAMED_TOPICS)
  {
    DeclareAll(p, writer);
    drainer := new OutputDrainer(writer, p.bagTopics);
    var threads := new Threads(p, drainer);
    var turn := 0;
    while !threads.reader.Joined?
      invariant fresh(threads) && fresh(threads.ctx) && fresh(drainer)
      invariant threads.pass == p && threads.drainer == drainer && drainer.writer == writer
      invariant threads.Valid()
      decreases Work(p, threads.View())
    {
      threads.SomeoneCanMove();
      label beforeTurn:
      ghost var step := threads.AnyTurn(writerThrows(turn));
      threads.TurnKeepsValid@beforeTurn(step);
      turn := turn + 1;
    }
    if !threads.writerThrew {
      FinalIsSync(p, threads.View());
      ParallelPassMeets(p, drainer.View(), threads.reader.status);
    }
    status, writerThrew := threads.reader.status, threads.writerThrew;
  }
}
