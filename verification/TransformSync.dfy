/** The synchronous pass, on objects. */
module TransformSync {
  import opened TransformPass
  import opened TransformLaw

  /** Transform and drain message after message, up to the first failure. */
  method DrainBag(p: Pass, drainer: OutputDrainer) returns (ok: bool)
    requires drainer.topics == p.bagTopics && drainer.View() == InitialSink(p)
    modifies drainer, drainer.writer
    ensures drainer.View() == SyncSink(p) && ok == SyncAfter(p, |p.bag.messages|).Running?
  {
    for i := 0 to |p.bag.messages|
      invariant SyncAfter(p, i) == Running(drainer.View())
    {
      var m := p.bag.messages[i];
      if m.topic !in p.plan.outputByInput {
        if m.topic !in p.plan.suppress {
          drainer.writer.Write(m.topic, m.stamp, m.payload, KindOf(p.bagTopics, m.topic));
        }
      } else {
        var item := ProcessTransformJob(p, m, p.plan.outputByInput[m.topic]);
        ok := drainer.Drain(item);
        if !ok {
          SyncAbortIsFinal(p, i + 1, |p.bag.messages|);
          return;
        }
      }
    }
    ok := true;
  }

  /** The synchronous pass: transform each message inline and drain it at once.  It leaves what folding the
      bag message by message gives, and what the law asks. */
  method RunSyncTransformPass(p: Pass, writer: BagWriter) returns (status: int, drainer: OutputDrainer)
    requires writer.log == []
    modifies writer
    ensures drainer.writer == writer && drainer.View() == SyncSink(p)
    ensures status == SyncStatus(p)
    ensures PassMeets(p, drainer.View(), status, EVERY_TOPIC)
  {
    SyncPassMeets(p);
    DeclareAll(p, writer);
    drainer := new OutputDrainer(writer, p.bagTopics);
    var ok := DrainBag(p, drainer);
    status := if ok && p.bag.ending.CleanEnd? && p.closeOk then 0 else 1;
  }
}
