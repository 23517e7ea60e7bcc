/** What a rewrite must leave in the output bag, said of the messages and the transform alone: one write per
    message that is kept, up to the first the transform fails on; the tallies; the declarations; the
    warnings.  The synchronous pass is shown to leave just that. */
module TransformLaw {
  import opened Wrappers
  import opened TransformPass

  // ---- what happens to a message -----------------------------------------------------------------

  /** The transform makes `payload` of the message. */
  ghost predicate Converts(p: Pass, m: Message, payload: Payload) {
    m.topic in p.plan.outputByInput && p.transform(m.topic, m.payload) == Returned(payload, "", "")
  }

  ghost predicate Converted(p: Pass, m: Message) {
    exists payload :: Converts(p, m, payload)
  }

  /** The transform leaves the message as it is, and says why. */
  ghost predicate PassesThrough(p: Pass, m: Message, reason: string) {
    && m.topic in p.plan.outputByInput && reason != ""
    && exists payload :: p.transform(m.topic, m.payload) == Returned(payload, reason, "")
  }

  ghost predicate PassedThrough(p: Pass, m: Message) {
    exists reason :: PassesThrough(p, m, reason)
  }

  /** The transform fails on the message. */
  predicate Fails(p: Pass, m: Message) {
    && m.topic in p.plan.outputByInput
    && match p.transform(m.topic, m.payload)
       case Threw(_) => true
       case Returned(_, _, error) => error != ""
  }

  /** A message of a replaced topic that is not transformed is left out. */
  predicate LeftOut(p: Pass, m: Message) {
    m.topic in p.plan.suppress && m.topic !in p.plan.outputByInput
  }

  /** The first `k` messages are dealt with, and no more. */
  predicate EndsAt(p: Pass, k: nat) {
    && k <= |p.bag.messages|
    && (forall i | 0 <= i < k :: !Fails(p, p.bag.messages[i]))
    && (k < |p.bag.messages| ==> Fails(p, p.bag.messages[k]))
  }

  // ---- the law --------------------------------------------------------------------------------------

  /** A converted message is written with its new payload under its output's name and type, any other as it
      came; both keep the stamp. */
  ghost predicate WrittenAs(p: Pass, m: Message, w: WriterEvent) {
    && (forall payload | Converts(p, m, payload) ::
          w == Wrote(p.plan.outputByInput[m.topic], m.stamp, payload, p.outputKind))
    && (!Converted(p, m) ==> w == Wrote(m.topic, m.stamp, m.payload, KindOf(p.bagTopics, m.topic)))
  }

  function KeptUpTo(p: Pass, k: nat): seq<Message>
    requires k <= |p.bag.messages|
  {
    if k == 0 then []
    else KeptUpTo(p, k - 1) + if LeftOut(p, p.bag.messages[k - 1]) then [] else [p.bag.messages[k - 1]]
  }

  function WritesIn(log: seq<WriterEvent>): seq<WriterEvent> {
    if log == [] then []
    else WritesIn(log[..|log| - 1]) + if log[|log| - 1].Wrote? then [log[|log| - 1]] else []
  }

  /** One write per message kept, in bag order. */
  ghost predicate WritesMeet(p: Pass, k: nat, log: seq<WriterEvent>)
    requires k <= |p.bag.messages|
  {
    var kept, writes := KeptUpTo(p, k), WritesIn(log);
    |writes| == |kept| && forall i | 0 <= i < |kept| :: WrittenAs(p, kept[i], writes[i])
  }

  /** The converted and the passed-through messages of a topic. */
  ghost function ConvertedOf(p: Pass, topic: Topic, k: nat): seq<Message>
    requires k <= |p.bag.messages|
  {
    if k == 0 then []
    else
      var m := p.bag.messages[k - 1];
      ConvertedOf(p, topic, k - 1) + if m.topic == topic && Converted(p, m) then [m] else []
  }

  ghost function PassedThroughOf(p: Pass, topic: Topic, k: nat): seq<Message>
    requires k <= |p.bag.messages|
  {
    if k == 0 then []
    else
      var m := p.bag.messages[k - 1];
      PassedThroughOf(p, topic, k - 1) + if m.topic == topic && PassedThrough(p, m) then [m] else []
  }

  function BytesIn(messages: seq<Message>): nat {
    if messages == [] then 0 else BytesIn(messages[..|messages| - 1]) + |messages[|messages| - 1].payload|
  }

  function BytesOut(p: Pass, messages: seq<Message>): nat {
    if messages == [] then 0
    else
      var m := messages[|messages| - 1];
      BytesOut(p, messages[..|messages| - 1]) +
      match p.transform(m.topic, m.payload)
      case Returned(payload, _, _) => |payload|
      case Threw(_) => 0
  }

  /** A topic's tallies are those of its messages; a topic without any is not tallied. */
  ghost predicate TallyMeets(p: Pass, k: nat, stats: map<Topic, TopicStats>, topic: Topic)
    requires k <= |p.bag.messages|
  {
    TallyFits(p, ConvertedOf(p, topic, k), PassedThroughOf(p, topic, k), stats, topic)
  }

  predicate TallyFits(p: Pass, converted: seq<Message>, passed: seq<Message>, stats: map<Topic, TopicStats>,
                      topic: Topic) {
    && (topic in stats <==> converted != [] || passed != [])
    && (topic in stats ==>
          stats[topic] == TopicStats(|converted|, BytesIn(converted), BytesOut(p, converted), |passed|))
  }

  /** Declared are the topics that stay, the outputs, and the topics of messages passed through. */
  ghost predicate DeclarationsMeet(p: Pass, k: nat, log: seq<WriterEvent>)
    requires k <= |p.bag.messages|
  {
    forall info :: Declared(info) in log <==>
                     || (info in p.bagTopics && info.name !in p.plan.suppress)
                     || info in p.plan.declareOutputs
                     || DeclaredOnTheWay(p, k, info)
  }

  ghost predicate DeclaredOnTheWay(p: Pass, k: nat, info: TopicInfo)
    requires k <= |p.bag.messages|
  {
    exists i :: 0 <= i < k && PassedThrough(p, p.bag.messages[i])
                && FindTopic(p.bagTopics, p.bag.messages[i].topic) == Some(info)
  }

  /** Warned of is the first message passed through of every topic, with its reason. */
  ghost predicate WarningsMeet(p: Pass, k: nat, warnings: seq<(Topic, string)>)
    requires k <= |p.bag.messages|
  {
    && (forall i, j | 0 <= i < j < |warnings| :: warnings[i].0 != warnings[j].0)
    && forall w :: w in warnings <==> exists i :: 0 <= i < k && FirstPassedThrough(p, i, w)
  }

  ghost predicate FirstPassedThrough(p: Pass, i: nat, w: (Topic, string))
    requires i < |p.bag.messages|
  {
    && p.bag.messages[i].topic == w.0 && PassesThrough(p, p.bag.messages[i], w.1)
    && PassedThroughOf(p, w.0, i) == []
  }

  /** What a pass that deals with `k` messages must leave; the tallies it must leave for the topics that count. */
  ghost predicate Leaves(p: Pass, k: nat, sink: Sink, tallied: Topic -> bool) {
    && k <= |p.bag.messages|
    && WritesMeet(p, k, sink.log)
    && (forall topic | tallied(topic) :: TallyMeets(p, k, sink.stats, topic))
    && DeclarationsMeet(p, k, sink.log)
    && WarningsMeet(p, k, sink.warnings)
  }

  const EVERY_TOPIC: Topic -> bool := topic => true
  const NAMED_TOPICS: Topic -> bool := topic => topic != ""

  /** The pass as a whole: everything up to the first failure, and status 0 only without one. */
  ghost predicate PassMeets(p: Pass, sink: Sink, status: int, tallied: Topic -> bool) {
    exists k :: EndsAt(p, k) && Leaves(p, k, sink, tallied) && status == StatusOf(p, k)
  }

  function StatusOf(p: Pass, k: nat): int {
    if k == |p.bag.messages| && p.bag.ending.CleanEnd? && p.closeOk then 0 else 1
  }

  // ---- the synchronous pass meets it -------------------------------------------------------------------

  /** The topics declared on the way and warned of so far. */
  ghost predicate Remembers(p: Pass, k: nat, sink: Sink)
    requires k <= |p.bag.messages|
  {
    && (forall topic :: topic in sink.warned <==> PassedThroughOf(p, topic, k) != [])
    && forall topic :: topic in sink.declared <==> PassedThroughOf(p, topic, k) != []
  }

  ghost predicate PassedThroughAt(p: Pass, topic: Topic, i: nat)
    requires i < |p.bag.messages|
  {
    p.bag.messages[i].topic == topic && PassedThrough(p, p.bag.messages[i])
  }

  lemma {:induction false} PassedThroughBefore(p: Pass, topic: Topic, k: nat)
    requires k <= |p.bag.messages|
    ensures PassedThroughOf(p, topic, k) != [] <==> exists i :: 0 <= i < k && PassedThroughAt(p, topic, i)
  {
    if k > 0 {
      PassedThroughBefore(p, topic, k - 1);
      var before, m := PassedThroughOf(p, topic, k - 1), p.bag.messages[k - 1];
      if PassedThroughAt(p, topic, k - 1) {
        assert PassedThroughOf(p, topic, k) == before + [m];
      } else {
        assert PassedThroughOf(p, topic, k) == before + [] == before;
      }
    }
  }

  lemma WritesSnoc(log: seq<WriterEvent>, e: WriterEvent)
    ensures WritesIn(log + [e]) == WritesIn(log) + if e.Wrote? then [e] else []
  {
    assert (log + [e])[..|log|] == log;
  }

  lemma {:induction false} NoWrites(log: seq<WriterEvent>)
    requires forall e | e in log :: e.Declared?
    ensures WritesIn(log) == []
  {
    if log != [] {
      assert log[|log| - 1] in log;
      NoWrites(log[..|log| - 1]);
    }
  }

  lemma {:induction false} CopiedTopicsAre(topics: seq<TopicInfo>, suppress: set<Topic>)
    ensures forall info :: info in CopiedTopics(topics, suppress) <==> info in topics && info.name !in suppress
  {
    if topics != [] {
      var front, last := topics[..|topics| - 1], topics[|topics| - 1];
      CopiedTopicsAre(front, suppress);
      assert topics == front + [last];
    }
  }

  lemma DeclarationsHold(infos: seq<TopicInfo>)
    ensures forall info :: Declared(info) in Declarations(infos) <==> info in infos
  {
    forall info | info in infos
      ensures Declared(info) in Declarations(infos)
    {
      var i :| 0 <= i < |infos| && infos[i] == info;
      assert Declarations(infos)[i] == Declared(info);
    }
  }

  lemma BeginningMeets(p: Pass)
    ensures Leaves(p, 0, InitialSink(p), EVERY_TOPIC) && Remembers(p, 0, InitialSink(p))
  {
    var copied, outputs := CopiedTopics(p.bagTopics, p.plan.suppress), p.plan.declareOutputs;
    NoWrites(InitialSink(p).log);
    CopiedTopicsAre(p.bagTopics, p.plan.suppress);
    DeclarationsHold(copied);
    DeclarationsHold(outputs);
  }

  function After(p: Pass, sink: Sink, m: Message): Sink { SyncStep(p, Running(sink), m).sink }

  /** A message that is kept adds its write, after a declaration at most. */
  lemma LogAfter(p: Pass, sink: Sink, m: Message) returns (declaration: seq<WriterEvent>, w: WriterEvent)
    requires !Fails(p, m) && !LeftOut(p, m)
    ensures After(p, sink, m).log == sink.log + declaration + [w] && w.Wrote? && WrittenAs(p, m, w)
    ensures declaration == [] || (|declaration| == 1 && declaration[0].Declared?)
  {
    declaration := [];
    assert sink.log + [] == sink.log;
    if m.topic in p.plan.outputByInput {
      ConvertedExactly(p, m);
      var item := ItemOf(p, m);
      w := Wrote(item.topic, item.stamp, item.payload, item.kind);
      if item.passthroughReason != "" && item.topic !in sink.declared && FindTopic(p.bagTopics, item.topic).Some? {
        declaration := [Declared(FindTopic(p.bagTopics, item.topic).value)];
      }
    } else {
      w := Wrote(m.topic, m.stamp, m.payload, KindOf(p.bagTopics, m.topic));
    }
  }

  /** One message more. */
  lemma WritesOneMore(p: Pass, k: nat, sink: Sink)
    requires k < |p.bag.messages| && WritesMeet(p, k, sink.log) && !Fails(p, p.bag.messages[k])
    ensures WritesMeet(p, k + 1, After(p, sink, p.bag.messages[k]).log)
  {
    var m := p.bag.messages[k];
    if LeftOut(p, m) {
      assert KeptUpTo(p, k) + [] == KeptUpTo(p, k);
    } else {
      var declaration, w := LogAfter(p, sink, m);
      WriteAdds(sink.log, declaration, w);
    }
  }

  lemma WriteAdds(log: seq<WriterEvent>, declaration: seq<WriterEvent>, w: WriterEvent)
    requires w.Wrote? && (declaration == [] || (|declaration| == 1 && declaration[0].Declared?))
    ensures WritesIn(log + declaration + [w]) == WritesIn(log) + [w]
  {
    WritesSnoc(log + declaration, w);
    if declaration == [] {
      assert log + declaration == log;
    } else {
      WritesSnoc(log, declaration[0]);
      assert log + declaration == log + [declaration[0]];
    }
  }

  lemma ConvertedExactly(p: Pass, m: Message)
    requires m.topic in p.plan.outputByInput && !Fails(p, m)
    ensures p.transform(m.topic, m.payload).Returned?
    ensures var r := p.transform(m.topic, m.payload);
            && (Converted(p, m) <==> r.passthroughReason == "")
            && (PassedThrough(p, m) <==> r.passthroughReason != "")
            && (forall reason :: PassesThrough(p, m, reason) <==> reason == r.passthroughReason != "")
  {
    var r := p.transform(m.topic, m.payload);
    assert r == Returned(r.payload, r.passthroughReason, "");
    if r.passthroughReason == "" {
      assert Converts(p, m, r.payload);
    } else {
      assert PassesThrough(p, m, r.passthroughReason);
    }
  }

  /** What one message does to the tallies. */
  ghost predicate StatsMoved(p: Pass, before: map<Topic, TopicStats>, m: Message, after: map<Topic, TopicStats>) {
    var tally := StatsOf(before, m.topic);
    if Converted(p, m) then
      && p.transform(m.topic, m.payload).Returned?
      && after == before[m.topic := TopicStats(tally.messages + 1, tally.inBytes + |m.payload|,
                                               tally.outBytes + |p.transform(m.topic, m.payload).payload|,
                                               tally.passthrough)]
    else if PassedThrough(p, m) then after == before[m.topic := tally.(passthrough := tally.passthrough + 1)]
    else after == before
  }

  lemma StatsAfter(p: Pass, sink: Sink, m: Message)
    requires !Fails(p, m)
    ensures StatsMoved(p, sink.stats, m, After(p, sink, m).stats)
  {
    if m.topic in p.plan.outputByInput {
      ConvertedExactly(p, m);
    }
  }

  lemma TallyOneMore(p: Pass, k: nat, sink: Sink, topic: Topic)
    requires k < |p.bag.messages| && TallyMeets(p, k, sink.stats, topic) && !Fails(p, p.bag.messages[k])
    ensures TallyMeets(p, k + 1, After(p, sink, p.bag.messages[k]).stats, topic)
  {
    var m := p.bag.messages[k];
    var converted, passed := ConvertedOf(p, topic, k), PassedThroughOf(p, topic, k);
    StatsAfter(p, sink, m);
    TopicsOneMore(p, k, topic);
    TallyAfter(p, converted, passed, sink.stats, topic, m, ConvertedOf(p, topic, k + 1),
               PassedThroughOf(p, topic, k + 1), After(p, sink, m).stats);
  }

  lemma TallyAfter(p: Pass, converted: seq<Message>, passed: seq<Message>, stats: map<Topic, TopicStats>,
                   topic: Topic, m: Message, converted': seq<Message>, passed': seq<Message>,
                   stats': map<Topic, TopicStats>)
    requires TallyFits(p, converted, passed, stats, topic) && StatsMoved(p, stats, m, stats')
    requires m.topic == topic && Converted(p, m) ==> !PassedThrough(p, m)
    requires converted' == if m.topic == topic && Converted(p, m) then converted + [m] else converted
    requires passed' == if m.topic == topic && PassedThrough(p, m) then passed + [m] else passed
    ensures TallyFits(p, converted', passed', stats', topic)
  {
    if m.topic == topic && Converted(p, m) {
      ConvertedAdds(p, converted, passed, stats, topic, m);
    } else if m.topic == topic && PassedThrough(p, m) {
      PassedAdds(p, converted, passed, stats, topic, m);
    }
  }

  lemma ConvertedAdds(p: Pass, converted: seq<Message>, passed: seq<Message>, stats: map<Topic, TopicStats>,
                      topic: Topic, m: Message)
    requires TallyFits(p, converted, passed, stats, topic) && p.transform(m.topic, m.payload).Returned?
    ensures var tally := StatsOf(stats, topic);
            TallyFits(p, converted + [m], passed,
                      stats[topic := TopicStats(tally.messages + 1, tally.inBytes + |m.payload|,
                                                tally.outBytes + |p.transform(m.topic, m.payload).payload|,
                                                tally.passthrough)], topic)
  {
    BytesSnoc(p, converted, m);
  }

  lemma PassedAdds(p: Pass, converted: seq<Message>, passed: seq<Message>, stats: map<Topic, TopicStats>,
                   topic: Topic, m: Message)
    requires TallyFits(p, converted, passed, stats, topic)
    ensures var tally := StatsOf(stats, topic);
            TallyFits(p, converted, passed + [m], stats[topic := tally.(passthrough := tally.passthrough + 1)], topic)
  {
  }

  lemma TopicsOneMore(p: Pass, k: nat, topic: Topic)
    requires k < |p.bag.messages| && !Fails(p, p.bag.messages[k])
    ensures var m := p.bag.messages[k];
            && (m.topic == topic && Converted(p, m) ==> !PassedThrough(p, m))
            && ConvertedOf(p, topic, k + 1) ==
               (if m.topic == topic && Converted(p, m) then ConvertedOf(p, topic, k) + [m]
                else ConvertedOf(p, topic, k))
            && PassedThroughOf(p, topic, k + 1) ==
               if m.topic == topic && PassedThrough(p, m) then PassedThroughOf(p, topic, k) + [m]
               else PassedThroughOf(p, topic, k)
  {
    var m := p.bag.messages[k];
    if m.topic in p.plan.outputByInput {
      ConvertedExactly(p, m);
    }
  }

  lemma BytesSnoc(p: Pass, messages: seq<Message>, m: Message)
    ensures BytesIn(messages + [m]) == BytesIn(messages) + |m.payload|
    ensures BytesOut(p, messages + [m]) == BytesOut(p, messages) +
            match p.transform(m.topic, m.payload)
            case Returned(payload, _, _) => |payload|
            case Threw(_) => 0
  {
    assert (messages + [m])[..|messages|] == messages;
  }

  lemma RemembersOneMore(p: Pass, k: nat, sink: Sink)
    requires k < |p.bag.messages| && Remembers(p, k, sink) && !Fails(p, p.bag.messages[k])
    ensures Remembers(p, k + 1, After(p, sink, p.bag.messages[k]))
  {
    var m := p.bag.messages[k];
    if m.topic in p.plan.outputByInput {
      ConvertedExactly(p, m);
    }
  }

  lemma DeclarationsOneMore(p: Pass, k: nat, sink: Sink)
    requires k < |p.bag.messages| && DeclarationsMeet(p, k, sink.log) && Remembers(p, k, sink)
    requires !Fails(p, p.bag.messages[k])
    ensures DeclarationsMeet(p, k + 1, After(p, sink, p.bag.messages[k]).log)
  {
    var m := p.bag.messages[k];
    PassedThroughBefore(p, m.topic, k);
    if m.topic in p.plan.outputByInput {
      ConvertedExactly(p, m);
    }
    forall info
      ensures DeclaredOnTheWay(p, k + 1, info) <==>
              DeclaredOnTheWay(p, k, info) || (PassedThrough(p, m) && FindTopic(p.bagTopics, m.topic) == Some(info))
    {
    }
  }

  lemma WarningsOneMore(p: Pass, k: nat, sink: Sink)
    requires k < |p.bag.messages| && WarningsMeet(p, k, sink.warnings) && Remembers(p, k, sink)
    requires !Fails(p, p.bag.messages[k])
    ensures WarningsMeet(p, k + 1, After(p, sink, p.bag.messages[k]).warnings)
  {
    var m, after := p.bag.messages[k], After(p, sink, p.bag.messages[k]).warnings;
    if m.topic in p.plan.outputByInput {
      ConvertedExactly(p, m);
    }
    forall w
      ensures w in after <==> w in sink.warnings || FirstPassedThrough(p, k, w)
    {
    }
    NotWarnedYet(p, k, sink, m);
  }

  /** A topic not remembered is in no warning. */
  lemma NotWarnedYet(p: Pass, k: nat, sink: Sink, m: Message)
    requires k < |p.bag.messages| && WarningsMeet(p, k, sink.warnings) && Remembers(p, k, sink)
    ensures m.topic !in sink.warned ==> forall i | 0 <= i < |sink.warnings| :: sink.warnings[i].0 != m.topic
  {
    PassedThroughBefore(p, m.topic, k);
    forall i | 0 <= i < |sink.warnings| && m.topic !in sink.warned
      ensures sink.warnings[i].0 != m.topic
    {
      assert sink.warnings[i] in sink.warnings;
      var j :| 0 <= j < k && FirstPassedThrough(p, j, sink.warnings[i]);
      assert PassedThroughAt(p, sink.warnings[i].0, j);
    }
  }

  /** A running pass has left what `k` messages ask, and remembers it. */
  ghost predicate RunsOn(p: Pass, k: nat, outcome: Outcome)
    requires k <= |p.bag.messages|
  {
    outcome.Running? && Remembers(p, k, outcome.sink) && Leaves(p, k, outcome.sink, EVERY_TOPIC)
  }

  lemma RunsOneMore(p: Pass, k: nat, before: Outcome, after: Outcome)
    requires 1 <= k <= |p.bag.messages| && RunsOn(p, k - 1, before) && !Fails(p, p.bag.messages[k - 1])
    requires after == SyncStep(p, before, p.bag.messages[k - 1])
    ensures RunsOn(p, k, after)
  {
    var sink, m := before.sink, p.bag.messages[k - 1];
    StaysRunning(p, sink, m);
    WritesOneMore(p, k - 1, sink);
    RemembersOneMore(p, k - 1, sink);
    DeclarationsOneMore(p, k - 1, sink);
    WarningsOneMore(p, k - 1, sink);
    forall topic: Topic
      ensures TallyMeets(p, k, after.sink.stats, topic)
    {
      TallyOneMore(p, k - 1, sink, topic);
    }
  }

  lemma StaysRunning(p: Pass, sink: Sink, m: Message)
    requires !Fails(p, m)
    ensures SyncStep(p, Running(sink), m) == Running(After(p, sink, m))
  {
    if m.topic in p.plan.outputByInput {
      ConvertedExactly(p, m);
    }
  }

  lemma {:induction false} RunningMeets(p: Pass, k: nat)
    requires k <= |p.bag.messages| && forall i | 0 <= i < k :: !Fails(p, p.bag.messages[i])
    ensures RunsOn(p, k, SyncAfter(p, k))
  {
    if k == 0 {
      BeginningMeets(p);
    } else {
      RunningMeets(p, k - 1);
      RunsOneMore(p, k, SyncAfter(p, k - 1), SyncAfter(p, k));
    }
  }

  lemma {:induction false} SomeEnd(p: Pass, n: nat) returns (k: nat)
    requires n <= |p.bag.messages| && forall i | 0 <= i < n :: !Fails(p, p.bag.messages[i])
    ensures EndsAt(p, k)
    decreases |p.bag.messages| - n
  {
    if n == |p.bag.messages| || Fails(p, p.bag.messages[n]) {
      k := n;
    } else {
      k := SomeEnd(p, n + 1);
    }
  }

  /** The synchronous pass leaves what the law asks. */
  lemma SyncPassMeets(p: Pass)
    ensures PassMeets(p, SyncSink(p), SyncStatus(p), EVERY_TOPIC)
  {
    var k := SomeEnd(p, 0);
    RunningMeets(p, k);
    EndingAt(p, k);
    MeetsAt(p, k, SyncSink(p), SyncStatus(p));
  }

  /** Nothing happens after the first failure. */
  lemma EndingAt(p: Pass, k: nat)
    requires EndsAt(p, k) && SyncAfter(p, k).Running?
    ensures SyncSink(p) == SyncAfter(p, k).sink && SyncStatus(p) == StatusOf(p, k)
  {
    if k < |p.bag.messages| {
      SyncAbortIsFinal(p, k + 1, |p.bag.messages|);
    }
  }

  lemma MeetsAt(p: Pass, k: nat, sink: Sink, status: int)
    requires EndsAt(p, k) && Leaves(p, k, sink, EVERY_TOPIC) && status == StatusOf(p, k)
    ensures PassMeets(p, sink, status, EVERY_TOPIC)
  {
  }
}
