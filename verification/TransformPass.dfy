/** The message-transform rewrite pass shared by `pcd compress` and `pcd decompress`:
    the data that flows through it, the output drainer both passes use, and the
    synchronous pass.  The synchronous pass is the reference the parallel pass is
    compared with in module ParallelPass. */
module TransformPass {
  import opened Wrappers

  newtype byte = x: int | 0 <= x < 256
  type Topic = string
  type Payload = seq<byte>

  /** How a topic's messages are stored: serialization, QoS profiles, and the text and encoding of the
      message definition.  Only the planner decides any of it; the pass hands it on. */
  datatype Form = Form(serialization: string, qosProfiles: string, schemaText: string, schemaEncoding: string)

  /** A topic's description; the pass relies on its name and message type. */
  datatype TopicInfo = TopicInfo(name: Topic, kind: string, form: Form)

  datatype Message = Message(topic: Topic, stamp: int, payload: Payload)

  /** A bag reader hands out its messages one by one and then either reports the end or throws. */
  datatype BagEnd = CleanEnd | ReadError
  datatype Bag = Bag(messages: seq<Message>, ending: BagEnd)

  /** What a call of the transform yields: its result record, or an exception. */
  datatype TransformResult =
    | Returned(payload: Payload, passthroughReason: string, error: string)
    | Threw(what: string)
  type Transform = (Topic, Payload) -> TransformResult

  datatype Plan = Plan(suppress: set<Topic>, outputByInput: map<Topic, Topic>, declareOutputs: seq<TopicInfo>)

  /** Everything a pass is given.  `closeOk` is the outcome of closing the writer;
      `outputKind` is the message type the transform produces. */
  datatype Pass = Pass(bag: Bag, bagTopics: seq<TopicInfo>, plan: Plan, transform: Transform,
                       outputKind: string, numThreads: nat, closeOk: bool)

  /** One output message on its way to the drainer.  `kind` is the message type of the bytes;
      the program does not carry it, it is here so that mixing two types can be talked about. */
  datatype Item = Item(topic: Topic, inputTopic: Topic, stamp: int, payload: Payload, inBytes: nat,
                       passthroughReason: string, error: Option<string>, kind: string)

  /** What the output bag is told to do, in order. */
  datatype WriterEvent =
    | Declared(info: TopicInfo)
    | Wrote(topic: Topic, stamp: int, payload: Payload, kind: string)

  datatype TopicStats = TopicStats(messages: nat, inBytes: nat, outBytes: nat, passthrough: nat)
  const ZERO_STATS := TopicStats(0, 0, 0, 0)

  /** The writer's event log with the drainer's tallies, lazily declared topics and warnings. */
  datatype Sink = Sink(log: seq<WriterEvent>, stats: map<Topic, TopicStats>, declared: set<Topic>,
                       warned: set<Topic>, warnings: seq<(Topic, string)>)

  // ---- single items ----------------------------------------------------------

  function FindTopic(topics: seq<TopicInfo>, name: Topic): (r: Option<TopicInfo>)
    ensures r.Some? ==> r.value in topics && r.value.name == name
    ensures r.None? <==> forall t | t in topics :: t.name != name
  {
    if topics == [] then None
    else if topics[0].name == name then Some(topics[0])
    else FindTopic(topics[1..], name)
  }

  function KindOf(topics: seq<TopicInfo>, name: Topic): string {
    match FindTopic(topics, name)
    case Some(info) => info.kind
    case None => ""
  }

  /** Transform one message; touches nothing but its arguments. */
  function ProcessTransformJob(p: Pass, m: Message, outputTopic: Topic): Item {
    var item := Item(outputTopic, m.topic, m.stamp, [], |m.payload|, "", None, p.outputKind);
    match p.transform(m.topic, m.payload)
    case Threw(what) => item.(error := Some("exception: " + what))
    case Returned(payload, reason, error) =>
      if error != "" then item.(error := Some(error))
      else if reason != "" then
        item.(topic := m.topic, passthroughReason := reason, payload := m.payload, kind := KindOf(p.bagTopics, m.topic))
      else item.(payload := payload)
  }

  /** A message copied through untouched. */
  function CopyItem(p: Pass, m: Message): Item {
    Item(m.topic, "", m.stamp, m.payload, 0, "", None, KindOf(p.bagTopics, m.topic))
  }

  predicate Selected(p: Pass, m: Message) {
    m.topic in p.plan.outputByInput
  }

  /** A message of a replaced topic that is not selected is dropped. */
  predicate Kept(p: Pass, m: Message) {
    Selected(p, m) || m.topic !in p.plan.suppress
  }

  function ItemOf(p: Pass, m: Message): Item {
    if Selected(p, m) then ProcessTransformJob(p, m, p.plan.outputByInput[m.topic]) else CopyItem(p, m)
  }

  // ---- the drainer as a function -----------------------------------------------

  function StatsOf(stats: map<Topic, TopicStats>, topic: Topic): TopicStats {
    if topic in stats then stats[topic] else ZERO_STATS
  }

  /** Drain one item without an error: declare a passed-through topic on first use, warn once per
      input topic, tally, and write. */
  function Drained(topics: seq<TopicInfo>, sink: Sink, item: Item): Sink
    requires item.error.None?
  {
    var tally := StatsOf(sink.stats, item.inputTopic);
    var write := Wrote(item.topic, item.stamp, item.payload, item.kind);
    if item.passthroughReason != "" then
      var declaration :=
        if item.topic in sink.declared then [] else
          match FindTopic(topics, item.topic)
          case Some(info) => [Declared(info)]
          case None => [];
      var warning := if item.inputTopic in sink.warned then [] else [(item.inputTopic, item.passthroughReason)];
      Sink(sink.log + declaration + [write],
           sink.stats[item.inputTopic := tally.(passthrough := tally.passthrough + 1)],
           sink.declared + {item.topic}, sink.warned + {item.inputTopic}, sink.warnings + warning)
    else
      sink.(log := sink.log + [write],
            stats := sink.stats[item.inputTopic := tally.(messages := tally.messages + 1,
                                                        inBytes := tally.inBytes + item.inBytes,
                                                        outBytes := tally.outBytes + |item.payload|)])
  }

  /** A pass is running, or a fatal item has ended it with nothing drained since. */
  datatype Outcome = Running(sink: Sink) | Aborted(sink: Sink)

  function DrainStep(topics: seq<TopicInfo>, before: Outcome, item: Item): Outcome {
    match before
    case Aborted(_) => before
    case Running(sink) => if item.error.Some? then Aborted(sink) else Running(Drained(topics, sink, item))
  }

  // ---- declarations up front -----------------------------------------------------

  /** The bag's own topics, minus the suppressed ones. */
  function CopiedTopics(topics: seq<TopicInfo>, suppress: set<Topic>): seq<TopicInfo> {
    if topics == [] then []
    else
      var before := CopiedTopics(topics[..|topics| - 1], suppress);
      if topics[|topics| - 1].name in suppress then before else before + [topics[|topics| - 1]]
  }

  function Declarations(infos: seq<TopicInfo>): (r: seq<WriterEvent>)
    ensures |r| == |infos|
    ensures forall i | 0 <= i < |infos| :: r[i] == Declared(infos[i])
  {
    seq(|infos|, i requires 0 <= i < |infos| => Declared(infos[i]))
  }

  function InitialSink(p: Pass): Sink {
    Sink(Declarations(CopiedTopics(p.bagTopics, p.plan.suppress)) + Declarations(p.plan.declareOutputs),
         map[], {}, {}, [])
  }

  // ---- the synchronous pass as a function -------------------------------------------

  /** One message of the synchronous pass.  A copied message goes straight to the writer. */
  function SyncStep(p: Pass, before: Outcome, m: Message): Outcome {
    match before
    case Aborted(_) => before
    case Running(sink) =>
      if Selected(p, m) then DrainStep(p.bagTopics, before, ItemOf(p, m))
      else if m.topic in p.plan.suppress then before
      else Running(sink.(log := sink.log + [Wrote(m.topic, m.stamp, m.payload, KindOf(p.bagTopics, m.topic))]))
  }

  /** The synchronous pass after its first `n` messages. */
  function SyncAfter(p: Pass, n: nat): Outcome
    requires n <= |p.bag.messages|
  {
    if n == 0 then Running(InitialSink(p)) else SyncStep(p, SyncAfter(p, n - 1), p.bag.messages[n - 1])
  }

  function SyncSink(p: Pass): Sink {
    SyncAfter(p, |p.bag.messages|).sink
  }

  /** The exit status: 0 only when no item was fatal, the bag ended cleanly and the writer closed. */
  function SyncStatus(p: Pass): int {
    if SyncAfter(p, |p.bag.messages|).Running? && p.bag.ending.CleanEnd? && p.closeOk then 0 else 1
  }

  lemma {:induction false} SyncAbortIsFinal(p: Pass, n: nat, m: nat)
    requires n <= m <= |p.bag.messages|
    requires SyncAfter(p, n).Aborted?
    ensures SyncAfter(p, m) == SyncAfter(p, n)
    decreases m
  {
    if n < m {
      SyncAbortIsFinal(p, n, m - 1);
    }
  }

  // ---- the objects ----------------------------------------------------------------

  /** The output bag: what it was told, in order. */
  class BagWriter {
    var log: seq<WriterEvent>

    constructor ()
      ensures log == []
    {
      log := [];
    }

    method DeclareTopic(info: TopicInfo)
      modifies this
      ensures log == old(log) + [Declared(info)]
    {
      log := log + [Declared(info)];
    }

    method Write(topic: Topic, stamp: int, payload: Payload, kind: string)
      modifies this
      ensures log == old(log) + [Wrote(topic, stamp, payload, kind)]
    {
      log := log + [Wrote(topic, stamp, payload, kind)];
    }
  }

  /** The collector-side bookkeeping shared by both passes. */
  class OutputDrainer {
    const writer: BagWriter
    const topics: seq<TopicInfo>
    var stats: map<Topic, TopicStats>
    var declaredPassthrough: set<Topic>
    var warned: set<Topic>
    var warnings: seq<(Topic, string)>

    ghost function View(): Sink
      reads this, writer
    {
      Sink(writer.log, stats, declaredPassthrough, warned, warnings)
    }

    constructor (writer: BagWriter, topics: seq<TopicInfo>)
      ensures this.writer == writer && this.topics == topics
      ensures View() == Sink(writer.log, map[], {}, {}, [])
    {
      this.writer := writer;
      this.topics := topics;
      stats, declaredPassthrough, warned, warnings := map[], {}, {}, [];
    }

    /** Write one item; false when the item carries a fatal error. */
    method Drain(item: Item) returns (ok: bool)
      modifies this, writer
      ensures ok <==> item.error.None?
      ensures View() == DrainStep(topics, Running(old(View())), item).sink
    {
      if item.error.Some? {
        return false;
      }
      var topicStats := StatsOf(stats, item.inputTopic);
      if item.passthroughReason != "" {
        if item.topic !in declaredPassthrough {
          declaredPassthrough := declaredPassthrough + {item.topic};
          var info := FindTopic(topics, item.topic);
          if info.Some? {
            writer.DeclareTopic(info.value);
          }
        }
        if item.inputTopic !in warned {
          warned := warned + {item.inputTopic};
          warnings := warnings + [(item.inputTopic, item.passthroughReason)];
        }
        topicStats := topicStats.(passthrough := topicStats.passthrough + 1);
      } else {
        topicStats := topicStats.(messages := topicStats.messages + 1,
                                  inBytes := topicStats.inBytes + item.inBytes,
                                  outBytes := topicStats.outBytes + |item.payload|);
      }
      stats := stats[item.inputTopic := topicStats];
      writer.Write(item.topic, item.stamp, item.payload, item.kind);
      return true;
    }
  }

  /** Declare every bag topic that is not suppressed, then every output topic. */
  method DeclareAll(p: Pass, writer: BagWriter)
    requires writer.log == []
    modifies writer
    ensures writer.log == InitialSink(p).log
  {
    for i := 0 to |p.bagTopics|
      invariant writer.log == Declarations(CopiedTopics(p.bagTopics[..i], p.plan.suppress))
    {
      assert p.bagTopics[..i + 1][..i] == p.bagTopics[..i];
      if p.bagTopics[i].name !in p.plan.suppress {
        writer.DeclareTopic(p.bagTopics[i]);
      }
    }
    assert p.bagTopics[..|p.bagTopics|] == p.bagTopics;
    for i := 0 to |p.plan.declareOutputs|
      invariant writer.log ==
                Declarations(CopiedTopics(p.bagTopics, p.plan.suppress)) + Declarations(p.plan.declareOutputs[..i])
    {
      writer.DeclareTopic(p.plan.declareOutputs[i]);
    }
    assert p.plan.declareOutputs[..|p.plan.declareOutputs|] == p.plan.declareOutputs;
  }
}
