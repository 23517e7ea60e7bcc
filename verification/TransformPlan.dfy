/** Planning a transform pass: which topics are transformed, under which names, and what is dropped
    from copy-through.  The collision tests are what keeps the output bag consistent: a topic name is
    declared once, with one message type, before anything is written to it. */
module TransformPlan {
  import opened Wrappers
  import opened TransformPass
  import opened ParallelPass
  import opened ParallelPassResults

  datatype PlanError =
    | NoTopicOfType
    | UnknownTopic(name: Topic)
    | WrongType(name: Topic)
    | AsNeedsOneTopic(selected: nat)
    | NoOutputName(name: Topic)
    | TwoToOneOutput(output: Topic)
    | OutputIsItsInput(output: Topic)
    | OutputIsSelected(output: Topic)
    | OutputExists(output: Topic)

  datatype PlanResult = Planned(plan: Plan, mappings: seq<(TopicInfo, Topic)>) | Refused(error: PlanError)

  /** The command line's part of the planning, and the definition found for the output type: its text
      and encoding, empty when there is none. */
  datatype Request = Request(selectors: seq<Topic>, asName: Topic, force: bool, inputKind: string,
                             outputKind: string, defaultName: Topic -> Topic, schemaText: string,
                             schemaEncoding: string)

  /** What is declared for an output: a new name and type, CDR, the definition of the output type, and the
      QoS profiles of the input it replaces. */
  function OutputInfo(r: Request, input: TopicInfo, out: Topic): TopicInfo {
    TopicInfo(out, r.outputKind, Form("cdr", input.form.qosProfiles, r.schemaText, r.schemaEncoding))
  }

  predicate UniqueNames(topics: seq<TopicInfo>) {
    forall i, j | 0 <= i < j < |topics| :: topics[i].name != topics[j].name
  }

  ghost predicate InBag(topics: seq<TopicInfo>, name: Topic) {
    exists t | t in topics :: t.name == name
  }

  // ---- what a plan must satisfy -----------------------------------------------------------

  /** The inputs are the asked-for topics, each once: every topic of the input type when no selector
      is given. */
  ghost predicate SelectsAsAsked(topics: seq<TopicInfo>, r: Request, inputs: seq<TopicInfo>) {
    && inputs != []
    && UniqueNames(inputs)
    && (forall t | t in inputs :: t in topics && t.kind == r.inputKind)
    && (r.selectors == [] ==> forall t | t in topics && t.kind == r.inputKind :: t in inputs)
    && (r.selectors != [] ==> forall name :: name in r.selectors <==> InBag(inputs, name))
  }

  function OutputName(r: Request, input: TopicInfo): Topic {
    if r.asName != "" then r.asName else r.defaultName(input.name)
  }

  /** The outputs are named, distinct, not selected themselves, and new to the bag unless forced. */
  ghost predicate NamesWell(topics: seq<TopicInfo>, r: Request, inputs: seq<TopicInfo>) {
    && (r.asName != "" ==> forall t, u | t in inputs && u in inputs :: t == u)
    && (forall t | t in inputs :: OutputName(r, t) != "")
    && (forall t, u | t in inputs && u in inputs && t != u :: OutputName(r, t) != OutputName(r, u))
    && (forall t | t in inputs :: !InBag(inputs, OutputName(r, t)))
    && (forall t | t in inputs && InBag(topics, OutputName(r, t)) :: r.force)
  }

  /** The plan is the one its inputs call for. */
  ghost predicate PlanOf(topics: seq<TopicInfo>, r: Request, inputs: seq<TopicInfo>, plan: Plan) {
    && plan.outputByInput.Keys == (set t | t in inputs :: t.name)
    && (forall t | t in inputs :: plan.outputByInput[t.name] == OutputName(r, t))
    && (forall name :: name in plan.suppress <==>
          InBag(inputs, name) || (InBag(topics, name) && exists t | t in inputs :: OutputName(r, t) == name))
    && |plan.declareOutputs| == |inputs|
    && forall i | 0 <= i < |inputs| :: plan.declareOutputs[i] == OutputInfo(r, inputs[i], OutputName(r, inputs[i]))
  }

  /** Every input is replaced by a topic of its name and type to be: CDR-serialized, defined as the output type
      is, with the QoS profiles of the input. */
  ghost predicate DeclaresAsAsked(r: Request, inputs: seq<TopicInfo>, plan: Plan) {
    && |plan.declareOutputs| == |inputs|
    && forall i | 0 <= i < |inputs| ::
         var info := plan.declareOutputs[i];
         && inputs[i].name in plan.outputByInput && info.name == plan.outputByInput[inputs[i].name]
         && info.name == (if r.asName == "" then r.defaultName(inputs[i].name) else r.asName)
         && info.kind == r.outputKind
         && info.form.serialization == "cdr" && info.form.qosProfiles == inputs[i].form.qosProfiles
         && info.form.schemaText == r.schemaText && info.form.schemaEncoding == r.schemaEncoding
  }

  /** A refusal that is about the selection itself. */
  predicate RefusesSelection(error: PlanError) {
    error.NoTopicOfType? || error.UnknownTopic? || error.WrongType?
  }

  /** What each refusal says about the request, `inputs` being what it selects. */
  ghost predicate Justified(topics: seq<TopicInfo>, r: Request, inputs: seq<TopicInfo>, error: PlanError) {
    match error
    case NoTopicOfType => r.selectors == [] && forall t | t in topics :: t.kind != r.inputKind
    case UnknownTopic(name) => name in r.selectors && !InBag(topics, name)
    case WrongType(name) => name in r.selectors && InBag(topics, name) && KindOf(topics, name) != r.inputKind
    case AsNeedsOneTopic(n) => r.asName != "" && n == |inputs| != 1
    case NoOutputName(name) => r.asName == "" && r.defaultName(name) == "" && InBag(inputs, name)
    case TwoToOneOutput(out) =>
      exists j, k :: 0 <= j < k < |inputs| && OutputName(r, inputs[j]) == OutputName(r, inputs[k]) == out
    case OutputIsItsInput(out) => exists t | t in inputs :: OutputName(r, t) == t.name == out
    case OutputIsSelected(out) => InBag(inputs, out) && exists t | t in inputs :: OutputName(r, t) == out != t.name
    case OutputExists(out) => !r.force && InBag(topics, out) && exists t | t in inputs :: OutputName(r, t) == out
  }

  function Inputs(mappings: seq<(TopicInfo, Topic)>): (r: seq<TopicInfo>)
    ensures |r| == |mappings|
    ensures forall i | 0 <= i < |r| :: r[i] == mappings[i].0
  {
    seq(|mappings|, i requires 0 <= i < |mappings| => mappings[i].0)
  }

  // ---- planning ---------------------------------------------------------------------------

  method SelectInputs(topics: seq<TopicInfo>, r: Request) returns (error: Option<PlanError>, inputs: seq<TopicInfo>)
    requires UniqueNames(topics)
    ensures error.None? ==> SelectsAsAsked(topics, r, inputs)
    ensures error.Some? ==> forall any: seq<TopicInfo> :: !SelectsAsAsked(topics, r, any)
    ensures error.Some? ==> RefusesSelection(error.value) && Justified(topics, r, [], error.value)
  {
    inputs := [];
    if r.selectors == [] {
      for i := 0 to |topics|
        invariant UniqueNames(inputs)
        invariant forall t :: t in inputs <==> t in topics[..i] && t.kind == r.inputKind
      {
        if topics[i].kind == r.inputKind {
          inputs := inputs + [topics[i]];
        }
      }
      assert topics[..|topics|] == topics;
      if inputs == [] {
        error := Some(NoTopicOfType);
        NothingToSelect(topics, r);
        return;
      }
    } else {
      var seen: set<Topic> := {};
      for i := 0 to |r.selectors|
        invariant forall name :: name in seen <==> name in r.selectors[..i]
        invariant UniqueNames(inputs)
        invariant forall t | t in inputs :: t in topics && t.kind == r.inputKind
        invariant forall name :: name in seen <==> InBag(inputs, name)
      {
        var name := r.selectors[i];
        assert r.selectors[..i + 1] == r.selectors[..i] + [name];
        if name !in seen {
          seen := seen + {name};
          var info := FindTopic(topics, name);
          if info.None? || info.value.kind != r.inputKind {
            error := Some(if info.None? then UnknownTopic(name) else WrongType(name));
            SelectorRefused(topics, r, name);
            return;
          }
          ghost var before := inputs;
          inputs := inputs + [info.value];
          assert forall other :: InBag(inputs, other) <==> InBag(before, other) || other == name by {
            InBagSnoc(before, info.value);
          }
        }
      }
      assert r.selectors[..|r.selectors|] == r.selectors;
      assert InBag(inputs, r.selectors[0]);
    }
    error := None;
  }

  lemma InBagSnoc(topics: seq<TopicInfo>, last: TopicInfo)
    ensures forall name :: InBag(topics + [last], name) <==> InBag(topics, name) || name == last.name
  {
    forall name
      ensures InBag(topics + [last], name) <==> InBag(topics, name) || name == last.name
    {
      assert last in topics + [last];
      if InBag(topics, name) {
        var t :| t in topics && t.name == name;
        assert t in topics + [last];
      }
    }
  }

  lemma NothingToSelect(topics: seq<TopicInfo>, r: Request)
    requires forall t | t in topics :: t.kind != r.inputKind
    ensures forall any: seq<TopicInfo> :: !SelectsAsAsked(topics, r, any)
  {
    forall any: seq<TopicInfo>
      ensures !SelectsAsAsked(topics, r, any)
    {
      if any != [] {
        assert any[0] in any;
      }
    }
  }

  /** A selector that names no topic of the input type rules out every selection. */
  lemma SelectorRefused(topics: seq<TopicInfo>, r: Request, name: Topic)
    requires UniqueNames(topics) && name in r.selectors
    requires forall t | t in topics && t.name == name :: t == FindTopic(topics, name).value ==> t.kind != r.inputKind
    ensures forall any: seq<TopicInfo> :: !SelectsAsAsked(topics, r, any)
  {
  }

  /** Give every input its output name. */
  method ResolveNames(r: Request, inputs: seq<TopicInfo>)
    returns (error: Option<PlanError>, mappings: seq<(TopicInfo, Topic)>)
    requires inputs != [] && UniqueNames(inputs)
    ensures error.None? <==>
              && (r.asName != "" ==> forall t, u | t in inputs && u in inputs :: t == u)
              && (forall t | t in inputs :: OutputName(r, t) != "")
    ensures error.Some? ==> !RefusesSelection(error.value)
    ensures error.Some? ==> forall topics :: Justified(topics, r, inputs, error.value)
    ensures error.None? ==> Inputs(mappings) == inputs
    ensures error.None? ==> forall i | 0 <= i < |mappings| :: mappings[i].1 == OutputName(r, inputs[i])
  {
    mappings := [];
    if r.asName != "" {
      if |inputs| != 1 {
        assert inputs[0] in inputs && inputs[1] in inputs && inputs[0] != inputs[1];
        return Some(AsNeedsOneTopic(|inputs|)), [];
      }
      return None, [(inputs[0], r.asName)];
    }
    for i := 0 to |inputs|
      invariant |mappings| == i
      invariant forall k | 0 <= k < i :: mappings[k] == (inputs[k], OutputName(r, inputs[k]))
      invariant forall k | 0 <= k < i :: OutputName(r, inputs[k]) != ""
    {
      var out := r.defaultName(inputs[i].name);
      if out == "" {
        assert OutputName(r, inputs[i]) == "";
        return Some(NoOutputName(inputs[i].name)), [];
      }
      mappings := mappings + [(inputs[i], out)];
    }
    error := None;
  }

  /** The collision tests on the first `n` inputs. */
  ghost predicate ClearUpTo(topics: seq<TopicInfo>, r: Request, inputs: seq<TopicInfo>, n: nat)
    requires n <= |inputs|
  {
    && (forall j, k | 0 <= j < k < n :: OutputName(r, inputs[j]) != OutputName(r, inputs[k]))
    && (forall k | 0 <= k < n :: !InBag(inputs, OutputName(r, inputs[k])))
    && (forall k | 0 <= k < n && InBag(topics, OutputName(r, inputs[k])) :: r.force)
  }

  ghost predicate IsOutput(r: Request, inputs: seq<TopicInfo>, n: nat, name: Topic)
    requires n <= |inputs|
  {
    exists k :: 0 <= k < n && OutputName(r, inputs[k]) == name
  }

  lemma IsOutputNext(r: Request, inputs: seq<TopicInfo>, i: nat)
    requires i < |inputs|
    ensures forall name :: IsOutput(r, inputs, i + 1, name) <==>
                           IsOutput(r, inputs, i, name) || name == OutputName(r, inputs[i])
  {
    forall name
      ensures IsOutput(r, inputs, i + 1, name) <==> IsOutput(r, inputs, i, name) || name == OutputName(r, inputs[i])
    {
      if IsOutput(r, inputs, i, name) {
        var k :| 0 <= k < i && OutputName(r, inputs[k]) == name;
        assert 0 <= k < i + 1;
      }
    }
  }

  /** No two outputs, and no output and input, may share a name; an output that exists in the bag
      needs --force.  `suppress` collects the existing topics that are replaced. */
  method TestCollisions(topics: seq<TopicInfo>, r: Request, inputs: seq<TopicInfo>)
    returns (error: Option<PlanError>, suppress: set<Topic>)
    ensures error.None? <==> ClearUpTo(topics, r, inputs, |inputs|)
    ensures error.Some? ==> !RefusesSelection(error.value) && Justified(topics, r, inputs, error.value)
    ensures error.None? ==>
              forall name :: name in suppress <==> InBag(topics, name) && IsOutput(r, inputs, |inputs|, name)
  {
    var selectedNames := set t | t in inputs :: t.name;
    assert forall name :: name in selectedNames <==> InBag(inputs, name);
    var outNames: set<Topic> := {};
    suppress := {};
    for i := 0 to |inputs|
      invariant forall name :: name in outNames <==> IsOutput(r, inputs, i, name)
      invariant ClearUpTo(topics, r, inputs, i)
      invariant forall name :: name in suppress <==> InBag(topics, name) && name in outNames
    {
      var out := OutputName(r, inputs[i]);
      IsOutputNext(r, inputs, i);
      if out in outNames {
        return Some(TwoToOneOutput(out)), {};
      }
      outNames := outNames + {out};
      if out == inputs[i].name {
        assert InBag(inputs, out);
        return Some(OutputIsItsInput(out)), {};
      }
      if out in selectedNames && out != inputs[i].name {
        return Some(OutputIsSelected(out)), {};
      }
      if FindTopic(topics, out).Some? {
        assert InBag(topics, out);
        if !r.force {
          return Some(OutputExists(out)), {};
        }
        suppress := suppress + {out};
      }
      ClearOneMore(topics, r, inputs, i);
    }
    error := None;
  }

  lemma ClearOneMore(topics: seq<TopicInfo>, r: Request, inputs: seq<TopicInfo>, i: nat)
    requires i < |inputs| && ClearUpTo(topics, r, inputs, i) && !IsOutput(r, inputs, i, OutputName(r, inputs[i]))
    requires !InBag(inputs, OutputName(r, inputs[i])) && (InBag(topics, OutputName(r, inputs[i])) ==> r.force)
    ensures ClearUpTo(topics, r, inputs, i + 1)
  {
  }

  /** By position or by membership, the collision tests say the same of distinct inputs. */
  lemma ClearIsNamedWell(topics: seq<TopicInfo>, r: Request, inputs: seq<TopicInfo>)
    requires UniqueNames(inputs)
    ensures ClearUpTo(topics, r, inputs, |inputs|) <==>
              && (forall t, u | t in inputs && u in inputs && t != u :: OutputName(r, t) != OutputName(r, u))
              && (forall t | t in inputs :: !InBag(inputs, OutputName(r, t)))
              && (forall t | t in inputs && InBag(topics, OutputName(r, t)) :: r.force)
  {
    if forall t, u | t in inputs && u in inputs && t != u :: OutputName(r, t) != OutputName(r, u) {
      forall j, k | 0 <= j < k < |inputs|
        ensures OutputName(r, inputs[j]) != OutputName(r, inputs[k])
      {
        assert inputs[j] in inputs && inputs[k] in inputs && inputs[j] != inputs[k];
      }
    }
  }

  /** Fill in the plan of a selection and its output names. */
  method BuildPlan(r: Request, mappings: seq<(TopicInfo, Topic)>, replaced: set<Topic>) returns (plan: Plan)
    requires forall i, j | 0 <= i < j < |mappings| :: mappings[i].0.name != mappings[j].0.name
    ensures plan.outputByInput.Keys == set k | 0 <= k < |mappings| :: mappings[k].0.name
    ensures forall k | 0 <= k < |mappings| :: plan.outputByInput[mappings[k].0.name] == mappings[k].1
    ensures plan.suppress == replaced + plan.outputByInput.Keys
    ensures |plan.declareOutputs| == |mappings|
    ensures forall k | 0 <= k < |mappings| :: plan.declareOutputs[k] == OutputInfo(r, mappings[k].0, mappings[k].1)
  {
    var outputByInput: map<Topic, Topic>, declareOutputs: seq<TopicInfo> := map[], [];
    var suppress := replaced;
    for i := 0 to |mappings|
      invariant outputByInput.Keys == set k | 0 <= k < i :: mappings[k].0.name
      invariant forall k | 0 <= k < i :: outputByInput[mappings[k].0.name] == mappings[k].1
      invariant suppress == replaced + outputByInput.Keys
      invariant |declareOutputs| == i
      invariant forall k | 0 <= k < i :: declareOutputs[k] == OutputInfo(r, mappings[k].0, mappings[k].1)
    {
      var (input, out) := mappings[i];
      outputByInput := outputByInput[input.name := out];
      suppress := suppress + {input.name};
      declareOutputs := declareOutputs + [OutputInfo(r, input, out)];
    }
    plan := Plan(suppress, outputByInput, declareOutputs);
  }

  lemma BuiltPlanIsPlanOf(topics: seq<TopicInfo>, r: Request, inputs: seq<TopicInfo>, replaced: set<Topic>, plan: Plan)
    requires plan.outputByInput.Keys == set k | 0 <= k < |inputs| :: inputs[k].name
    requires forall k | 0 <= k < |inputs| :: plan.outputByInput[inputs[k].name] == OutputName(r, inputs[k])
    requires forall name :: name in replaced <==> InBag(topics, name) && IsOutput(r, inputs, |inputs|, name)
    requires plan.suppress == replaced + plan.outputByInput.Keys
    requires |plan.declareOutputs| == |inputs|
    requires forall k | 0 <= k < |inputs| ::
               plan.declareOutputs[k] == OutputInfo(r, inputs[k], OutputName(r, inputs[k]))
    ensures PlanOf(topics, r, inputs, plan)
  {
    assert plan.outputByInput.Keys == set t | t in inputs :: t.name;
    assert forall name :: IsOutput(r, inputs, |inputs|, name) <==> exists t | t in inputs :: OutputName(r, t) == name;
    assert forall name :: InBag(inputs, name) <==> name in plan.outputByInput.Keys;
  }

  /** Plan the pass.  The result is a plan exactly when some selection meets the request and its
      output names collide with nothing; the plan is then the one that selection calls for.  A refusal
      says what is wrong with the selectors or, when they select, with the names of what they select. */
  method PlanPcdTransform(topics: seq<TopicInfo>, r: Request) returns (result: PlanResult)
    requires UniqueNames(topics)
    ensures result.Planned? ==>
              && SelectsAsAsked(topics, r, Inputs(result.mappings))
              && NamesWell(topics, r, Inputs(result.mappings))
              && PlanOf(topics, r, Inputs(result.mappings), result.plan)
              && DeclaresAsAsked(r, Inputs(result.mappings), result.plan)
    ensures result.Refused? ==>
              && (forall inputs: seq<TopicInfo> :: SelectsAsAsked(topics, r, inputs) ==> !NamesWell(topics, r, inputs))
              && if RefusesSelection(result.error) then Justified(topics, r, [], result.error)
                 else exists inputs :: SelectsAsAsked(topics, r, inputs) && Justified(topics, r, inputs, result.error)
  {
    var selectError, inputs := SelectInputs(topics, r);
    if selectError.Some? {
      return Refused(selectError.value);
    }
    OneSelection(topics, r, inputs);
    result := PlanSelected(topics, r, inputs);
    if result.Planned? {
      PlansDeclareAsAsked(topics, r, inputs, result.plan);
    }
  }

  lemma PlansDeclareAsAsked(topics: seq<TopicInfo>, r: Request, inputs: seq<TopicInfo>, plan: Plan)
    requires PlanOf(topics, r, inputs, plan)
    ensures DeclaresAsAsked(r, inputs, plan)
  {
    forall i | 0 <= i < |inputs|
      ensures inputs[i].name in plan.outputByInput
      ensures plan.outputByInput[inputs[i].name] == OutputName(r, inputs[i])
    {
      assert inputs[i] in inputs;
    }
  }

  /** Name the outputs of a selection, test them for collisions, and fill in the plan. */
  method PlanSelected(topics: seq<TopicInfo>, r: Request, inputs: seq<TopicInfo>) returns (result: PlanResult)
    requires inputs != [] && UniqueNames(inputs)
    ensures result.Planned? <==> NamesWell(topics, r, inputs)
    ensures result.Planned? ==> Inputs(result.mappings) == inputs && PlanOf(topics, r, inputs, result.plan)
    ensures result.Refused? ==> !RefusesSelection(result.error) && Justified(topics, r, inputs, result.error)
  {
    var nameError, mappings := ResolveNames(r, inputs);
    if nameError.Some? {
      assert Justified(topics, r, inputs, nameError.value);
      return Refused(nameError.value);
    }
    ClearIsNamedWell(topics, r, inputs);
    result := PlanNamed(topics, r, inputs, mappings);
  }

  method PlanNamed(topics: seq<TopicInfo>, r: Request, inputs: seq<TopicInfo>, mappings: seq<(TopicInfo, Topic)>)
    returns (result: PlanResult)
    requires UniqueNames(inputs) && Inputs(mappings) == inputs
    requires forall i | 0 <= i < |mappings| :: mappings[i].1 == OutputName(r, inputs[i])
    ensures result.Planned? <==> ClearUpTo(topics, r, inputs, |inputs|)
    ensures result.Planned? ==> result.mappings == mappings && PlanOf(topics, r, inputs, result.plan)
    ensures result.Refused? ==> !RefusesSelection(result.error) && Justified(topics, r, inputs, result.error)
  {
    var collision, replaced := TestCollisions(topics, r, inputs);
    if collision.Some? {
      return Refused(collision.value);
    }
    assert forall i | 0 <= i < |mappings| :: inputs[i] == mappings[i].0;
    var plan := BuildPlan(r, mappings, replaced);
    BuiltPlanIsPlanOf(topics, r, inputs, replaced, plan);
    result := Planned(plan, mappings);
  }

  /** Selections that meet one request hold the same topics, so none of them has good names unless
      this one does. */
  lemma OneSelection(topics: seq<TopicInfo>, r: Request, inputs: seq<TopicInfo>)
    requires UniqueNames(topics) && SelectsAsAsked(topics, r, inputs)
    ensures forall other: seq<TopicInfo> | SelectsAsAsked(topics, r, other) && NamesWell(topics, r, other) ::
              NamesWell(topics, r, inputs)
  {
    forall other: seq<TopicInfo> | SelectsAsAsked(topics, r, other) && NamesWell(topics, r, other)
      ensures NamesWell(topics, r, inputs)
    {
      SameTopics(topics, r, inputs, other);
      SameTopics(topics, r, other, inputs);
      forall name
        ensures InBag(inputs, name) ==> InBag(other, name)
      {
      }
    }
  }

  lemma SameTopics(topics: seq<TopicInfo>, r: Request, a: seq<TopicInfo>, b: seq<TopicInfo>)
    requires UniqueNames(topics) && SelectsAsAsked(topics, r, a) && SelectsAsAsked(topics, r, b)
    ensures forall t | t in a :: t in b
  {
    forall t | t in a
      ensures t in b
    {
      if r.selectors != [] {
        assert InBag(a, t.name);
        var u: TopicInfo :| u in b && u.name == t.name;
      }
    }
  }

  // ---- an accepted plan keeps the output bag consistent ----------------------------------------

  /** Some topic of the list has this name and type. */
  ghost predicate Offers(topics: seq<TopicInfo>, name: Topic, kind: string) {
    exists t | t in topics :: t.name == name && t.kind == kind
  }

  /** What a pass needs of its plan, its bag and its messages. */
  ghost predicate PlanFits(p: Pass) {
    var plan := p.plan;
    && UniqueNames(p.bagTopics)
    && UniqueNames(plan.declareOutputs)
    && (forall m | m in p.bag.messages :: InBag(p.bagTopics, m.topic))
    && (forall name | name in plan.outputByInput :: name in plan.suppress && InBag(p.bagTopics, name))
    && (forall name | name in plan.outputByInput ::
          Offers(plan.declareOutputs, plan.outputByInput[name], p.outputKind))
    && (forall t | t in plan.declareOutputs ::
          t.name !in plan.outputByInput && (InBag(p.bagTopics, t.name) ==> t.name in plan.suppress))
  }

  /** Every plan the planner accepts fits the bag it was made for. */
  lemma AcceptedPlanFits(p: Pass, r: Request, inputs: seq<TopicInfo>)
    requires UniqueNames(p.bagTopics) && r.outputKind == p.outputKind
    requires forall m | m in p.bag.messages :: InBag(p.bagTopics, m.topic)
    requires SelectsAsAsked(p.bagTopics, r, inputs) && NamesWell(p.bagTopics, r, inputs)
    requires PlanOf(p.bagTopics, r, inputs, p.plan)
    ensures PlanFits(p)
  {
    forall i, j | 0 <= i < j < |inputs|
      ensures p.plan.declareOutputs[i].name != p.plan.declareOutputs[j].name
    {
      assert inputs[i] != inputs[j];
    }
    forall name | name in p.plan.outputByInput
      ensures name in p.plan.suppress && InBag(p.bagTopics, name)
      ensures Offers(p.plan.declareOutputs, p.plan.outputByInput[name], p.outputKind)
    {
      var t :| t in inputs && t.name == name;
      InputIsReplaced(p.bagTopics, r, inputs, p.plan, t);
    }
    forall t | t in p.plan.declareOutputs
      ensures t.name !in p.plan.outputByInput && (InBag(p.bagTopics, t.name) ==> t.name in p.plan.suppress)
    {
      OutputIsNew(p.bagTopics, r, inputs, p.plan, t);
    }
  }

  lemma InputIsReplaced(topics: seq<TopicInfo>, r: Request, inputs: seq<TopicInfo>, plan: Plan, t: TopicInfo)
    requires SelectsAsAsked(topics, r, inputs) && PlanOf(topics, r, inputs, plan) && t in inputs
    ensures t.name in plan.outputByInput && t.name in plan.suppress && InBag(topics, t.name)
    ensures Offers(plan.declareOutputs, plan.outputByInput[t.name], r.outputKind)
  {
    var i :| 0 <= i < |inputs| && inputs[i] == t;
    assert plan.declareOutputs[i] in plan.declareOutputs;
  }

  lemma OutputIsNew(topics: seq<TopicInfo>, r: Request, inputs: seq<TopicInfo>, plan: Plan, t: TopicInfo)
    requires NamesWell(topics, r, inputs) && PlanOf(topics, r, inputs, plan) && t in plan.declareOutputs
    ensures t.name !in plan.outputByInput && (InBag(topics, t.name) ==> t.name in plan.suppress)
  {
    var i :| 0 <= i < |inputs| && plan.declareOutputs[i] == t;
    assert !InBag(inputs, OutputName(r, inputs[i]));
  }

  /** A topic name is declared once, hence with one type, and everything written to it afterwards is
      of that type and comes after the declaration. */
  ghost predicate LogIsConsistent(log: seq<WriterEvent>) {
    && (forall i, j | 0 <= i < j < |log| && log[i].Declared? && log[j].Declared? ::
          log[i].info.name != log[j].info.name)
    && (forall j | 0 <= j < |log| && log[j].Wrote? :: DeclaredIn(log[..j], log[j].topic, log[j].kind))
  }

  ghost predicate DeclaredIn(log: seq<WriterEvent>, name: Topic, kind: string) {
    exists e | e in log :: e.Declared? && e.info.name == name && e.info.kind == kind
  }

  /** The sink along the way: selected topics are declared only through the drainer's own set. */
  ghost predicate SinkFits(p: Pass, s: Sink) {
    && LogIsConsistent(s.log)
    && InitialSink(p).log <= s.log
    && (forall e | e in s.log && e.Declared? && e.info.name in p.plan.outputByInput :: e.info.name in s.declared)
    && (forall name | name in s.declared :: DeclaredIn(s.log, name, KindOf(p.bagTopics, name)))
  }

  lemma {:induction false} CopiedTopicsAre(topics: seq<TopicInfo>, suppress: set<Topic>)
    ensures forall t :: t in CopiedTopics(topics, suppress) <==> t in topics && t.name !in suppress
    ensures UniqueNames(topics) ==> UniqueNames(CopiedTopics(topics, suppress))
  {
    if topics != [] {
      var front := topics[..|topics| - 1];
      CopiedTopicsAre(front, suppress);
      assert topics == front + [topics[|topics| - 1]];
    }
  }

  lemma InitialSinkFits(p: Pass)
    requires PlanFits(p)
    ensures SinkFits(p, InitialSink(p))
  {
    var copied := CopiedTopics(p.bagTopics, p.plan.suppress);
    var log := InitialSink(p).log;
    CopiedTopicsAre(p.bagTopics, p.plan.suppress);
    forall i, j | 0 <= i < j < |log|
      ensures log[i].info.name != log[j].info.name
    {
      if i < |copied| <= j {
        assert copied[i] in p.bagTopics;
        assert log[j].info in p.plan.declareOutputs;
      }
    }
    forall e | e in log
      ensures e.info.name !in p.plan.outputByInput
    {
      assert e.info in copied || e.info in p.plan.declareOutputs;
    }
  }

  lemma WriteKeepsLogConsistent(log: seq<WriterEvent>, write: WriterEvent)
    requires LogIsConsistent(log) && write.Wrote? && DeclaredIn(log, write.topic, write.kind)
    ensures LogIsConsistent(log + [write])
  {
    var after := log + [write];
    forall j | 0 <= j < |after| && after[j].Wrote?
      ensures DeclaredIn(after[..j], after[j].topic, after[j].kind)
    {
      assert after[..j] == log[..j];
      assert log[..|log|] == log;
    }
  }

  lemma DeclarationKeepsLogConsistent(log: seq<WriterEvent>, info: TopicInfo)
    requires LogIsConsistent(log) && forall e | e in log && e.Declared? :: e.info.name != info.name
    ensures LogIsConsistent(log + [Declared(info)])
  {
    var after := log + [Declared(info)];
    forall j | 0 <= j < |after| && after[j].Wrote?
      ensures DeclaredIn(after[..j], after[j].topic, after[j].kind)
    {
      assert after[..j] == log[..j];
    }
  }

  /** Appending a write to a declared topic keeps the sink fit. */
  lemma WriteKeepsSinkFit(p: Pass, s: Sink, write: WriterEvent, stats: map<Topic, TopicStats>)
    requires SinkFits(p, s)
    requires write.Wrote? && DeclaredIn(s.log, write.topic, write.kind)
    ensures SinkFits(p, s.(log := s.log + [write], stats := stats))
  {
    WriteKeepsLogConsistent(s.log, write);
    forall name, kind | DeclaredIn(s.log, name, kind)
      ensures DeclaredIn(s.log + [write], name, kind)
    {
      StaysDeclared(s.log, [write], name, kind);
    }
  }

  lemma StaysDeclared(log: seq<WriterEvent>, more: seq<WriterEvent>, name: Topic, kind: string)
    requires DeclaredIn(log, name, kind)
    ensures DeclaredIn(log + more, name, kind)
  {
    var e :| e in log && e.Declared? && e.info.name == name && e.info.kind == kind;
    assert e in log + more;
  }

  /** Declaring a passed-through topic on first use keeps the sink fit. */
  lemma DeclareKeepsSinkFit(p: Pass, s: Sink, info: TopicInfo)
    requires PlanFits(p) && SinkFits(p, s) && info.kind == KindOf(p.bagTopics, info.name)
    requires info.name in p.plan.outputByInput && info.name !in s.declared
    ensures SinkFits(p, s.(log := s.log + [Declared(info)], declared := s.declared + {info.name}))
  {
    var log := s.log + [Declared(info)];
    assert Declared(info) in log;
    DeclarationKeepsLogConsistent(s.log, info);
    forall other, kind | DeclaredIn(s.log, other, kind)
      ensures DeclaredIn(log, other, kind)
    {
      StaysDeclared(s.log, [Declared(info)], other, kind);
    }
  }

  lemma InitialDeclarations(p: Pass, info: TopicInfo)
    requires info in p.plan.declareOutputs || (info in p.bagTopics && info.name !in p.plan.suppress)
    ensures Declared(info) in InitialSink(p).log
    ensures forall s | SinkFits(p, s) :: DeclaredIn(s.log, info.name, info.kind)
  {
    CopiedTopicsAre(p.bagTopics, p.plan.suppress);
    var copied := CopiedTopics(p.bagTopics, p.plan.suppress);
    if info in p.plan.declareOutputs {
      var i :| 0 <= i < |p.plan.declareOutputs| && p.plan.declareOutputs[i] == info;
      assert InitialSink(p).log[|copied| + i] == Declared(info);
    } else {
      var i :| 0 <= i < |copied| && copied[i] == info;
      assert InitialSink(p).log[i] == Declared(info);
    }
  }

  lemma DrainKeepsSinkFit(p: Pass, s: Sink, m: Message)
    requires PlanFits(p) && SinkFits(p, s) && m in p.bag.messages
    requires Selected(p, m) && ItemOf(p, m).error.None?
    ensures SinkFits(p, Drained(p.bagTopics, s, ItemOf(p, m)))
  {
    var item := ItemOf(p, m);
    if item.passthroughReason == "" {
      var info :| info in p.plan.declareOutputs && info.name == item.topic && info.kind == item.kind;
      InitialDeclarations(p, info);
      var write := Wrote(item.topic, item.stamp, item.payload, item.kind);
      WriteKeepsSinkFit(p, s, write, Drained(p.bagTopics, s, item).stats);
    } else {
      PassThroughKeepsSinkFit(p, s, m);
    }
  }

  lemma PassThroughKeepsSinkFit(p: Pass, s: Sink, m: Message)
    requires PlanFits(p) && SinkFits(p, s) && m in p.bag.messages
    requires Selected(p, m) && ItemOf(p, m).error.None? && ItemOf(p, m).passthroughReason != ""
    ensures SinkFits(p, Drained(p.bagTopics, s, ItemOf(p, m)))
  {
    var item := ItemOf(p, m);
    var info := FindTopic(p.bagTopics, m.topic);
    assert info.Some?;
    var declared := WithDeclaration(s, info.value);
    PassThroughDrained(p.bagTopics, s, item, info.value);
    if m.topic !in s.declared {
      DeclareKeepsSinkFit(p, s, info.value);
    }
    WriteKeepsSinkFit(p, declared, Wrote(item.topic, item.stamp, item.payload, item.kind),
                      Drained(p.bagTopics, s, item).stats);
  }

  /** The sink once a passed-through topic is declared. */
  function WithDeclaration(s: Sink, info: TopicInfo): Sink {
    if info.name in s.declared then s else s.(log := s.log + [Declared(info)], declared := s.declared + {info.name})
  }

  /** Draining a passed-through item declares its topic and writes it. */
  lemma PassThroughDrained(topics: seq<TopicInfo>, s: Sink, item: Item, info: TopicInfo)
    requires item.error.None? && item.passthroughReason != "" && FindTopic(topics, item.topic) == Some(info)
    ensures var declared, after := WithDeclaration(s, info), Drained(topics, s, item);
            && after.log == declared.log + [Wrote(item.topic, item.stamp, item.payload, item.kind)]
            && after.declared == declared.declared
  {
    assert item.topic in s.declared ==> s.declared + {item.topic} == s.declared;
  }

  lemma CopyKeepsSinkFit(p: Pass, s: Sink, m: Message)
    requires PlanFits(p) && SinkFits(p, s) && m in p.bag.messages
    requires m.topic !in p.plan.suppress
    ensures SinkFits(p, s.(log := s.log + [Wrote(m.topic, m.stamp, m.payload, KindOf(p.bagTopics, m.topic))]))
  {
    assert InBag(p.bagTopics, m.topic);
    var info := FindTopic(p.bagTopics, m.topic).value;
    InitialDeclarations(p, info);
    WriteKeepsSinkFit(p, s, Wrote(m.topic, m.stamp, m.payload, KindOf(p.bagTopics, m.topic)), s.stats);
  }

  lemma {:induction false} SyncAfterFits(p: Pass, n: nat)
    requires PlanFits(p) && n <= |p.bag.messages|
    ensures SinkFits(p, SyncAfter(p, n).sink)
  {
    if n == 0 {
      InitialSinkFits(p);
    } else {
      SyncAfterFits(p, n - 1);
      SyncStepKeepsSinkFit(p, SyncAfter(p, n - 1), p.bag.messages[n - 1]);
    }
  }

  lemma SyncStepKeepsSinkFit(p: Pass, before: Outcome, m: Message)
    requires PlanFits(p) && SinkFits(p, before.sink) && m in p.bag.messages
    ensures SinkFits(p, SyncStep(p, before, m).sink)
  {
    if before.Running? {
      if Selected(p, m) {
        if ItemOf(p, m).error.None? {
          DrainKeepsSinkFit(p, before.sink, m);
        }
      } else if m.topic !in p.plan.suppress {
        CopyKeepsSinkFit(p, before.sink, m);
      }
    }
  }

  /** A pass under an accepted plan leaves a consistent output bag, whatever mix of messages it
      transforms, copies and passes through, synchronously or on threads. */
  lemma AcceptedPassIsConsistent(p: Pass, r: Request, inputs: seq<TopicInfo>, states: seq<State>, steps: seq<Step>)
    requires UniqueNames(p.bagTopics) && r.outputKind == p.outputKind
    requires forall m | m in p.bag.messages :: InBag(p.bagTopics, m.topic)
    requires SelectsAsAsked(p.bagTopics, r, inputs) && NamesWell(p.bagTopics, r, inputs)
    requires PlanOf(p.bagTopics, r, inputs, p.plan)
    ensures LogIsConsistent(SyncSink(p).log)
    ensures IsRun(p, states, steps) && Final(states[|steps|]) && !states[|steps|].writerThrew ==>
              LogIsConsistent(states[|steps|].sink.log)
  {
    AcceptedPlanFits(p, r, inputs);
    SyncAfterFits(p, |p.bag.messages|);
    if IsRun(p, states, steps) && Final(states[|steps|]) && !states[|steps|].writerThrew {
      ParallelPassIsSyncPass(p, states, steps);
    }
  }
}
