/** The form aggregate of the domain kernel, its visibility rules, and the publish-time order check over them. */
module Forms {
  import opened Wrappers
  import opened Answers

  datatype CountOp = CountEquals | CountGt | CountGte | CountLt | CountLte

  datatype OrderOp = Gt | Gte | Lt | Lte

  /** `contains` is `ContainsAny` of one option. */
  datatype Condition =
    | Equals(question: string, value: Value)
    | NotEquals(question: string, value: Value)
    | OneOf(question: string, values: seq<Value>)
    | Ordered(question: string, order: OrderOp, bound: Value)
    | Answered(question: string)
    | ContainsAny(question: string, options: seq<string>)
    | And(conditions: seq<Condition>)
    | Or(conditions: seq<Condition>)
    | Not(condition: Condition)
    | AnyInstance(group: string, condition: Condition)
    | EveryInstance(group: string, condition: Condition)
    | InstanceCount(group: string, compare: CountOp, count: nat)

  datatype Target = OfStep(step: string) | OfQuestion(question: string)

  datatype Rule = Rule(id: string, when: Condition, show: seq<Target>)

  datatype Item = Plain(question: string) | Repeat(group: string, members: seq<string>)

  datatype Step = Step(id: string, items: seq<Item>)

  datatype Form = Form(steps: seq<Step>, rules: seq<Rule>)

  // ----- document order -----

  datatype Position = Position(step: string, question: string, group: Option<string>)

  function MemberPositions(members: seq<string>, step: string, group: string): (r: seq<Position>)
    ensures |r| == |members|
    ensures forall i | 0 <= i < |r| :: r[i] == Position(step, members[i], Some(group))
  {
    if members == [] then []
    else [Position(step, members[0], Some(group))] + MemberPositions(members[1..], step, group)
  }

  function ItemPositions(item: Item, step: string): seq<Position> {
    match item
    case Plain(question) => [Position(step, question, None)]
    case Repeat(group, members) => MemberPositions(members, step, group)
  }

  function ItemsPositions(items: seq<Item>, step: string): seq<Position> {
    if items == [] then [] else ItemPositions(items[0], step) + ItemsPositions(items[1..], step)
  }

  function StepPositions(step: Step): seq<Position> {
    ItemsPositions(step.items, step.id)
  }

  function Order(steps: seq<Step>): seq<Position> {
    if steps == [] then [] else StepPositions(steps[0]) + Order(steps[1..])
  }

  function DocumentOrder(form: Form): seq<Position> {
    Order(form.steps)
  }

  // Where a place of the form stands in the document, by counting.

  function ItemSize(item: Item): nat {
    match item
    case Plain(_) => 1
    case Repeat(_, members) => |members|
  }

  function ItemsSize(items: seq<Item>): nat {
    if items == [] then 0 else ItemSize(items[0]) + ItemsSize(items[1..])
  }

  function StepsSize(steps: seq<Step>): nat {
    if steps == [] then 0 else ItemsSize(steps[0].items) + StepsSize(steps[1..])
  }

  lemma ItemIsCounted(item: Item, step: string)
    ensures |ItemPositions(item, step)| == ItemSize(item)
  {
  }

  lemma {:induction false} ItemAt(items: seq<Item>, step: string, j: nat, m: nat)
    requires j < |items| && m < ItemSize(items[j])
    ensures ItemsSize(items[..j]) + m < |ItemsPositions(items, step)| == ItemsSize(items)
    ensures ItemsPositions(items, step)[ItemsSize(items[..j]) + m] == ItemPositions(items[j], step)[m]
  {
    hide ItemPositions, ItemSize;
    ItemsAreCounted(items, step);
    ItemIsCounted(items[0], step);
    if j > 0 {
      assert items[..j][1..] == items[1..][..j - 1] && items[..j][0] == items[0];
      ItemAt(items[1..], step, j - 1, m);
    }
  }

  lemma {:induction false} ItemsAreCounted(items: seq<Item>, step: string)
    ensures |ItemsPositions(items, step)| == ItemsSize(items)
  {
    if items != [] {
      ItemIsCounted(items[0], step);
      ItemsAreCounted(items[1..], step);
    }
  }

  lemma {:induction false} StepsAreCounted(steps: seq<Step>)
    ensures |Order(steps)| == StepsSize(steps)
  {
    if steps != [] {
      ItemsAreCounted(steps[0].items, steps[0].id);
      StepsAreCounted(steps[1..]);
    }
  }

  lemma {:induction false} StepAt(steps: seq<Step>, i: nat, k: nat)
    requires i < |steps| && k < |StepPositions(steps[i])|
    ensures StepsSize(steps[..i]) + k < |Order(steps)|
    ensures Order(steps)[StepsSize(steps[..i]) + k] == StepPositions(steps[i])[k]
  {
    hide ItemsSize, StepPositions;
    if i > 0 {
      FirstStepSize(steps);
      assert steps[..i][1..] == steps[1..][..i - 1] && steps[..i][0] == steps[0];
      StepAt(steps[1..], i - 1, k);
    }
  }

  lemma FirstStepSize(steps: seq<Step>)
    requires steps != []
    ensures |StepPositions(steps[0])| == ItemsSize(steps[0].items)
  {
    ItemsAreCounted(steps[0].items, steps[0].id);
  }

  /** The document order counts through the steps, their items and the members of groups, leaving none out. */
  lemma {:induction false} DocumentOrderCounts(steps: seq<Step>, i: nat, j: nat, m: nat)
    requires i < |steps| && j < |steps[i].items| && m < ItemSize(steps[i].items[j])
    ensures var at := StepsSize(steps[..i]) + ItemsSize(steps[i].items[..j]) + m;
            && at < |Order(steps)| == StepsSize(steps)
            && Order(steps)[at] == (match steps[i].items[j]
                                    case Plain(question) => Position(steps[i].id, question, None)
                                    case Repeat(group, members) => Position(steps[i].id, members[m], Some(group)))
  {
    hide ItemsSize, StepsSize, Order, ItemsPositions;
    StepsAreCounted(steps);
    ItemAt(steps[i].items, steps[i].id, j, m);
    StepAt(steps, i, ItemsSize(steps[i].items[..j]) + m);
  }

  /** What parsing a form demands: no question pinned twice, and no step or group without content. */
  predicate WellFormed(form: Form) {
    var order := DocumentOrder(form);
    && (forall i, j | 0 <= i < j < |order| :: order[i].question != order[j].question)
    && (forall step | step in form.steps ::
          step.items != [] && forall item | item in step.items :: item.Repeat? ==> item.members != [])
  }

  // ----- what a rule reads and what it shows -----

  function Refs(c: Condition): set<string>
    decreases c
  {
    match c
    case And(conditions) => AllRefs(conditions)
    case Or(conditions) => AllRefs(conditions)
    case Not(condition) => Refs(condition)
    case AnyInstance(_, condition) => Refs(condition)
    case EveryInstance(_, condition) => Refs(condition)
    case InstanceCount(_, _, _) => {}
    case _ => {c.question}
  }

  function AllRefs(cs: seq<Condition>): set<string>
    decreases cs
  {
    if cs == [] then {} else Refs(cs[0]) + AllRefs(cs[1..])
  }

  function GroupRefs(c: Condition): set<string>
    decreases c
  {
    match c
    case And(conditions) => AllGroupRefs(conditions)
    case Or(conditions) => AllGroupRefs(conditions)
    case Not(condition) => GroupRefs(condition)
    case AnyInstance(group, condition) => {group} + GroupRefs(condition)
    case EveryInstance(group, condition) => {group} + GroupRefs(condition)
    case InstanceCount(group, _, _) => {group}
    case _ => {}
  }

  function AllGroupRefs(cs: seq<Condition>): set<string>
    decreases cs
  {
    if cs == [] then {} else GroupRefs(cs[0]) + AllGroupRefs(cs[1..])
  }

  /** The condition kinds that read one question. */
  predicate IsLeaf(c: Condition) {
    c.Equals? || c.NotEquals? || c.OneOf? || c.Ordered? || c.Answered? || c.ContainsAny?
  }

  /** The condition itself, or one somewhere inside it. */
  ghost predicate Occurs(part: Condition, c: Condition)
    decreases c
  {
    || part == c
    || match c
       case And(conditions) => exists i | 0 <= i < |conditions| :: Occurs(part, conditions[i])
       case Or(conditions) => exists i | 0 <= i < |conditions| :: Occurs(part, conditions[i])
       case Not(condition) => Occurs(part, condition)
       case AnyInstance(_, condition) => Occurs(part, condition)
       case EveryInstance(_, condition) => Occurs(part, condition)
       case _ => false
  }

  ghost predicate OccursInOne(part: Condition, cs: seq<Condition>) {
    exists i | 0 <= i < |cs| :: Occurs(part, cs[i])
  }

  lemma OccursInFirstOrRest(part: Condition, cs: seq<Condition>)
    requires cs != []
    ensures OccursInOne(part, cs) <==> Occurs(part, cs[0]) || OccursInOne(part, cs[1..])
  {
    if i :| 0 <= i < |cs[1..]| && Occurs(part, cs[1..][i]) {
      assert cs[i + 1] == cs[1..][i];
    }
    if i :| 0 < i < |cs| && Occurs(part, cs[i]) {
      assert cs[1..][i - 1] == cs[i];
    }
  }

  predicate ReadsGroup(c: Condition, group: string) {
    (c.AnyInstance? || c.EveryInstance? || c.InstanceCount?) && c.group == group
  }

  ghost predicate ReadByALeaf(question: string, c: Condition) {
    exists leaf :: Occurs(leaf, c) && IsLeaf(leaf) && leaf.question == question
  }

  ghost predicate ReadByAnOperator(group: string, c: Condition) {
    exists part :: Occurs(part, c) && ReadsGroup(part, group)
  }

  /** A condition references exactly the questions of its leaves and the groups of its whole-group operators. */
  lemma {:induction false} ReferencesAreTheParts(c: Condition, id: string)
    ensures id in Refs(c) <==> ReadByALeaf(id, c)
    ensures id in GroupRefs(c) <==> ReadByAnOperator(id, c)
    decreases c
  {
    match c
    case And(conditions) => AllReferencesAreTheParts(conditions, id); PartsOfList(c, conditions, id);
    case Or(conditions) => AllReferencesAreTheParts(conditions, id); PartsOfList(c, conditions, id);
    case Not(condition) => ReferencesAreTheParts(condition, id); PartsOfBody(c, condition, id);
    case AnyInstance(_, condition) => ReferencesAreTheParts(condition, id); PartsOfBody(c, condition, id);
    case EveryInstance(_, condition) => ReferencesAreTheParts(condition, id); PartsOfBody(c, condition, id);
    case _ => assert Occurs(c, c);
  }

  lemma PartsOfList(c: Condition, conditions: seq<Condition>, id: string)
    requires c == And(conditions) || c == Or(conditions)
    ensures ReadByALeaf(id, c) <==> exists leaf :: OccursInOne(leaf, conditions) && IsLeaf(leaf) && leaf.question == id
    ensures ReadByAnOperator(id, c) <==> exists part :: OccursInOne(part, conditions) && ReadsGroup(part, id)
  {
    assert forall part :: Occurs(part, c) <==> part == c || OccursInOne(part, conditions);
  }

  lemma PartsOfBody(c: Condition, condition: Condition, id: string)
    requires (c.Not? || c.AnyInstance? || c.EveryInstance?) && c.condition == condition
    ensures ReadByALeaf(id, c) <==> ReadByALeaf(id, condition)
    ensures ReadByAnOperator(id, c) <==> ReadsGroup(c, id) || ReadByAnOperator(id, condition)
  {
    assert forall part :: Occurs(part, c) <==> part == c || Occurs(part, condition);
  }

  lemma {:induction false} AllReferencesAreTheParts(cs: seq<Condition>, id: string)
    ensures id in AllRefs(cs) <==> exists leaf :: OccursInOne(leaf, cs) && IsLeaf(leaf) && leaf.question == id
    ensures id in AllGroupRefs(cs) <==> exists part :: OccursInOne(part, cs) && ReadsGroup(part, id)
    decreases cs
  {
    if cs != [] {
      ReferencesAreTheParts(cs[0], id);
      AllReferencesAreTheParts(cs[1..], id);
      forall part: Condition { OccursInFirstOrRest(part, cs); }
    }
  }

  /** A whole-group operator reads every member of the group. */
  predicate Reads(rule: Rule, p: Position) {
    p.question in Refs(rule.when) || (p.group.Some? && p.group.value in GroupRefs(rule.when))
  }

  predicate Shows(target: Target, p: Position) {
    match target
    case OfStep(step) => p.step == step
    case OfQuestion(question) => p.question == question
  }

  /**
   A position is read exactly when some leaf of the condition is over its question or some whole-group operator is
   over its group, and shown exactly when the target is its question or its step.
   */
  lemma {:induction false} ReadsAndShows(rule: Rule, target: Target, p: Position)
    ensures Reads(rule, p) <==>
            || ReadByALeaf(p.question, rule.when)
            || match p.group { case None => false case Some(group) => ReadByAnOperator(group, rule.when) }
    ensures Shows(target, p) <==> target == OfStep(p.step) || target == OfQuestion(p.question)
  {
    hide ReadByALeaf, ReadByAnOperator, Refs, GroupRefs;
    ReferencesAreTheParts(rule.when, p.question);
    if p.group.Some? {
      ReferencesAreTheParts(rule.when, p.group.value);
    }
  }

  /** Forward-only: everything a rule shows comes strictly after everything it reads. */
  ghost predicate Forward(form: Form) {
    var order := DocumentOrder(form);
    forall rule, target, i, j
      | rule in form.rules && target in rule.show && 0 <= i < |order| && 0 <= j < |order|
      && Reads(rule, order[i]) && Shows(target, order[j]) ::
      i < j
  }

  // ----- the publish check -----

  /** Index of the last position the rule reads, or -1 when it reads none. */
  function LastRead(order: seq<Position>, rule: Rule): (last: int)
    ensures -1 <= last < |order|
    ensures forall i | 0 <= i < |order| && Reads(rule, order[i]) :: i <= last
    ensures last >= 0 ==> Reads(rule, order[last])
  {
    if order == [] then -1
    else if Reads(rule, order[|order| - 1]) then |order| - 1
    else LastRead(order[..|order| - 1], rule)
  }

  /** Index of the first position the target shows, or the length when it shows none. */
  function FirstShown(order: seq<Position>, target: Target): (first: nat)
    ensures first <= |order|
    ensures forall j | 0 <= j < |order| && Shows(target, order[j]) :: first <= j
    ensures first < |order| ==> Shows(target, order[first])
  {
    if order == [] then 0
    else if Shows(target, order[0]) then 0
    else 1 + FirstShown(order[1..], target)
  }

  datatype Finding = BackwardTarget(rule: string, target: Target)

  predicate IsBackward(order: seq<Position>, rule: Rule, target: Target) {
    FirstShown(order, target) <= LastRead(order, rule)
  }

  function BackwardIn(show: seq<Target>, order: seq<Position>, rule: Rule): seq<Finding> {
    if show == [] then []
    else
      var others := BackwardIn(show[..|show| - 1], order, rule);
      var target := show[|show| - 1];
      if IsBackward(order, rule, target) then others + [BackwardTarget(rule.id, target)] else others
  }

  function Backward(rules: seq<Rule>, order: seq<Position>): seq<Finding> {
    if rules == [] then []
    else
      var rule := rules[|rules| - 1];
      Backward(rules[..|rules| - 1], order) + BackwardIn(rule.show, order, rule)
  }

  /** Findings come rule by rule. */
  lemma {:induction false} FindingsFollowTheRules(a: seq<Rule>, b: seq<Rule>, order: seq<Position>)
    ensures Backward(a + b, order) == Backward(a, order) + Backward(b, order)
  {
    hide BackwardIn;
    if b == [] {
      assert a + b == a;
    } else {
      assert (a + b)[..|a + b| - 1] == a + b[..|b| - 1];
      FindingsFollowTheRules(a, b[..|b| - 1], order);
    }
  }

  /** The rule shows something through this target at or before a position it reads. */
  ghost predicate ShowsBehind(order: seq<Position>, rule: Rule, target: Target) {
    exists i, j :: 0 <= j <= i < |order| && Reads(rule, order[i]) && Shows(target, order[j])
  }

  ghost predicate IsReported(form: Form, x: Finding) {
    exists rule, target :: rule in form.rules && target in rule.show &&
                           ShowsBehind(DocumentOrder(form), rule, target) && x == BackwardTarget(rule.id, target)
  }

  /** The backward-target part of `analyzeRuleGraph`. */
  method AnalyzeTargets(form: Form) returns (findings: seq<Finding>)
    ensures forall x :: x in findings <==> IsReported(form, x)
    ensures findings == [] <==> Forward(form)
    ensures findings == Backward(form.rules, DocumentOrder(form))
  {
    hide BackwardIn, Forward, IsReported;
    var order := DocumentOrder(form);
    findings := [];
    for i := 0 to |form.rules|
      invariant findings == Backward(form.rules[..i], order)
    {
      assert form.rules[..i + 1][..i] == form.rules[..i];
      var more := AnalyzeRule(order, form.rules[i]);
      findings := findings + more;
    }
    assert form.rules[..|form.rules|] == form.rules;
    NoFindingIffForward(form);
    forall x ensures x in findings <==> IsReported(form, x) {
      ReportedIff(form, x);
    }
  }

  /** One rule's targets against the last position it reads. */
  method AnalyzeRule(order: seq<Position>, rule: Rule) returns (findings: seq<Finding>)
    ensures findings == BackwardIn(rule.show, order, rule)
  {
    var lastReference := LastRead(order, rule);
    findings := [];
    for k := 0 to |rule.show|
      invariant findings == BackwardIn(rule.show[..k], order, rule)
    {
      assert rule.show[..k + 1][..k] == rule.show[..k];
      if FirstShown(order, rule.show[k]) <= lastReference {
        findings := findings + [BackwardTarget(rule.id, rule.show[k])];
      }
    }
    assert rule.show[..|rule.show|] == rule.show;
  }

  lemma BackwardIffShowsBehind(order: seq<Position>, rule: Rule, target: Target)
    ensures IsBackward(order, rule, target) <==> ShowsBehind(order, rule, target)
  {
    hide Reads, Shows;
    if IsBackward(order, rule, target) {
      var i, j := LastRead(order, rule), FirstShown(order, target);
      assert Reads(rule, order[i]) && Shows(target, order[j]) && j <= i;
    }
  }

  lemma {:induction false} MembersOfBackwardIn(show: seq<Target>, order: seq<Position>, rule: Rule, x: Finding)
    ensures x in BackwardIn(show, order, rule) <==>
            exists target :: target in show && IsBackward(order, rule, target) && x == BackwardTarget(rule.id, target)
  {
    hide IsBackward;
    if show != [] {
      MembersOfBackwardIn(show[..|show| - 1], order, rule, x);
      assert show == show[..|show| - 1] + [show[|show| - 1]];
    }
  }

  lemma {:induction false} MembersOfBackward(rules: seq<Rule>, order: seq<Position>, x: Finding)
    ensures x in Backward(rules, order) <==> exists rule :: rule in rules && x in BackwardIn(rule.show, order, rule)
  {
    hide BackwardIn;
    if rules != [] {
      MembersOfBackward(rules[..|rules| - 1], order, x);
      assert rules == rules[..|rules| - 1] + [rules[|rules| - 1]];
    }
  }

  /** A pair is reported exactly when its target is shown at or before something its rule reads. */
  lemma ReportedIff(form: Form, x: Finding)
    ensures x in Backward(form.rules, DocumentOrder(form)) <==> IsReported(form, x)
  {
    hide Backward, BackwardIn, IsBackward, ShowsBehind;
    var order := DocumentOrder(form);
    MembersOfBackward(form.rules, order, x);
    forall rule: Rule { MembersOfBackwardIn(rule.show, order, rule, x); }
    forall rule: Rule, target: Target { BackwardIffShowsBehind(order, rule, target); }
  }

  lemma {:induction false} NoneBackwardIn(show: seq<Target>, order: seq<Position>, rule: Rule)
    ensures BackwardIn(show, order, rule) == [] <==> forall target | target in show :: !IsBackward(order, rule, target)
  {
    if show == [] {
    } else {
      NoneBackwardIn(show[..|show| - 1], order, rule);
      assert show == show[..|show| - 1] + [show[|show| - 1]];
    }
  }

  lemma {:induction false} NoneBackward(rules: seq<Rule>, order: seq<Position>)
    ensures Backward(rules, order) == [] <==>
            forall rule, target | rule in rules && target in rule.show :: !IsBackward(order, rule, target)
  {
    if rules == [] {
    } else {
      var rule := rules[|rules| - 1];
      NoneBackward(rules[..|rules| - 1], order);
      NoneBackwardIn(rule.show, order, rule);
      assert rules == rules[..|rules| - 1] + [rule];
    }
  }

  /** The published check and the forward-only rule are the same thing. */
  lemma NoFindingIffForward(form: Form)
    ensures Backward(form.rules, DocumentOrder(form)) == [] <==> Forward(form)
  {
    hide Backward, IsBackward, Reads, Shows;
    var order := DocumentOrder(form);
    NoneBackward(form.rules, order);
    forall rule: Rule, target: Target { BackwardIffShowsBehind(order, rule, target); }
  }

  // ----- the reads-to-shows graph -----

  ghost predicate Edge(form: Form, from: nat, to: nat) {
    var order := DocumentOrder(form);
    && from < |order| && to < |order|
    && exists rule, target | rule in form.rules && target in rule.show :: Reads(rule, order[from]) && Shows(target, order[to])
  }

  ghost predicate Walk(form: Form, path: seq<nat>) {
    |path| >= 2 && forall i | 0 <= i < |path| - 1 :: Edge(form, path[i], path[i + 1])
  }

  /** A form with no backward target has no cycle either: every walk through the graph moves down the document. */
  lemma {:induction false} ForwardFormsAreAcyclic(form: Form, path: seq<nat>)
    requires Backward(form.rules, DocumentOrder(form)) == [] && Walk(form, path)
    ensures path[0] < path[|path| - 1]
    decreases |path|
  {
    NoFindingIffForward(form);
    assert Edge(form, path[0], path[1]);
    if |path| > 2 {
      forall i | 0 <= i < |path[1..]| - 1 ensures Edge(form, path[1..][i], path[1..][i + 1]) {
        assert Edge(form, path[i + 1], path[i + 2]);
      }
      ForwardFormsAreAcyclic(form, path[1..]);
    }
  }

  // ----- where document order splits -----

  lemma {:induction false} OrderSplits(steps: seq<Step>, k: nat)
    requires k <= |steps|
    ensures Order(steps) == Order(steps[..k]) + Order(steps[k..])
  {
    if k == 0 {
      assert steps[..0] == [] && steps[0..] == steps;
    } else {
      OrderSplits(steps[1..], k - 1);
      assert steps[..k][1..] == steps[1..][..k - 1] && steps[1..][k - 1..] == steps[k..];
    }
  }

  lemma {:induction false} PositionsOfItems(items: seq<Item>, step: string)
    ensures forall p | p in ItemsPositions(items, step) :: p.step == step
    ensures items != [] && (items[0].Repeat? ==> items[0].members != []) ==> ItemsPositions(items, step) != []
  {
    if items == [] {
    } else {
      PositionsOfItems(items[1..], step);
    }
  }
}
