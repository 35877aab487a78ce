/** The rule evaluator: one forward pass in document order, and why forward-only forms need no more than one. */
module Evaluation {
  import opened Wrappers
  import opened Answers
  import opened Forms

  datatype Key = Key(question: string, instance: Option<string>)

  /** Live instances per group, in roster order, and the current answers. */
  datatype World = World(rosters: map<string, seq<string>>, answers: map<Key, Value>)

  datatype EvalError = TypeMismatch(rule: string, question: string)

  /** The instance in scope of each group, as the walk and the whole-group operators put it there. */
  type Scope = map<string, string>

  function Roster(w: World, group: string): seq<string> {
    if group in w.rosters then w.rosters[group] else []
  }

  /** The group a question sits in, if any. */
  function GroupOf(order: seq<Position>, question: string): Option<string> {
    if order == [] then None
    else if order[0].question == question && order[0].group.Some? then order[0].group
    else GroupOf(order[1..], question)
  }

  function KeyOf(form: Form, question: string, scope: Scope): Option<Key> {
    match GroupOf(DocumentOrder(form), question)
    case None => Some(Key(question, None))
    case Some(group) => if group in scope then Some(Key(question, Some(scope[group]))) else None
  }

  /** An answer takes part only when it is not blank, and only once its key is settled visible. */
  function Present(w: World, settled: set<Key>, key: Key): Option<Value> {
    if key in settled && key in w.answers && !IsBlank(w.answers[key]) then Some(w.answers[key]) else None
  }

  function Effective(form: Form, w: World, settled: set<Key>, question: string, scope: Scope): Option<Value> {
    match KeyOf(form, question, scope)
    case None => None
    case Some(key) => Present(w, settled, key)
  }

  predicate CompareCount(compare: CountOp, actual: nat, count: nat) {
    match compare
    case CountEquals => actual == count
    case CountGt => actual > count
    case CountGte => actual >= count
    case CountLt => actual < count
    case CountLte => actual <= count
  }

  predicate OrderHolds(order: OrderOp, ordering: int) {
    match order
    case Gt => ordering > 0
    case Gte => ordering >= 0
    case Lt => ordering < 0
    case Lte => ordering <= 0
  }

  function EvalLeaf(c: Condition, rule: string, answer: Option<Value>): Result<bool, EvalError>
    requires IsLeaf(c)
  {
    match c
    case Answered(_) => Ok(answer.Some?)
    case Equals(_, value) => Ok(answer.Some? && answer.value == value)
    case NotEquals(_, value) => Ok(answer.Some? && answer.value != value)
    case OneOf(_, values) => Ok(answer.Some? && answer.value in values)
    case Ordered(question, order, bound) =>
      if answer.None? then Ok(false)
      else (match Compare(answer.value, bound)
            case None => Err(TypeMismatch(rule, question))
            case Some(ordering) => Ok(OrderHolds(order, ordering)))
    case ContainsAny(question, options) =>
      if answer.None? then Ok(false)
      else if !answer.value.ChoiceValue? then Err(TypeMismatch(rule, question))
      else Ok(exists option | option in options :: option in answer.value.options)
  }

  function Eval(c: Condition, rule: string, form: Form, w: World, settled: set<Key>, scope: Scope): Result<bool, EvalError>
    decreases c, 0
  {
    match c
    case And(conditions) => EvalAnd(conditions, rule, form, w, settled, scope)
    case Or(conditions) => EvalOr(conditions, rule, form, w, settled, scope)
    case Not(condition) =>
      (match Eval(condition, rule, form, w, settled, scope)
       case Err(e) => Err(e)
       case Ok(b) => Ok(!b))
    case AnyInstance(group, condition) =>
      EvalAny(condition, Roster(w, group), group, rule, form, w, settled, scope)
    case EveryInstance(group, condition) =>
      if Roster(w, group) == [] then Ok(false)
      else EvalEvery(condition, Roster(w, group), group, rule, form, w, settled, scope)
    case InstanceCount(group, compare, count) => Ok(CompareCount(compare, |Roster(w, group)|, count))
    case _ => EvalLeaf(c, rule, Effective(form, w, settled, c.question, scope))
  }

  /** Left to right, stopping at the first child that is false or an error. */
  function EvalAnd(cs: seq<Condition>, rule: string, form: Form, w: World, settled: set<Key>, scope: Scope):
    Result<bool, EvalError>
    decreases cs, 0
  {
    if cs == [] then Ok(true)
    else
      var outcome := Eval(cs[0], rule, form, w, settled, scope);
      if outcome == Ok(true) then EvalAnd(cs[1..], rule, form, w, settled, scope) else outcome
  }

  function EvalOr(cs: seq<Condition>, rule: string, form: Form, w: World, settled: set<Key>, scope: Scope):
    Result<bool, EvalError>
    decreases cs, 0
  {
    if cs == [] then Ok(false)
    else
      var outcome := Eval(cs[0], rule, form, w, settled, scope);
      if outcome == Ok(false) then EvalOr(cs[1..], rule, form, w, settled, scope) else outcome
  }

  function EvalAny(c: Condition, live: seq<string>, group: string,
    rule: string, form: Form, w: World, settled: set<Key>, scope: Scope): Result<bool, EvalError>
    decreases c, |live|
  {
    if live == [] then Ok(false)
    else
      var outcome := Eval(c, rule, form, w, settled, scope[group := live[0]]);
      if outcome == Ok(false) then EvalAny(c, live[1..], group, rule, form, w, settled, scope) else outcome
  }

  function EvalEvery(c: Condition, live: seq<string>, group: string,
    rule: string, form: Form, w: World, settled: set<Key>, scope: Scope): Result<bool, EvalError>
    decreases c, |live|
  {
    if live == [] then Ok(true)
    else
      var outcome := Eval(c, rule, form, w, settled, scope[group := live[0]]);
      if outcome == Ok(true) then EvalEvery(c, live[1..], group, rule, form, w, settled, scope) else outcome
  }

  // ----- gates -----

  /** The rules that show a target, in declaration order, each once. */
  function RulesFor(rules: seq<Rule>, target: Target): seq<Rule> {
    if rules == [] then []
    else if target in rules[0].show then [rules[0]] + RulesFor(rules[1..], target)
    else RulesFor(rules[1..], target)
  }

  lemma {:induction false} RulesForAreTheTargeting(rules: seq<Rule>, target: Target, rule: Rule)
    ensures rule in RulesFor(rules, target) <==> rule in rules && target in rule.show
  {
    if rules != [] {
      RulesForAreTheTargeting(rules[1..], target, rule);
    }
  }

  function AnyRuleTrue(rules: seq<Rule>, form: Form, w: World, settled: set<Key>, scope: Scope): Result<bool, EvalError> {
    if rules == [] then Ok(false)
    else
      var outcome := Eval(rules[0].when, rules[0].id, form, w, settled, scope);
      if outcome == Ok(false) then AnyRuleTrue(rules[1..], form, w, settled, scope) else outcome
  }

  /** An untargeted item is unconditionally visible. */
  function Gate(target: Target, form: Form, w: World, settled: set<Key>, scope: Scope): Result<bool, EvalError> {
    var rules := RulesFor(form.rules, target);
    if rules == [] then Ok(true) else AnyRuleTrue(rules, form, w, settled, scope)
  }

  /** One question to decide: a position, and the live instance it is asked for when it is in a group. */
  datatype Slot = Slot(at: Position, instance: Option<string>)

  function KeyOfSlot(s: Slot): Key { Key(s.at.question, s.instance) }

  function ScopeOf(s: Slot): Scope {
    if s.at.group.Some? && s.instance.Some? then map[s.at.group.value := s.instance.value] else map[]
  }

  function StepGate(step: string, form: Form, w: World, settled: set<Key>): Result<bool, EvalError> {
    Gate(OfStep(step), form, w, settled, map[])
  }

  function SlotGate(s: Slot, form: Form, w: World, settled: set<Key>): Result<bool, EvalError> {
    Gate(OfQuestion(s.at.question), form, w, settled, ScopeOf(s))
  }

  // ----- slots, in document then roster order -----

  function InstanceSlots(p: Position, live: seq<string>): (r: seq<Slot>)
    ensures |r| == |live| && forall i | 0 <= i < |r| :: r[i] == Slot(p, Some(live[i]))
  {
    if live == [] then [] else [Slot(p, Some(live[0]))] + InstanceSlots(p, live[1..])
  }

  function PositionSlots(p: Position, w: World): (r: seq<Slot>)
    ensures forall s | s in r :: s.at == p
  {
    match p.group
    case None => [Slot(p, None)]
    case Some(group) => InstanceSlots(p, Roster(w, group))
  }

  function Slots(ps: seq<Position>, w: World): seq<Slot> {
    if ps == [] then [] else PositionSlots(ps[0], w) + Slots(ps[1..], w)
  }

  function StepSlots(step: Step, w: World): seq<Slot> { Slots(StepPositions(step), w) }

  function AllSlots(steps: seq<Step>, w: World): seq<Slot> {
    if steps == [] then [] else StepSlots(steps[0], w) + AllSlots(steps[1..], w)
  }

  lemma {:induction false} SlotsSitInTheirPositions(ps: seq<Position>, w: World)
    ensures forall s | s in Slots(ps, w) :: s.at in ps
  {
    if ps == [] {
    } else {
      SlotsSitInTheirPositions(ps[1..], w);
    }
  }

  lemma {:induction false} SlotsOfConcat(a: seq<Position>, b: seq<Position>, w: World)
    ensures Slots(a + b, w) == Slots(a, w) + Slots(b, w)
  {
    hide PositionSlots;
    if a == [] {
      assert a + b == b;
    } else {
      SlotsOfConcat(a[1..], b, w);
      assert (a + b)[1..] == a[1..] + b;
      assert (a + b)[0] == a[0];
    }
  }

  lemma {:induction false} AllSlotsInOrder(steps: seq<Step>, w: World)
    ensures AllSlots(steps, w) == Slots(Order(steps), w)
  {
    hide PositionSlots, StepPositions;
    if steps == [] {
    } else {
      AllSlotsInOrder(steps[1..], w);
      SlotsOfConcat(StepPositions(steps[0]), Order(steps[1..]), w);
    }
  }

  // ----- the walk -----

  function Keys(slots: seq<Slot>): set<Key> { set s | s in slots :: KeyOfSlot(s) }

  function Then(done: seq<Slot>, rest: Result<seq<Slot>, EvalError>): Result<seq<Slot>, EvalError> {
    match rest
    case Err(e) => Err(e)
    case Ok(slots) => Ok(done + slots)
  }

  /** The visible ones among the slots of a shown step. */
  function WalkSlots(slots: seq<Slot>, form: Form, w: World, settled: set<Key>): Result<seq<Slot>, EvalError> {
    if slots == [] then Ok([])
    else
      match SlotGate(slots[0], form, w, settled)
      case Err(e) => Err(e)
      case Ok(false) => WalkSlots(slots[1..], form, w, settled)
      case Ok(true) => Then([slots[0]], WalkSlots(slots[1..], form, w, settled + {KeyOfSlot(slots[0])}))
  }

  function WalkStep(step: Step, form: Form, w: World, settled: set<Key>): Result<seq<Slot>, EvalError> {
    match StepGate(step.id, form, w, settled)
    case Err(e) => Err(e)
    case Ok(false) => Ok([])
    case Ok(true) => WalkSlots(StepSlots(step, w), form, w, settled)
  }

  function WalkSteps(steps: seq<Step>, form: Form, w: World, settled: set<Key>): Result<seq<Slot>, EvalError> {
    if steps == [] then Ok([])
    else
      match WalkStep(steps[0], form, w, settled)
      case Err(e) => Err(e)
      case Ok(slots) => Then(slots, WalkSteps(steps[1..], form, w, settled + Keys(slots)))
  }

  /** `visible` of the flow state. */
  function Visible(form: Form, w: World): Result<seq<Slot>, EvalError> {
    WalkSteps(form.steps, form, w, {})
  }

  // ----- what a gate depends on -----

  /** Two readings of rosters and answers that no condition over these questions and groups can tell apart. */
  ghost predicate SameFor(questions: set<string>, groups: set<string>, w1: World, k1: set<Key>, w2: World, k2: set<Key>) {
    && (forall group | group in groups :: Roster(w1, group) == Roster(w2, group))
    && forall key: Key | key.question in questions :: Present(w1, k1, key) == Present(w2, k2, key)
  }

  lemma {:induction false} EvalDependsOnItsReferences(c: Condition, rule: string, form: Form,
    w1: World, k1: set<Key>, w2: World, k2: set<Key>, scope: Scope)
    requires SameFor(Refs(c), GroupRefs(c), w1, k1, w2, k2)
    ensures Eval(c, rule, form, w1, k1, scope) == Eval(c, rule, form, w2, k2, scope)
    decreases c, 0
  {
    match c
    case And(conditions) => AndDependsOnItsReferences(conditions, rule, form, w1, k1, w2, k2, scope);
    case Or(conditions) => OrDependsOnItsReferences(conditions, rule, form, w1, k1, w2, k2, scope);
    case Not(condition) => EvalDependsOnItsReferences(condition, rule, form, w1, k1, w2, k2, scope);
    case AnyInstance(group, condition) =>
      AnyDependsOnItsReferences(condition, Roster(w1, group), group, rule, form, w1, k1, w2, k2, scope);
    case EveryInstance(group, condition) =>
      EveryDependsOnItsReferences(condition, Roster(w1, group), group, rule, form, w1, k1, w2, k2, scope);
    case InstanceCount(_, _, _) =>
    case _ =>
      assert Effective(form, w1, k1, c.question, scope) == Effective(form, w2, k2, c.question, scope);
  }

  lemma {:induction false} AndDependsOnItsReferences(cs: seq<Condition>, rule: string, form: Form,
    w1: World, k1: set<Key>, w2: World, k2: set<Key>, scope: Scope)
    requires SameFor(AllRefs(cs), AllGroupRefs(cs), w1, k1, w2, k2)
    ensures EvalAnd(cs, rule, form, w1, k1, scope) == EvalAnd(cs, rule, form, w2, k2, scope)
    decreases cs, 0
  {
    if cs != [] {
      EvalDependsOnItsReferences(cs[0], rule, form, w1, k1, w2, k2, scope);
      AndDependsOnItsReferences(cs[1..], rule, form, w1, k1, w2, k2, scope);
    }
  }

  lemma {:induction false} OrDependsOnItsReferences(cs: seq<Condition>, rule: string, form: Form,
    w1: World, k1: set<Key>, w2: World, k2: set<Key>, scope: Scope)
    requires SameFor(AllRefs(cs), AllGroupRefs(cs), w1, k1, w2, k2)
    ensures EvalOr(cs, rule, form, w1, k1, scope) == EvalOr(cs, rule, form, w2, k2, scope)
    decreases cs, 0
  {
    if cs != [] {
      EvalDependsOnItsReferences(cs[0], rule, form, w1, k1, w2, k2, scope);
      OrDependsOnItsReferences(cs[1..], rule, form, w1, k1, w2, k2, scope);
    }
  }

  lemma {:induction false} AnyDependsOnItsReferences(c: Condition, live: seq<string>, group: string, rule: string,
    form: Form, w1: World, k1: set<Key>, w2: World, k2: set<Key>, scope: Scope)
    requires SameFor(Refs(c), GroupRefs(c), w1, k1, w2, k2)
    ensures EvalAny(c, live, group, rule, form, w1, k1, scope) == EvalAny(c, live, group, rule, form, w2, k2, scope)
    decreases c, |live|
  {
    if live != [] {
      EvalDependsOnItsReferences(c, rule, form, w1, k1, w2, k2, scope[group := live[0]]);
      AnyDependsOnItsReferences(c, live[1..], group, rule, form, w1, k1, w2, k2, scope);
    }
  }

  lemma {:induction false} EveryDependsOnItsReferences(c: Condition, live: seq<string>, group: string, rule: string,
    form: Form, w1: World, k1: set<Key>, w2: World, k2: set<Key>, scope: Scope)
    requires SameFor(Refs(c), GroupRefs(c), w1, k1, w2, k2)
    ensures EvalEvery(c, live, group, rule, form, w1, k1, scope) == EvalEvery(c, live, group, rule, form, w2, k2, scope)
    decreases c, |live|
  {
    if live != [] {
      EvalDependsOnItsReferences(c, rule, form, w1, k1, w2, k2, scope[group := live[0]]);
      EveryDependsOnItsReferences(c, live[1..], group, rule, form, w1, k1, w2, k2, scope);
    }
  }

  function RefsOf(rules: seq<Rule>): set<string> {
    if rules == [] then {} else Refs(rules[0].when) + RefsOf(rules[1..])
  }

  function GroupRefsOf(rules: seq<Rule>): set<string> {
    if rules == [] then {} else GroupRefs(rules[0].when) + GroupRefsOf(rules[1..])
  }

  /** Every question that some rule showing the target reads. */
  function GateRefs(form: Form, target: Target): set<string> { RefsOf(RulesFor(form.rules, target)) }

  /** Every group that some rule showing the target reads as a whole. */
  function GateGroupRefs(form: Form, target: Target): set<string> { GroupRefsOf(RulesFor(form.rules, target)) }

  lemma {:induction false} RulesDependOnTheirReferences(rules: seq<Rule>, form: Form,
    w1: World, k1: set<Key>, w2: World, k2: set<Key>, scope: Scope)
    requires SameFor(RefsOf(rules), GroupRefsOf(rules), w1, k1, w2, k2)
    ensures AnyRuleTrue(rules, form, w1, k1, scope) == AnyRuleTrue(rules, form, w2, k2, scope)
  {
    if rules != [] {
      EvalDependsOnItsReferences(rules[0].when, rules[0].id, form, w1, k1, w2, k2, scope);
      RulesDependOnTheirReferences(rules[1..], form, w1, k1, w2, k2, scope);
    }
  }

  lemma GateDependsOnItsReferences(target: Target, form: Form,
    w1: World, k1: set<Key>, w2: World, k2: set<Key>, scope: Scope)
    requires SameFor(GateRefs(form, target), GateGroupRefs(form, target), w1, k1, w2, k2)
    ensures Gate(target, form, w1, k1, scope) == Gate(target, form, w2, k2, scope)
  {
    RulesDependOnTheirReferences(RulesFor(form.rules, target), form, w1, k1, w2, k2, scope);
  }

  lemma {:induction false} WhoseReference(rules: seq<Rule>, target: Target, question: string) returns (rule: Rule)
    requires question in RefsOf(RulesFor(rules, target))
    ensures rule in rules && target in rule.show && question in Refs(rule.when)
  {
    if target in rules[0].show && question in Refs(rules[0].when) {
      rule := rules[0];
    } else {
      rule := WhoseReference(rules[1..], target, question);
    }
  }

  lemma {:induction false} WhoseGroupReference(rules: seq<Rule>, target: Target, group: string) returns (rule: Rule)
    requires group in GroupRefsOf(RulesFor(rules, target))
    ensures rule in rules && target in rule.show && group in GroupRefs(rule.when)
  {
    if target in rules[0].show && group in GroupRefs(rules[0].when) {
      rule := rules[0];
    } else {
      rule := WhoseGroupReference(rules[1..], target, group);
    }
  }

  // ----- nothing still to be walked is read -----

  /** No gate of these slots reads a question at or after it. */
  ghost predicate SlotsUnread(slots: seq<Slot>, form: Form) {
    forall i, j | 0 <= i <= j < |slots| ::
      slots[j].at.question !in GateRefs(form, OfQuestion(slots[i].at.question))
  }

  ghost predicate StepsUnread(steps: seq<Step>, form: Form) {
    forall k | 0 <= k < |steps| ::
      forall p | p in Order(steps[k..]) :: p.question !in GateRefs(form, OfStep(steps[k].id))
  }

  ghost predicate PositionsUnread(ps: seq<Position>, form: Form) {
    forall i, j | 0 <= i <= j < |ps| :: ps[j].question !in GateRefs(form, OfQuestion(ps[i].question))
  }

  lemma ForwardPositions(form: Form)
    requires Forward(form)
    ensures PositionsUnread(DocumentOrder(form), form)
  {
    var order := DocumentOrder(form);
    forall i, j | 0 <= i <= j < |order|
      ensures order[j].question !in GateRefs(form, OfQuestion(order[i].question))
    {
      if order[j].question in GateRefs(form, OfQuestion(order[i].question)) {
        var rule := WhoseReference(form.rules, OfQuestion(order[i].question), order[j].question);
        assert Reads(rule, order[j]) && Shows(OfQuestion(order[i].question), order[i]);
        assert false;
      }
    }
  }

  /** A step's positions start where the order of the steps before it ends. */
  lemma StepStarts(form: Form, k: nat)
    requires WellFormed(form) && k < |form.steps|
    ensures var order, first := DocumentOrder(form), |Order(form.steps[..k])|;
            first < |order| && order[first].step == form.steps[k].id && order[first..] == Order(form.steps[k..])
  {
    var step := form.steps[k];
    OrderSplits(form.steps, k);
    PositionsOfItems(step.items, step.id);
    assert Order(form.steps[k..]) == StepPositions(step) + Order(form.steps[k..][1..]);
    assert StepPositions(step)[0] in StepPositions(step);
  }

  lemma ForwardStepAt(form: Form, k: nat, p: Position)
    requires Forward(form) && WellFormed(form) && k < |form.steps| && p in Order(form.steps[k..])
    ensures p.question !in GateRefs(form, OfStep(form.steps[k].id))
  {
    StepStarts(form, k);
    hide WellFormed, DocumentOrder, Order;
    var order, first := DocumentOrder(form), |Order(form.steps[..k])|;
    var n :| 0 <= n < |order[first..]| && order[first..][n] == p;
    assert order[first + n] == p;
    var target := OfStep(form.steps[k].id);
    assert Shows(target, order[first]);
    forall rule | rule in form.rules && target in rule.show ensures p.question !in Refs(rule.when) {
      assert p.question in Refs(rule.when) ==> Reads(rule, order[first + n]);
    }
    UnreadByRules(form.rules, target, p.question);
  }

  lemma {:induction false} UnreadByRules(rules: seq<Rule>, target: Target, question: string)
    requires forall rule | rule in rules && target in rule.show :: question !in Refs(rule.when)
    ensures question !in RefsOf(RulesFor(rules, target))
  {
    if rules != [] {
      UnreadByRules(rules[1..], target, question);
    }
  }

  lemma ForwardSteps(form: Form)
    requires Forward(form) && WellFormed(form)
    ensures StepsUnread(form.steps, form)
  {
    hide Forward, WellFormed, GateRefs, Order;
    forall k, p | 0 <= k < |form.steps| && p in Order(form.steps[k..])
      ensures p.question !in GateRefs(form, OfStep(form.steps[k].id))
    {
      ForwardStepAt(form, k, p);
    }
  }

  lemma {:induction false} UnreadSlots(ps: seq<Position>, form: Form, w: World)
    requires PositionsUnread(ps, form)
    ensures SlotsUnread(Slots(ps, w), form)
  {
    if ps == [] {
    } else {
      var here: seq<Slot> := PositionSlots(ps[0], w);
      var rest: seq<Slot> := Slots(ps[1..], w);
      UnreadSlots(ps[1..], form, w);
      SlotsSitInTheirPositions(ps, w);
      forall i, j | 0 <= i <= j < |here + rest|
        ensures (here + rest)[j].at.question !in GateRefs(form, OfQuestion((here + rest)[i].at.question))
      {
        if i < |here| {
          assert here[i] in here;
          assert (here + rest)[j] in Slots(ps, w);
          var n :| 0 <= n < |ps| && ps[n] == (here + rest)[j].at;
        } else {
          assert (here + rest)[i] == rest[i - |here|] && (here + rest)[j] == rest[j - |here|];
        }
      }
    }
  }

  // ----- the fixpoint reading of visibility -----

  /** What the rules say about a slot when exactly the keys in `shown` are taken to be visible. */
  function Decision(s: Slot, form: Form, w: World, shown: set<Key>): Result<bool, EvalError> {
    match StepGate(s.at.step, form, w, shown)
    case Err(e) => Err(e)
    case Ok(false) => Ok(false)
    case Ok(true) => SlotGate(s, form, w, shown)
  }

  /** A visibility that the rules, read against itself, confirm slot by slot and step by step. */
  ghost predicate SelfConsistent(form: Form, w: World, shown: set<Key>) {
    && shown <= Keys(AllSlots(form.steps, w))
    && (forall step | step in form.steps :: StepGate(step.id, form, w, shown).Ok?)
    && (forall s | s in AllSlots(form.steps, w) :: Decision(s, form, w, shown) == Ok(KeyOfSlot(s) in shown))
  }

  /** The slots of a list whose keys are shown. */
  function Kept(slots: seq<Slot>, shown: set<Key>): seq<Slot> {
    if slots == [] then []
    else if KeyOfSlot(slots[0]) in shown then [slots[0]] + Kept(slots[1..], shown)
    else Kept(slots[1..], shown)
  }

  lemma {:induction false} KeptOfConcat(a: seq<Slot>, b: seq<Slot>, shown: set<Key>)
    ensures Kept(a + b, shown) == Kept(a, shown) + Kept(b, shown)
  {
    if a == [] {
      assert a + b == b;
    } else {
      KeptOfConcat(a[1..], b, shown);
      assert (a + b)[1..] == a[1..] + b && (a + b)[0] == a[0];
    }
  }

  lemma {:induction false} KeptKeys(slots: seq<Slot>, shown: set<Key>)
    ensures Keys(Kept(slots, shown)) == Keys(slots) * shown
  {
    if slots == [] {
    } else {
      KeptKeys(slots[1..], shown);
      KeysOfConcat([slots[0]], slots[1..]);
      assert [slots[0]] + slots[1..] == slots;
      if KeyOfSlot(slots[0]) in shown {
        KeysOfConcat([slots[0]], Kept(slots[1..], shown));
      }
    }
  }

  lemma KeysOfConcat(a: seq<Slot>, b: seq<Slot>)
    ensures Keys(a + b) == Keys(a) + Keys(b)
  {
    forall key ensures key in Keys(a + b) <==> key in Keys(a) || key in Keys(b) {
      if key in Keys(a) {
        var s :| s in a && KeyOfSlot(s) == key;
        assert s in a + b;
      }
      if key in Keys(b) {
        var s :| s in b && KeyOfSlot(s) == key;
        assert s in a + b;
      }
    }
  }

  /** The walk has settled everything of `shown` except, perhaps, keys of slots it has not reached. */
  ghost predicate Reached(settled: set<Key>, shown: set<Key>, ahead: seq<Slot>) {
    settled <= shown <= settled + Keys(ahead)
  }

  lemma AheadIsUnread(ahead: seq<Slot>, form: Form)
    requires ahead != [] && SlotsUnread(ahead, form)
    ensures forall key | key in Keys(ahead) :: key.question !in GateRefs(form, OfQuestion(ahead[0].at.question))
  {
    forall s | s in ahead ensures s.at.question !in GateRefs(form, OfQuestion(ahead[0].at.question)) {
      var j :| 0 <= j < |ahead| && ahead[j] == s;
    }
  }

  lemma GateAlreadyDecided(ahead: seq<Slot>, form: Form, w: World, settled: set<Key>, shown: set<Key>)
    requires ahead != [] && SlotsUnread(ahead, form) && Reached(settled, shown, ahead)
    ensures SlotGate(ahead[0], form, w, settled) == SlotGate(ahead[0], form, w, shown)
  {
    AheadIsUnread(ahead, form);
    var target := OfQuestion(ahead[0].at.question);
    assert SameFor(GateRefs(form, target), GateGroupRefs(form, target), w, settled, w, shown);
    GateDependsOnItsReferences(target, form, w, settled, w, shown, ScopeOf(ahead[0]));
  }

  lemma {:induction false} StepsAheadAreUnread(steps: seq<Step>, form: Form, w: World)
    requires steps != [] && StepsUnread(steps, form)
    ensures forall key | key in Keys(AllSlots(steps, w)) :: key.question !in GateRefs(form, OfStep(steps[0].id))
  {
    AllSlotsInOrder(steps, w);
    SlotsSitInTheirPositions(Order(steps), w);
    assert steps[0..] == steps;
    forall s | s in AllSlots(steps, w) ensures s.at.question !in GateRefs(form, OfStep(steps[0].id)) {
      assert s.at in Order(steps[0..]);
    }
  }

  lemma {:induction false} StepGateAlreadyDecided(steps: seq<Step>, form: Form, w: World, settled: set<Key>, shown: set<Key>)
    requires steps != [] && StepsUnread(steps, form) && Reached(settled, shown, AllSlots(steps, w))
    ensures StepGate(steps[0].id, form, w, settled) == StepGate(steps[0].id, form, w, shown)
  {
    StepsAheadAreUnread(steps, form, w);
    var target := OfStep(steps[0].id);
    assert SameFor(GateRefs(form, target), GateGroupRefs(form, target), w, settled, w, shown);
    GateDependsOnItsReferences(target, form, w, settled, w, shown, map[]);
  }

  lemma ReachedPast(ahead: seq<Slot>, settled: set<Key>, shown: set<Key>)
    requires ahead != [] && Reached(settled, shown, ahead)
    ensures KeyOfSlot(ahead[0]) in shown ==> Reached(settled + {KeyOfSlot(ahead[0])}, shown, ahead[1..])
    ensures KeyOfSlot(ahead[0]) !in shown ==> Reached(settled, shown, ahead[1..])
  {
    KeysOfConcat([ahead[0]], ahead[1..]);
    assert [ahead[0]] + ahead[1..] == ahead;
  }

  /** The walk follows any visibility its gates confirm. */
  lemma {:induction false} WalkFollows(slots: seq<Slot>, later: seq<Slot>, form: Form, w: World,
    settled: set<Key>, shown: set<Key>)
    requires SlotsUnread(slots + later, form) && Reached(settled, shown, slots + later)
    requires forall s | s in slots :: SlotGate(s, form, w, shown) == Ok(KeyOfSlot(s) in shown)
    ensures WalkSlots(slots, form, w, settled) == Ok(Kept(slots, shown))
    ensures Reached(settled + Keys(Kept(slots, shown)), shown, later)
  {
    hide SlotGate, SlotsUnread;
    if slots == [] {
      assert slots + later == later;
      assert settled + Keys([]) == settled;
    } else {
      var s, ahead := slots[0], slots + later;
      GateAlreadyDecided(ahead, form, w, settled, shown);
      UnreadTail(ahead, form);
      ReachedPast(ahead, settled, shown);
      assert ahead[0] == s && ahead[1..] == slots[1..] + later;
      if KeyOfSlot(s) in shown {
        WalkFollows(slots[1..], later, form, w, settled + {KeyOfSlot(s)}, shown);
        KeysOfConcat([s], Kept(slots[1..], shown));
        assert settled + {KeyOfSlot(s)} + Keys(Kept(slots[1..], shown)) == settled + Keys(Kept(slots, shown));
      } else {
        WalkFollows(slots[1..], later, form, w, settled, shown);
      }
    }
  }

  lemma UnreadTail(slots: seq<Slot>, form: Form)
    requires slots != [] && SlotsUnread(slots, form)
    ensures SlotsUnread(slots[1..], form)
  {
    forall i, j | 0 <= i <= j < |slots[1..]|
      ensures slots[1..][j].at.question !in GateRefs(form, OfQuestion(slots[1..][i].at.question))
    {
      assert slots[i + 1] == slots[1..][i] && slots[j + 1] == slots[1..][j];
    }
  }

  lemma {:induction false} UnreadSuffix(slots: seq<Slot>, later: seq<Slot>, form: Form)
    requires SlotsUnread(slots + later, form)
    ensures SlotsUnread(later, form)
  {
    if slots == [] {
      assert slots + later == later;
    } else {
      UnreadTail(slots + later, form);
      assert (slots + later)[1..] == slots[1..] + later;
      UnreadSuffix(slots[1..], later, form);
    }
  }

  lemma UnreadStepsTail(steps: seq<Step>, form: Form)
    requires steps != [] && StepsUnread(steps, form)
    ensures StepsUnread(steps[1..], form)
  {
    forall k, p | 0 <= k < |steps[1..]| && p in Order(steps[1..][k..])
      ensures p.question !in GateRefs(form, OfStep(steps[1..][k].id))
    {
      assert steps[1..][k..] == steps[k + 1..] && steps[1..][k] == steps[k + 1];
    }
  }

  lemma SlotsOfStep(step: Step, w: World)
    ensures forall s | s in StepSlots(step, w) :: s.at.step == step.id
  {
    PositionsOfItems(step.items, step.id);
    SlotsSitInTheirPositions(StepPositions(step), w);
  }

  lemma {:induction false} KeptNothing(slots: seq<Slot>, shown: set<Key>)
    requires forall s | s in slots :: KeyOfSlot(s) !in shown
    ensures Kept(slots, shown) == []
  {
    if slots != [] {
      KeptNothing(slots[1..], shown);
    }
  }

  lemma {:induction false} StepsWalkFollows(steps: seq<Step>, form: Form, w: World, settled: set<Key>, shown: set<Key>)
    requires StepsUnread(steps, form) && SlotsUnread(AllSlots(steps, w), form)
    requires Reached(settled, shown, AllSlots(steps, w))
    requires forall step | step in steps :: StepGate(step.id, form, w, shown).Ok?
    requires forall s | s in AllSlots(steps, w) :: Decision(s, form, w, shown) == Ok(KeyOfSlot(s) in shown)
    ensures WalkSteps(steps, form, w, settled) == Ok(Kept(AllSlots(steps, w), shown))
  {
    hide StepGate, SlotGate, SlotsUnread, StepsUnread, StepSlots;
    if steps == [] {
    } else {
      var step, slots, later := steps[0], StepSlots(steps[0], w), AllSlots(steps[1..], w);
      StepGateAlreadyDecided(steps, form, w, settled, shown);
      UnreadStepsTail(steps, form);
      UnreadSuffix(slots, later, form);
      SlotsOfStep(step, w);
      KeptOfConcat(slots, later, shown);
      if StepGate(step.id, form, w, shown) == Ok(true) {
        WalkFollows(slots, later, form, w, settled, shown);
        StepsWalkFollows(steps[1..], form, w, settled + Keys(Kept(slots, shown)), shown);
      } else {
        forall s | s in slots ensures KeyOfSlot(s) !in shown {
          assert s in AllSlots(steps, w);
        }
        KeptNothing(slots, shown);
        KeysOfConcat(slots, later);
        assert settled + Keys([]) == settled;
        StepsWalkFollows(steps[1..], form, w, settled, shown);
      }
    }
  }

  lemma {:induction false} WalkKeepsSlots(slots: seq<Slot>, form: Form, w: World, settled: set<Key>)
    requires WalkSlots(slots, form, w, settled).Ok?
    ensures forall s | s in WalkSlots(slots, form, w, settled).value :: s in slots
    ensures Keys(WalkSlots(slots, form, w, settled).value) <= Keys(slots)
  {
    hide SlotGate;
    if slots == [] {
    } else if SlotGate(slots[0], form, w, settled) == Ok(true) {
      WalkKeepsSlots(slots[1..], form, w, settled + {KeyOfSlot(slots[0])});
    } else {
      WalkKeepsSlots(slots[1..], form, w, settled);
    }
  }

  /** What the walk decides about a slot is what the rules say at its end. */
  lemma {:induction false} WalkSettles(slots: seq<Slot>, later: seq<Slot>, form: Form, w: World,
    settled: set<Key>, shown: set<Key>, visible: seq<Slot>, tail: set<Key>)
    requires SlotsUnread(slots + later, form)
    requires WalkSlots(slots, form, w, settled) == Ok(visible)
    requires shown == settled + Keys(visible) + tail && tail <= Keys(later)
    ensures forall s | s in slots :: SlotGate(s, form, w, shown) == Ok(s in visible)
  {
    hide SlotGate, SlotsUnread;
    if slots == [] {
    } else {
      var s, ahead := slots[0], slots + later;
      WalkKeepsSlots(slots, form, w, settled);
      KeysOfConcat(slots, later);
      GateAlreadyDecided(ahead, form, w, settled, shown);
      UnreadTail(ahead, form);
      assert ahead[0] == s && ahead[1..] == slots[1..] + later;
      if SlotGate(s, form, w, settled) == Ok(true) {
        var rest := WalkSlots(slots[1..], form, w, settled + {KeyOfSlot(s)}).value;
        KeysOfConcat([s], rest);
        WalkSettles(slots[1..], later, form, w, settled + {KeyOfSlot(s)}, shown, rest, tail);
      } else {
        WalkKeepsSlots(slots[1..], form, w, settled);
        WalkSettles(slots[1..], later, form, w, settled, shown, visible, tail);
      }
    }
  }

  lemma {:induction false} StepsWalkKeepsSlots(steps: seq<Step>, form: Form, w: World, settled: set<Key>)
    requires WalkSteps(steps, form, w, settled).Ok?
    ensures forall s | s in WalkSteps(steps, form, w, settled).value :: s in AllSlots(steps, w)
  {
    hide StepGate, StepSlots;
    if steps == [] {
    } else {
      var here := WalkStep(steps[0], form, w, settled).value;
      if StepGate(steps[0].id, form, w, settled) == Ok(true) {
        WalkKeepsSlots(StepSlots(steps[0], w), form, w, settled);
      }
      StepsWalkKeepsSlots(steps[1..], form, w, settled + Keys(here));
    }
  }

  lemma {:induction false} StepsWalkReaches(steps: seq<Step>, form: Form, w: World, settled: set<Key>, shown: set<Key>)
    requires WalkSteps(steps, form, w, settled).Ok?
    requires shown == settled + Keys(WalkSteps(steps, form, w, settled).value)
    ensures Keys(WalkSteps(steps, form, w, settled).value) <= Keys(AllSlots(steps, w))
    ensures Reached(settled, shown, AllSlots(steps, w))
    ensures forall s | s in WalkSteps(steps, form, w, settled).value :: s in AllSlots(steps, w)
  {
    hide StepGate, StepSlots, WalkSteps, AllSlots;
    StepsWalkKeepsSlots(steps, form, w, settled);
  }

  lemma StepWalkSettles(step: Step, later: seq<Slot>, form: Form, w: World,
    settled: set<Key>, shown: set<Key>, here: seq<Slot>, tail: set<Key>)
    requires SlotsUnread(StepSlots(step, w) + later, form)
    requires StepGate(step.id, form, w, settled) == StepGate(step.id, form, w, shown)
    requires WalkStep(step, form, w, settled) == Ok(here)
    requires shown == settled + Keys(here) + tail && tail <= Keys(later)
    ensures forall s | s in StepSlots(step, w) :: Decision(s, form, w, shown) == Ok(s in here)
    ensures forall s | s in here :: s in StepSlots(step, w)
  {
    hide StepGate, SlotGate, SlotsUnread, StepSlots;
    SlotsOfStep(step, w);
    if StepGate(step.id, form, w, settled) == Ok(true) {
      WalkSettles(StepSlots(step, w), later, form, w, settled, shown, here, tail);
      WalkKeepsSlots(StepSlots(step, w), form, w, settled);
    }
  }

  lemma {:induction false} StepsWalkSettles(steps: seq<Step>, form: Form, w: World,
    settled: set<Key>, shown: set<Key>, visible: seq<Slot>)
    requires StepsUnread(steps, form) && SlotsUnread(AllSlots(steps, w), form)
    requires WalkSteps(steps, form, w, settled) == Ok(visible) && shown == settled + Keys(visible)
    ensures forall step | step in steps :: StepGate(step.id, form, w, shown).Ok?
    ensures forall s | s in AllSlots(steps, w) :: Decision(s, form, w, shown) == Ok(s in visible)
  {
    hide StepGate, SlotGate, SlotsUnread, StepsUnread, StepSlots, Decision, Keys;
    if steps == [] {
    } else {
      var step, slots, later := steps[0], StepSlots(steps[0], w), AllSlots(steps[1..], w);
      var here := WalkStep(step, form, w, settled).value;
      var rest := WalkSteps(steps[1..], form, w, settled + Keys(here)).value;
      KeysOfConcat(here, rest);
      assert settled + Keys(here) + Keys(rest) == shown;
      UnreadStepsTail(steps, form);
      UnreadSuffix(slots, later, form);
      StepsWalkSettles(steps[1..], form, w, settled + Keys(here), shown, rest);
      StepsWalkReaches(steps, form, w, settled, shown);
      StepsWalkReaches(steps[1..], form, w, settled + Keys(here), shown);
      StepGateAlreadyDecided(steps, form, w, settled, shown);
      StepWalkSettles(step, later, form, w, settled, shown, here, Keys(rest));
      assert visible == here + rest;
      forall s | s in AllSlots(steps, w) ensures Decision(s, form, w, shown) == Ok(s in visible) {
        assert s in visible <==> s in here || s in rest;
        if s in later {
        } else {
          assert s in slots;
        }
      }
    }
  }

  lemma {:induction false} SameKeySameSlot(form: Form, w: World, a: Slot, b: Slot)
    requires WellFormed(form) && a in AllSlots(form.steps, w) && b in AllSlots(form.steps, w)
    requires KeyOfSlot(a) == KeyOfSlot(b)
    ensures a == b
  {
    AllSlotsInOrder(form.steps, w);
    SlotsSitInTheirPositions(DocumentOrder(form), w);
  }

  /**
   * In a forward-only form the single pass finds the one visibility that its own rules confirm: it succeeds
   * exactly when there is one, there is never a second, and it lists it in document then roster order.
   */
  lemma {:induction false} ForwardPassFindsTheOnlyFixpoint(form: Form, w: World, shown: set<Key>)
    requires WellFormed(form) && Backward(form.rules, DocumentOrder(form)) == []
    ensures SelfConsistent(form, w, shown) <==>
            (Visible(form, w).Ok? && Keys(Visible(form, w).value) == shown)
    ensures SelfConsistent(form, w, shown) ==> Visible(form, w) == Ok(Kept(AllSlots(form.steps, w), shown))
  {
    hide StepGate, SlotGate, SlotsUnread, StepsUnread, Backward;
    var slots := AllSlots(form.steps, w);
    NoFindingIffForward(form);
    ForwardSteps(form);
    ForwardPositions(form);
    UnreadSlots(DocumentOrder(form), form, w);
    AllSlotsInOrder(form.steps, w);
    if SelfConsistent(form, w, shown) {
      assert {} + Keys(slots) == Keys(slots);
      StepsWalkFollows(form.steps, form, w, {}, shown);
      KeptKeys(slots, shown);
    }
    if Visible(form, w).Ok? && Keys(Visible(form, w).value) == shown {
      var visible := Visible(form, w).value;
      assert {} + Keys(visible) == shown;
      StepsWalkSettles(form.steps, form, w, {}, shown, visible);
      StepsWalkKeepsSlots(form.steps, form, w, {});
      forall s | s in slots ensures s in visible <==> KeyOfSlot(s) in shown {
        if KeyOfSlot(s) in shown {
          var t :| t in visible && KeyOfSlot(t) == KeyOfSlot(s);
          SameKeySameSlot(form, w, s, t);
        }
      }
    }
  }
}
