/** What the evaluator's operators, gates and slots mean, stated without following its evaluation order. */
module Semantics {
  import opened Wrappers
  import opened Answers
  import opened Forms
  import opened Evaluation
  import opened RuleTypes

  // ----- conditions over one question -----

  /** A condition over an unanswered or hidden question is false, `notEquals` included. */
  lemma {:induction false} UnansweredIsFalse(c: Condition, rule: string, form: Form, w: World,
    settled: set<Key>, scope: Scope)
    requires IsLeaf(c)
    requires forall key | KeyOf(form, c.question, scope) == Some(key) ::
               key !in settled || key !in w.answers || IsBlank(w.answers[key])
    ensures Eval(c, rule, form, w, settled, scope) == Ok(false)
  {
    hide GroupOf, IsBlank;
    assert Effective(form, w, settled, c.question, scope) == None;
  }

  /** What each operator asks of a present answer. */
  lemma {:induction false} AnsweredOperators(question: string, rule: string, form: Form, w: World, settled: set<Key>, scope: Scope,
    key: Key, v: Value, options: seq<string>)
    requires KeyOf(form, question, scope) == Some(key) && key in settled
    requires key in w.answers && !IsBlank(w.answers[key])
    ensures var a := w.answers[key];
            && Eval(Answered(question), rule, form, w, settled, scope) == Ok(true)
            && Eval(Equals(question, v), rule, form, w, settled, scope) == Ok(a == v)
            && Eval(NotEquals(question, v), rule, form, w, settled, scope) == Ok(a != v)
            && (a.ChoiceValue? ==>
                  Eval(ContainsAny(question, options), rule, form, w, settled, scope)
                    == Ok(a.options * (set o | o in options) != {}))
            && (!a.ChoiceValue? ==>
                  Eval(ContainsAny(question, options), rule, form, w, settled, scope) == Err(TypeMismatch(rule, question)))
  {
    hide KeyOf, IsBlank;
    var a := w.answers[key];
    if a.ChoiceValue? {
      var both := a.options * (set o | o in options);
      assert (exists o | o in options :: o in a.options) <==> both != {} by {
        if o :| o in options && o in a.options { assert o in both; }
      }
    }
  }

  /** A present answer and a bound are ordered as two numbers or as two dates; any other pair is an error naming rule and question. */
  lemma {:induction false} AnsweredOrder(question: string, order: OrderOp, bound: Value, rule: string, form: Form, w: World,
    settled: set<Key>, scope: Scope, key: Key)
    requires KeyOf(form, question, scope) == Some(key) && key in settled
    requires key in w.answers && !IsBlank(w.answers[key])
    ensures var a := w.answers[key];
            var outcome := Eval(Ordered(question, order, bound), rule, form, w, settled, scope);
            if a.NumberValue? && bound.NumberValue? then
              outcome == Ok(match order
                            case Gt => a.number > bound.number case Gte => a.number >= bound.number
                            case Lt => a.number < bound.number case Lte => a.number <= bound.number)
            else if a.TextValue? && bound.TextValue? && IsDate(a.text) && IsDate(bound.text) then
              outcome == Ok(match order
                            case Gt => Earlier(bound.text, a.text) case Gte => !Earlier(a.text, bound.text)
                            case Lt => Earlier(a.text, bound.text) case Lte => !Earlier(bound.text, a.text))
            else outcome == Err(TypeMismatch(rule, question))
  {
    var a := w.answers[key];
    if a.TextValue? && bound.TextValue? && IsDate(a.text) && IsDate(bound.text) {
      DateOrderIsCalendarOrder(a.text, bound.text);
      DateOrderIsCalendarOrder(bound.text, a.text);
    }
    hide KeyOf, IsBlank, IsDate, Before, Earlier;
  }

  function Equalities(question: string, values: seq<Value>): seq<Condition> {
    if values == [] then [] else [Equals(question, values[0])] + Equalities(question, values[1..])
  }

  lemma {:induction false} OrOfEqualities(question: string, values: seq<Value>, rule: string, form: Form, w: World,
    settled: set<Key>, scope: Scope)
    ensures var answer := Effective(form, w, settled, question, scope);
            EvalOr(Equalities(question, values), rule, form, w, settled, scope)
              == Ok(answer.Some? && answer.value in values)
  {
    hide Effective;
    if values != [] {
      var answer, all := Effective(form, w, settled, question, scope), Equalities(question, values);
      OrOfEqualities(question, values[1..], rule, form, w, settled, scope);
      assert all[0] == Equals(question, values[0]) && all[1..] == Equalities(question, values[1..]);
      assert values == [values[0]] + values[1..];
      if answer.Some? && answer.value == values[0] {
        assert Eval(all[0], rule, form, w, settled, scope) == Ok(true);
      } else {
        assert Eval(all[0], rule, form, w, settled, scope) == Ok(false);
      }
    }
  }

  /** `in` is the `or` of equalities with its operands. */
  lemma {:induction false} OneOfIsOr(question: string, values: seq<Value>, rule: string, form: Form, w: World, settled: set<Key>,
    scope: Scope)
    ensures Eval(OneOf(question, values), rule, form, w, settled, scope)
         == Eval(Or(Equalities(question, values)), rule, form, w, settled, scope)
  {
    hide Effective, EvalOr, Equalities;
    OrOfEqualities(question, values, rule, form, w, settled, scope);
  }

  /** `instanceCount` compares the number of live instances, none for a group without a roster. */
  lemma CountsTheLive(group: string, compare: CountOp, count: nat, rule: string, form: Form, w: World, settled: set<Key>, scope: Scope)
    ensures var live := if group in w.rosters then |w.rosters[group]| else 0;
            Eval(InstanceCount(group, compare, count), rule, form, w, settled, scope) ==
            Ok(match compare
               case CountEquals => live == count
               case CountGt => live > count
               case CountGte => live >= count
               case CountLt => live < count
               case CountLte => live <= count)
  {
  }

  /** The ordered operators compare numbers as numbers and dates as days of the calendar. */
  lemma OrderedOperators(question: string, rule: string, x: real, y: real, s: string, t: string)
    requires IsDate(s) && IsDate(t)
    ensures forall order: OrderOp :: EvalLeaf(Ordered(question, order, NumberValue(y)), rule, Some(NumberValue(x)))
              == Ok(match order case Gt => x > y case Gte => x >= y case Lt => x < y case Lte => x <= y)
    ensures forall order: OrderOp :: EvalLeaf(Ordered(question, order, TextValue(t)), rule, Some(TextValue(s)))
              == Ok(match order
                    case Gt => Earlier(t, s)
                    case Gte => Earlier(t, s) || s == t
                    case Lt => Earlier(s, t)
                    case Lte => Earlier(s, t) || s == t)
  {
    DatesAreShaped(s);
    DatesAreShaped(t);
    hide IsDate, DateShaped;
    DateOrderIsCalendarOrder(s, t);
    DateOrderIsCalendarOrder(t, s);
    DatesAreOrdered(s, t);
  }

  lemma DatesAreShaped(s: string)
    requires IsDate(s)
    ensures DateShaped(s)
  {
  }

  lemma DatesAreOrdered(s: string, t: string)
    requires DateShaped(s) && DateShaped(t)
    ensures s == t || Earlier(s, t) || Earlier(t, s)
    ensures s == t ==> !Earlier(s, t) && !Earlier(t, s)
  {
    if s != t {
      var k := FirstDifference(s, t);
      forall j | 0 <= j < k ensures s[j] == t[j] {
        assert s[..k][j] == t[..k][j];
      }
      EarlierAtFirstDifference(s, t, k);
      EarlierAtFirstDifference(t, s, k);
    }
  }

  // ----- lists of outcomes -----

  /** The first outcome that is not `go` decides; if all are, `go` does. */
  ghost predicate FirstOther(outcomes: seq<Result<bool, EvalError>>, go: bool, outcome: Result<bool, EvalError>) {
    || ((forall i | 0 <= i < |outcomes| :: outcomes[i] == Ok(go)) && outcome == Ok(go))
    || exists i :: 0 <= i < |outcomes| && outcomes[i] == outcome != Ok(go) &&
                   forall j | 0 <= j < i :: outcomes[j] == Ok(go)
  }

  function Outcomes(cs: seq<Condition>, rule: string, form: Form, w: World, settled: set<Key>, scope: Scope):
    seq<Result<bool, EvalError>>
  {
    seq(|cs|, i requires 0 <= i < |cs| => Eval(cs[i], rule, form, w, settled, scope))
  }

  function InstanceOutcomes(c: Condition, live: seq<string>, group: string, rule: string, form: Form, w: World,
    settled: set<Key>, scope: Scope): seq<Result<bool, EvalError>>
  {
    seq(|live|, i requires 0 <= i < |live| => Eval(c, rule, form, w, settled, scope[group := live[i]]))
  }

  lemma FirstOtherCons(first: Result<bool, EvalError>, rest: seq<Result<bool, EvalError>>, go: bool,
    outcome: Result<bool, EvalError>)
    requires if first == Ok(go) then FirstOther(rest, go, outcome) else outcome == first
    ensures FirstOther([first] + rest, go, outcome)
  {
    var all := [first] + rest;
    if first != Ok(go) {
      assert all[0] == outcome;
    } else if !((forall i | 0 <= i < |rest| :: rest[i] == Ok(go)) && outcome == Ok(go)) {
      var i :| 0 <= i < |rest| && rest[i] == outcome != Ok(go) && forall j | 0 <= j < i :: rest[j] == Ok(go);
      assert all[i + 1] == outcome;
    }
  }

  lemma {:induction false} FoldsOverTheChildren(cs: seq<Condition>, rule: string, form: Form, w: World,
    settled: set<Key>, scope: Scope)
    ensures FirstOther(Outcomes(cs, rule, form, w, settled, scope), true, EvalAnd(cs, rule, form, w, settled, scope))
    ensures FirstOther(Outcomes(cs, rule, form, w, settled, scope), false, EvalOr(cs, rule, form, w, settled, scope))
  {
    hide Eval, FirstOther;
    if cs == [] {
      NothingDecides();
    } else {
      var first, rest := Eval(cs[0], rule, form, w, settled, scope), Outcomes(cs[1..], rule, form, w, settled, scope);
      FoldsOverTheChildren(cs[1..], rule, form, w, settled, scope);
      FirstOtherCons(first, rest, true, EvalAnd(cs, rule, form, w, settled, scope));
      FirstOtherCons(first, rest, false, EvalOr(cs, rule, form, w, settled, scope));
      assert [first] + rest == Outcomes(cs, rule, form, w, settled, scope);
    }
  }

  /** `and` is true when all its children are, `or` false when all are; else the first that is not decides. */
  lemma ConnectivesShortCircuit(cs: seq<Condition>, rule: string, form: Form, w: World,
    settled: set<Key>, scope: Scope)
    ensures FirstOther(Outcomes(cs, rule, form, w, settled, scope), true, Eval(And(cs), rule, form, w, settled, scope))
    ensures FirstOther(Outcomes(cs, rule, form, w, settled, scope), false, Eval(Or(cs), rule, form, w, settled, scope))
  {
    hide FirstOther, Outcomes, EvalAnd, EvalOr;
    FoldsOverTheChildren(cs, rule, form, w, settled, scope);
  }

  /** `not` turns true into false and false into true, and keeps an error. */
  lemma NotNegates(c: Condition, rule: string, form: Form, w: World, settled: set<Key>, scope: Scope)
    ensures Eval(Not(c), rule, form, w, settled, scope) ==
            match Eval(c, rule, form, w, settled, scope)
            case Err(e) => Err(e)
            case Ok(b) => Ok(!b)
  {
  }

  lemma {:induction false} FoldsOverTheLive(c: Condition, live: seq<string>, group: string, rule: string,
    form: Form, w: World, settled: set<Key>, scope: Scope)
    ensures var outcomes := InstanceOutcomes(c, live, group, rule, form, w, settled, scope);
            && FirstOther(outcomes, false, EvalAny(c, live, group, rule, form, w, settled, scope))
            && FirstOther(outcomes, true, EvalEvery(c, live, group, rule, form, w, settled, scope))
  {
    hide Eval, FirstOther;
    if live == [] {
      NothingDecides();
    } else {
      var first := Eval(c, rule, form, w, settled, scope[group := live[0]]);
      var rest := InstanceOutcomes(c, live[1..], group, rule, form, w, settled, scope);
      FoldsOverTheLive(c, live[1..], group, rule, form, w, settled, scope);
      FirstOtherCons(first, rest, false, EvalAny(c, live, group, rule, form, w, settled, scope));
      FirstOtherCons(first, rest, true, EvalEvery(c, live, group, rule, form, w, settled, scope));
      assert [first] + rest == InstanceOutcomes(c, live, group, rule, form, w, settled, scope);
    }
  }

  lemma NothingDecides()
    ensures forall go: bool :: FirstOther([], go, Ok(go))
  {
  }

  /**
   `anyInstance` is `or` over the live instances in roster order, false over none; `everyInstance` is `and` over
   them where there is one, and false, not true, over none.
   */
  lemma {:induction false} QuantifiersRangeOverTheLive(c: Condition, group: string, rule: string,
    form: Form, w: World, settled: set<Key>, scope: Scope)
    ensures var live := if group in w.rosters then w.rosters[group] else [];
            var outcomes := InstanceOutcomes(c, live, group, rule, form, w, settled, scope);
            && FirstOther(outcomes, false, Eval(AnyInstance(group, c), rule, form, w, settled, scope))
            && if live == [] then Eval(EveryInstance(group, c), rule, form, w, settled, scope) == Ok(false)
               else FirstOther(outcomes, true, Eval(EveryInstance(group, c), rule, form, w, settled, scope))
  {
    hide FirstOther;
    FoldsOverTheLive(c, Roster(w, group), group, rule, form, w, settled, scope);
  }

  // ----- gates -----

  lemma {:induction false} SomeRuleTrue(rules: seq<Rule>, form: Form, w: World, settled: set<Key>, scope: Scope)
    requires forall rule | rule in rules :: Eval(rule.when, rule.id, form, w, settled, scope).Ok?
    ensures AnyRuleTrue(rules, form, w, settled, scope)
         == Ok(exists rule :: rule in rules && Eval(rule.when, rule.id, form, w, settled, scope) == Ok(true))
  {
    hide Eval;
    if rules != [] {
      var first := Eval(rules[0].when, rules[0].id, form, w, settled, scope);
      SomeRuleTrue(rules[1..], form, w, settled, scope);
      assert rules == [rules[0]] + rules[1..];
      assert rules[0] in rules;
      if !first.value {
        assert first == Ok(false);
      } else {
        assert first == Ok(true);
      }
    }
  }

  /** An item is shown when no rule targets it, or when some rule that does is true; declaration order is no part of it. */
  lemma {:induction false} GateMeaning(target: Target, form: Form, w: World, settled: set<Key>, scope: Scope)
    requires forall rule | rule in form.rules && target in rule.show :: Eval(rule.when, rule.id, form, w, settled, scope).Ok?
    ensures Gate(target, form, w, settled, scope) ==
            Ok((forall rule | rule in form.rules :: target !in rule.show) ||
               exists rule :: rule in form.rules && target in rule.show &&
                              Eval(rule.when, rule.id, form, w, settled, scope) == Ok(true))
  {
    hide Eval;
    var rules := RulesFor(form.rules, target);
    forall rule ensures rule in rules <==> rule in form.rules && target in rule.show {
      RulesForAreTheTargeting(form.rules, target, rule);
    }
    SomeRuleTrue(rules, form, w, settled, scope);
    if rules == [] {
      forall rule | rule in form.rules ensures target !in rule.show {
        assert rule !in rules;
      }
    } else {
      assert rules[0] in rules;
    }
  }

  // ----- the documented reading of targets -----

  /** Some rule lists the target and is true. */
  ghost predicate TrueRuleFor(target: Target, form: Form, w: World, settled: set<Key>, scope: Scope) {
    exists rule :: rule in form.rules && target in rule.show && Eval(rule.when, rule.id, form, w, settled, scope) == Ok(true)
  }

  ghost predicate Untargeted(target: Target, form: Form) {
    forall rule | rule in form.rules :: target !in rule.show
  }

  ghost predicate TargetingEvaluates(target: Target, form: Form, w: World, settled: set<Key>, scope: Scope) {
    forall rule | rule in form.rules && target in rule.show :: Eval(rule.when, rule.id, form, w, settled, scope).Ok?
  }

  /**
   The schema's one-line reading: a step target stands for each of the step's questions, and a targeted question
   is shown when at least one rule that targets it is true.
   */
  ghost predicate ShownByExpansion(s: Slot, form: Form, w: World, settled: set<Key>) {
    || (Untargeted(OfStep(s.at.step), form) && Untargeted(OfQuestion(s.at.question), form))
    || TrueRuleFor(OfStep(s.at.step), form, w, settled, map[])
    || TrueRuleFor(OfQuestion(s.at.question), form, w, settled, ScopeOf(s))
  }

  /** The evaluator's decision is that reading exactly when at most one layer is targeted, or the two agree. */
  lemma ExpansionAgreesIff(s: Slot, form: Form, w: World, settled: set<Key>)
    requires TargetingEvaluates(OfStep(s.at.step), form, w, settled, map[])
    requires TargetingEvaluates(OfQuestion(s.at.question), form, w, settled, ScopeOf(s))
    ensures Decision(s, form, w, settled) == Ok(ShownByExpansion(s, form, w, settled)) <==>
            || Untargeted(OfStep(s.at.step), form)
            || Untargeted(OfQuestion(s.at.question), form)
            || StepGate(s.at.step, form, w, settled) == SlotGate(s, form, w, settled)
  {
    hide Eval, Gate;
    GateMeaning(OfStep(s.at.step), form, w, settled, map[]);
    GateMeaning(OfQuestion(s.at.question), form, w, settled, ScopeOf(s));
    GateIsBoth(s, form, w, settled);
  }

  lemma GateIsBoth(s: Slot, form: Form, w: World, settled: set<Key>)
    requires StepGate(s.at.step, form, w, settled).Ok? && SlotGate(s, form, w, settled).Ok?
    ensures Decision(s, form, w, settled)
         == Ok(StepGate(s.at.step, form, w, settled).value && SlotGate(s, form, w, settled).value)
  {
    hide StepGate, SlotGate;
    var step, slot := StepGate(s.at.step, form, w, settled), SlotGate(s, form, w, settled);
    if step.value {
      assert step == Ok(true);
      assert slot == Ok(slot.value);
    } else {
      assert step == Ok(false);
    }
  }

  // ----- slots and instances -----

  /** The slots are one per plain question and one per live instance of a grouped one. */
  lemma {:induction false} SlotsAreTheLiveInstances(form: Form, w: World, s: Slot)
    ensures s in AllSlots(form.steps, w) <==>
            && s.at in DocumentOrder(form)
            && match s.at.group {
                 case None => s.instance == None
                 case Some(group) => s.instance.Some? && group in w.rosters && s.instance.value in w.rosters[group]
               }
  {
    AllSlotsInOrder(form.steps, w);
    SlotMembership(DocumentOrder(form), w, s);
  }

  lemma {:induction false} SlotMembership(ps: seq<Position>, w: World, s: Slot)
    ensures s in Slots(ps, w) <==> s.at in ps && s in PositionSlots(s.at, w)
    ensures s in PositionSlots(s.at, w) <==>
            match s.at.group {
              case None => s.instance == None
              case Some(group) => s.instance.Some? && s.instance.value in Roster(w, group)
            }
  {
    if s.at.group.Some? {
      var live := Roster(w, s.at.group.value);
      if s.instance.Some? && s.instance.value in live {
        var i :| 0 <= i < |live| && live[i] == s.instance.value;
        assert InstanceSlots(s.at, live)[i] == s;
      }
    }
    if ps != [] {
      SlotMembership(ps[1..], w, s);
      assert ps == [ps[0]] + ps[1..];
    }
  }

  lemma {:induction false} GroupOfPosition(order: seq<Position>, p: Position)
    requires p in order && (forall i, j | 0 <= i < j < |order| :: order[i].question != order[j].question)
    ensures GroupOf(order, p.question) == p.group
  {
    if order[0] == p {
      if p.group.None? {
        forall q | q in order[1..] ensures q.question != p.question {
          var j :| 0 <= j < |order[1..]| && order[1..][j] == q;
          assert order[j + 1] == q;
        }
        NoGroupAhead(order[1..], p.question);
      }
    } else {
      assert p in order[1..];
      var j :| 0 <= j < |order[1..]| && order[1..][j] == p;
      assert order[j + 1] == p;
      forall i, k | 0 <= i < k < |order[1..]| ensures order[1..][i].question != order[1..][k].question {
        assert order[i + 1] == order[1..][i] && order[k + 1] == order[1..][k];
      }
      GroupOfPosition(order[1..], p);
    }
  }

  lemma {:induction false} NoGroupAhead(order: seq<Position>, question: string)
    requires forall q | q in order :: q.question != question
    ensures GroupOf(order, question) == None
  {
    if order != [] {
      NoGroupAhead(order[1..], question);
    }
  }

  /**
   Inside a group a rule reads the same instance of its own group's questions, the one answer of a plain question,
   and nothing of another group, outside whole-group operators.
   */
  lemma {:induction false} ReferencesStayInTheInstance(form: Form, w: World, s: Slot, p: Position)
    requires WellFormed(form) && s in AllSlots(form.steps, w) && p in DocumentOrder(form)
    ensures KeyOf(form, p.question, ScopeOf(s)) ==
            match p.group {
              case None => Some(Key(p.question, None))
              case Some(group) => if s.at.group == Some(group) then Some(Key(p.question, s.instance)) else None
            }
  {
    SlotsAreTheLiveInstances(form, w, s);
    KeyOfPosition(form, p, ScopeOf(s));
  }

  /** Below a whole-group operator the questions of its group are read in the operator's instance, all others as before. */
  lemma OperatorsBringTheirInstance(form: Form, scope: Scope, p: Position, group: string, i: string)
    requires WellFormed(form) && p in DocumentOrder(form)
    ensures KeyOf(form, p.question, scope[group := i]) ==
            if p.group == Some(group) then Some(Key(p.question, Some(i))) else KeyOf(form, p.question, scope)
  {
    hide KeyOf, WellFormed;
    KeyOfPosition(form, p, scope);
    KeyOfPosition(form, p, scope[group := i]);
  }

  lemma KeyOfPosition(form: Form, p: Position, scope: Scope)
    requires WellFormed(form) && p in DocumentOrder(form)
    ensures KeyOf(form, p.question, scope) ==
            match p.group {
              case None => Some(Key(p.question, None))
              case Some(group) => if group in scope then Some(Key(p.question, Some(scope[group]))) else None
            }
  {
    GroupOfPosition(DocumentOrder(form), p);
  }
}
