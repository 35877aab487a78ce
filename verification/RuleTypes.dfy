/** The publish-time type check over conditions, and why a form that passes it never fails to evaluate. */
module RuleTypes {
  import opened Wrappers
  import opened Answers
  import opened Forms
  import opened Evaluation

  datatype Kind =
    | ShortText
    | LongText
    | Number
    | Date
    | Boolean
    | SingleChoice(options: set<string>)
    | MultiChoice(options: set<string>)

  predicate IsOptionId(s: string) {
    |s| > 4 && s[..4] == "opt_" && forall i | 4 <= i < |s| :: 'a' <= s[i] <= 'z' || '0' <= s[i] <= '9' || s[i] == '_'
  }

  /** The encoding each question type demands of an answer to it. */
  predicate Fits(kind: Kind, v: Value) {
    match kind
    case ShortText => v.TextValue?
    case LongText => v.TextValue?
    case Number => v.NumberValue?
    case Date => v.TextValue? && IsDate(v.text)
    case Boolean => v.BooleanValue?
    case SingleChoice(options) => v.TextValue? && v.text in options
    case MultiChoice(options) => v.ChoiceValue? && v.options <= options
  }

  datatype TypeFinding =
    | Mismatch(rule: string, question: string)
    | DanglingOption(rule: string, question: string, option: string)

  /** Findings of an equality operand: the encoding first, then options the question does not declare. */
  function ValueFindings(kind: Kind, v: Value, rule: string, question: string): set<TypeFinding> {
    match kind
    case SingleChoice(options) =>
      if !v.TextValue? || !IsOptionId(v.text) then {Mismatch(rule, question)}
      else if v.text !in options then {DanglingOption(rule, question, v.text)}
      else {}
    case MultiChoice(options) =>
      if !v.ChoiceValue? || !(forall o | o in v.options :: IsOptionId(o)) then {Mismatch(rule, question)}
      else set o | o in v.options && o !in options :: DanglingOption(rule, question, o)
    case _ => if Fits(kind, v) then {} else {Mismatch(rule, question)}
  }

  predicate OrderedMatches(kind: Kind, bound: Value) {
    (kind.Number? && bound.NumberValue?) || (kind.Date? && bound.TextValue? && IsDate(bound.text))
  }

  function LeafFindings(c: Condition, kind: Kind, rule: string): set<TypeFinding>
    requires IsLeaf(c)
  {
    match c
    case Answered(_) => {}
    case Equals(question, v) => ValueFindings(kind, v, rule, question)
    case NotEquals(question, v) => ValueFindings(kind, v, rule, question)
    case OneOf(question, values) => set v, f | v in values && f in ValueFindings(kind, v, rule, question) :: f
    case Ordered(question, _, bound) => if OrderedMatches(kind, bound) then {} else {Mismatch(rule, question)}
    case ContainsAny(question, options) =>
      if !kind.MultiChoice? then {Mismatch(rule, question)}
      else set o | o in options && o !in kind.options :: DanglingOption(rule, question, o)
  }

  /** `kinds` is the injected lookup: a question it does not know is somebody else's finding. */
  function ConditionFindings(c: Condition, kinds: map<string, Kind>, rule: string): set<TypeFinding>
    decreases c
  {
    match c
    case And(conditions) => AllFindings(conditions, kinds, rule)
    case Or(conditions) => AllFindings(conditions, kinds, rule)
    case Not(condition) => ConditionFindings(condition, kinds, rule)
    case AnyInstance(_, condition) => ConditionFindings(condition, kinds, rule)
    case EveryInstance(_, condition) => ConditionFindings(condition, kinds, rule)
    case InstanceCount(_, _, _) => {}
    case _ => if c.question in kinds then LeafFindings(c, kinds[c.question], rule) else {}
  }

  function AllFindings(cs: seq<Condition>, kinds: map<string, Kind>, rule: string): set<TypeFinding>
    decreases cs
  {
    if cs == [] then {} else ConditionFindings(cs[0], kinds, rule) + AllFindings(cs[1..], kinds, rule)
  }

  /** `checkRuleTypes`. */
  function TypeFindings(rules: seq<Rule>, kinds: map<string, Kind>): set<TypeFinding> {
    if rules == [] then {}
    else ConditionFindings(rules[0].when, kinds, rules[0].id) + TypeFindings(rules[1..], kinds)
  }

  ghost predicate NoMismatch(findings: set<TypeFinding>) {
    forall f | f in findings :: !f.Mismatch?
  }

  // ----- the check is exact, operator by operator -----

  /** A question definition as it parses: option ids in their own syntax, and a choice with something to choose. */
  predicate ValidKind(kind: Kind) {
    match kind
    case SingleChoice(options) => options != {} && forall o | o in options :: IsOptionId(o)
    case MultiChoice(options) => options != {} && forall o | o in options :: IsOptionId(o)
    case _ => true
  }

  /** Option ids are "opt_" and at least one lower-case letter, digit or underscore; a choice question has an option. */
  lemma KindsByTheirOptions(kind: Kind, options: set<string>)
    ensures ValidKind(SingleChoice(options)) <==> ValidKind(MultiChoice(options))
    ensures ValidKind(MultiChoice(options)) <==>
            options != {} && forall o | o in options ::
              |o| >= 5 && o[..4] == "opt_" && forall c | c in o[4..] :: 97 <= c as int <= 122 || 48 <= c as int <= 57 || c == '_'
    ensures !kind.SingleChoice? && !kind.MultiChoice? ==> ValidKind(kind)
  {
    forall o | o in options
      ensures IsOptionId(o) <==>
              |o| >= 5 && o[..4] == "opt_" && forall c | c in o[4..] :: 97 <= c as int <= 122 || 48 <= c as int <= 57 || c == '_'
    {
      if |o| >= 5 {
        assert forall i | 4 <= i < |o| :: o[4..][i - 4] == o[i] && o[i] in o[4..];
      }
    }
  }

  /** The ordered comparison or containment evaluates, whatever admissible answer is given. */
  ghost predicate NeverFails(c: Condition, kind: Kind, rule: string)
    requires IsLeaf(c)
  {
    forall v | Fits(kind, v) :: EvalLeaf(c, rule, Some(v)).Ok?
  }

  /** An admissible answer that is text no date has, or is no text at all, where there is one. */
  lemma SampleAnswer(kind: Kind) returns (v: Value)
    requires ValidKind(kind)
    ensures Fits(kind, v)
    ensures v.NumberValue? <==> kind.Number?
    ensures v.TextValue? && IsDate(v.text) <==> kind.Date?
    ensures v.ChoiceValue? <==> kind.MultiChoice?
  {
    match kind
    case ShortText => v := TextValue("x");
    case LongText => v := TextValue("x");
    case Number => v := NumberValue(0.0);
    case Date =>
      v := TextValue("2000-01-01");
      assert IsDate(v.text);
    case Boolean => v := BooleanValue(true);
    case SingleChoice(options) =>
      var o :| o in options;
      v := TextValue(o);
      assert o[..4][0] == o[0];
      assert !IsDigit(o[0]);
    case MultiChoice(_) => v := ChoiceValue({});
  }

  /** The check rejects an ordered comparison exactly when some admissible answer would make it fail. */
  lemma OrderedCheckIsExact(kind: Kind, question: string, order: OrderOp, bound: Value, rule: string)
    requires ValidKind(kind)
    requires bound.NumberValue? || (bound.TextValue? && IsDate(bound.text))
    ensures LeafFindings(Ordered(question, order, bound), kind, rule) == {}
            <==> NeverFails(Ordered(question, order, bound), kind, rule)
  {
    var v := SampleAnswer(kind);
    hide IsDate, ValidKind;
    assert !OrderedMatches(kind, bound) ==> EvalLeaf(Ordered(question, order, bound), rule, Some(v)).Err?;
  }

  /** It rejects containment, dangling options aside, exactly when some admissible answer would make it fail. */
  lemma ContainsCheckIsExact(kind: Kind, question: string, options: seq<string>, rule: string)
    requires ValidKind(kind)
    ensures Mismatch(rule, question) !in LeafFindings(ContainsAny(question, options), kind, rule)
            <==> NeverFails(ContainsAny(question, options), kind, rule)
    ensures forall o :: DanglingOption(rule, question, o) in LeafFindings(ContainsAny(question, options), kind, rule)
                        <==> kind.MultiChoice? && o in options && o !in kind.options
  {
    var v := SampleAnswer(kind);
    hide IsDate, ValidKind;
    assert !kind.MultiChoice? ==> EvalLeaf(ContainsAny(question, options), rule, Some(v)).Err?;
  }

  // ----- the whole check -----

  /** What a leaf may ask of a question of this type. */
  predicate Accepts(kind: Kind, leaf: Condition)
    requires IsLeaf(leaf)
  {
    match leaf
    case Answered(_) => true
    case Equals(_, v) => Fits(kind, v)
    case NotEquals(_, v) => Fits(kind, v)
    case OneOf(_, values) => forall v | v in values :: Fits(kind, v)
    case Ordered(_, _, bound) =>
      (kind.Number? && bound.NumberValue?) || (kind.Date? && bound.TextValue? && IsDate(bound.text))
    case ContainsAny(_, options) => kind.MultiChoice? && forall o | o in options :: o in kind.options
  }

  /**
   An equality operand draws no finding exactly when it could be an answer to the question, and a dangling option
   exactly for one it selects, by well-formed ids, that a choice question does not declare.
   */
  lemma {:induction false} EqualityCheckIsExact(kind: Kind, v: Value, rule: string, question: string)
    requires ValidKind(kind)
    ensures ValueFindings(kind, v, rule, question) == {} <==> Fits(kind, v)
    ensures forall o :: DanglingOption(rule, question, o) in ValueFindings(kind, v, rule, question) <==>
              || (kind.SingleChoice? && v == TextValue(o) && IsOptionId(o) && o !in kind.options)
              || (kind.MultiChoice? && v.ChoiceValue? && (forall p | p in v.options :: IsOptionId(p)) && o in v.options - kind.options)
    ensures Mismatch(rule, question) in ValueFindings(kind, v, rule, question) <==>
              !Fits(kind, v) && forall o :: DanglingOption(rule, question, o) !in ValueFindings(kind, v, rule, question)
  {
    match kind
    case MultiChoice(options) =>
      if v.ChoiceValue? && (forall o | o in v.options :: IsOptionId(o)) {
        if o :| o in v.options && o !in options {
          assert DanglingOption(rule, question, o) in ValueFindings(kind, v, rule, question);
        }
      }
    case _ =>
  }

  /** A leaf draws findings exactly when it asks what it may not, and they carry its rule and its question. */
  lemma {:induction false} LeafCheckIsExact(leaf: Condition, kind: Kind, rule: string)
    requires ValidKind(kind) && IsLeaf(leaf)
    ensures LeafFindings(leaf, kind, rule) == {} <==> Accepts(kind, leaf)
    ensures forall f | f in LeafFindings(leaf, kind, rule) :: f.rule == rule && f.question == leaf.question
  {
    hide IsDate, ValueFindings;
    match leaf
    case Equals(question, v) => ValueFindingsNameTheLeaf(kind, v, rule, question);
    case NotEquals(question, v) => ValueFindingsNameTheLeaf(kind, v, rule, question);
    case OneOf(question, values) =>
      forall v | v in values
        ensures ValueFindings(kind, v, rule, question) == {} <==> Fits(kind, v)
        ensures forall f | f in ValueFindings(kind, v, rule, question) :: f.rule == rule && f.question == question
      {
        ValueFindingsNameTheLeaf(kind, v, rule, question);
      }
      if v :| v in values && !Fits(kind, v) {
        var f :| f in ValueFindings(kind, v, rule, question);
        assert f in LeafFindings(leaf, kind, rule);
      }
    case ContainsAny(question, options) =>
      if kind.MultiChoice? {
        if o :| o in options && o !in kind.options {
          assert DanglingOption(rule, question, o) in LeafFindings(leaf, kind, rule);
        }
      }
    case _ =>
  }

  lemma {:induction false} ValueFindingsNameTheLeaf(kind: Kind, v: Value, rule: string, question: string)
    requires ValidKind(kind)
    ensures ValueFindings(kind, v, rule, question) == {} <==> Fits(kind, v)
    ensures forall f | f in ValueFindings(kind, v, rule, question) :: f.rule == rule && f.question == question
  {
    EqualityCheckIsExact(kind, v, rule, question);
  }

  /** The finding comes from this leaf. */
  ghost predicate FoundAt(f: TypeFinding, leaf: Condition, kinds: map<string, Kind>, rule: string) {
    IsLeaf(leaf) && leaf.question in kinds && f in LeafFindings(leaf, kinds[leaf.question], rule)
  }

  ghost predicate FoundIn(f: TypeFinding, c: Condition, kinds: map<string, Kind>, rule: string) {
    exists leaf :: Occurs(leaf, c) && FoundAt(f, leaf, kinds, rule)
  }

  /** The check of a condition finds what its leaves over known questions draw, wherever they stand in it. */
  lemma {:induction false} FindingsAreOfTheLeaves(f: TypeFinding, c: Condition, kinds: map<string, Kind>, rule: string)
    ensures f in ConditionFindings(c, kinds, rule) <==> FoundIn(f, c, kinds, rule)
    decreases c
  {
    hide LeafFindings;
    match c
    case And(conditions) =>
      FindingsOfList(f, conditions, kinds, rule);
      assert forall part :: Occurs(part, c) <==> part == c || OccursInOne(part, conditions);
    case Or(conditions) =>
      FindingsOfList(f, conditions, kinds, rule);
      assert forall part :: Occurs(part, c) <==> part == c || OccursInOne(part, conditions);
    case Not(condition) =>
      FindingsAreOfTheLeaves(f, condition, kinds, rule);
      assert forall part :: Occurs(part, c) <==> part == c || Occurs(part, condition);
    case AnyInstance(_, condition) =>
      FindingsAreOfTheLeaves(f, condition, kinds, rule);
      assert forall part :: Occurs(part, c) <==> part == c || Occurs(part, condition);
    case EveryInstance(_, condition) =>
      FindingsAreOfTheLeaves(f, condition, kinds, rule);
      assert forall part :: Occurs(part, c) <==> part == c || Occurs(part, condition);
    case _ =>
      assert Occurs(c, c);
  }

  lemma {:induction false} FindingsOfList(f: TypeFinding, cs: seq<Condition>, kinds: map<string, Kind>, rule: string)
    ensures f in AllFindings(cs, kinds, rule) <==> exists leaf :: OccursInOne(leaf, cs) && FoundAt(f, leaf, kinds, rule)
    decreases cs
  {
    hide FoundAt;
    if cs != [] {
      FindingsAreOfTheLeaves(f, cs[0], kinds, rule);
      FindingsOfList(f, cs[1..], kinds, rule);
      forall part: Condition { OccursInFirstOrRest(part, cs); }
    }
  }

  lemma {:induction false} FindingsOfRules(f: TypeFinding, rules: seq<Rule>, kinds: map<string, Kind>)
    ensures f in TypeFindings(rules, kinds) <==> exists rule :: rule in rules && f in ConditionFindings(rule.when, kinds, rule.id)
  {
    hide ConditionFindings;
    if rules != [] {
      FindingsOfRules(f, rules[1..], kinds);
      assert rules == [rules[0]] + rules[1..];
    }
  }

  /** The rule of this id has a leaf over this known question that asks what it may not. */
  ghost predicate Offends(id: string, question: string, rules: seq<Rule>, kinds: map<string, Kind>) {
    exists rule, leaf :: rule in rules && rule.id == id && Occurs(leaf, rule.when) &&
                         IsLeaf(leaf) && leaf.question == question && question in kinds && !Accepts(kinds[question], leaf)
  }

  ghost predicate Reported(id: string, question: string, findings: set<TypeFinding>) {
    exists f :: f in findings && f.rule == id && f.question == question
  }

  /** The check names a rule and a question exactly when that rule has an offending leaf over that question. */
  lemma {:induction false} TypeCheckIsExact(rules: seq<Rule>, kinds: map<string, Kind>, id: string, question: string)
    requires forall q | q in kinds :: ValidKind(kinds[q])
    ensures Reported(id, question, TypeFindings(rules, kinds)) <==> Offends(id, question, rules, kinds)
  {
    hide TypeFindings, ConditionFindings, LeafFindings, Accepts, ValidKind;
    if Reported(id, question, TypeFindings(rules, kinds)) {
      var f :| f in TypeFindings(rules, kinds) && f.rule == id && f.question == question;
      FindingsOfRules(f, rules, kinds);
      var rule :| rule in rules && f in ConditionFindings(rule.when, kinds, rule.id);
      FindingsAreOfTheLeaves(f, rule.when, kinds, rule.id);
      var leaf :| Occurs(leaf, rule.when) && FoundAt(f, leaf, kinds, rule.id);
      LeafCheckIsExact(leaf, kinds[leaf.question], rule.id);
    }
    if Offends(id, question, rules, kinds) {
      var rule, leaf :| rule in rules && rule.id == id && Occurs(leaf, rule.when) &&
                        IsLeaf(leaf) && leaf.question == question && question in kinds && !Accepts(kinds[question], leaf);
      LeafCheckIsExact(leaf, kinds[question], id);
      var f :| f in LeafFindings(leaf, kinds[question], id);
      FindingsAreOfTheLeaves(f, rule.when, kinds, id);
      FindingsOfRules(f, rules, kinds);
    }
  }

  /** The rules pass the check exactly when no leaf over a known question asks what it may not. */
  lemma {:induction false} RulesPassIff(rules: seq<Rule>, kinds: map<string, Kind>)
    requires forall q | q in kinds :: ValidKind(kinds[q])
    ensures TypeFindings(rules, kinds) == {} <==>
            forall rule, leaf | rule in rules && Occurs(leaf, rule.when) && IsLeaf(leaf) && leaf.question in kinds ::
              Accepts(kinds[leaf.question], leaf)
  {
    hide TypeFindings, Accepts, ValidKind;
    forall id, question { TypeCheckIsExact(rules, kinds, id, question); }
    if f :| f in TypeFindings(rules, kinds) {
      assert Reported(f.rule, f.question, TypeFindings(rules, kinds));
    }
    if rule, leaf :| rule in rules && Occurs(leaf, rule.when) && IsLeaf(leaf) && leaf.question in kinds &&
                     !Accepts(kinds[leaf.question], leaf) {
      assert Offends(rule.id, leaf.question, rules, kinds);
    }
  }

  // ----- totality -----

  /** Every answer these keys would contribute is one its question's type admits; a blank one contributes nothing. */
  ghost predicate AnswersFit(w: World, keys: set<Key>, kinds: map<string, Kind>) {
    forall key | key in keys ::
      key.question in kinds && (Present(w, keys, key).Some? ==> Fits(kinds[key.question], w.answers[key]))
  }

  lemma {:induction false} TypedConditionsEvaluate(c: Condition, rule: string, form: Form, w: World, settled: set<Key>,
    scope: Scope, kinds: map<string, Kind>)
    requires AnswersFit(w, settled, kinds) && NoMismatch(ConditionFindings(c, kinds, rule))
    ensures Eval(c, rule, form, w, settled, scope).Ok?
    decreases c, 0
  {
    match c
    case And(conditions) => TypedAndEvaluates(conditions, rule, form, w, settled, scope, kinds);
    case Or(conditions) => TypedOrEvaluates(conditions, rule, form, w, settled, scope, kinds);
    case Not(condition) => TypedConditionsEvaluate(condition, rule, form, w, settled, scope, kinds);
    case AnyInstance(group, condition) =>
      TypedAnyEvaluates(condition, Roster(w, group), group, rule, form, w, settled, scope, kinds);
    case EveryInstance(group, condition) =>
      TypedEveryEvaluates(condition, Roster(w, group), group, rule, form, w, settled, scope, kinds);
    case InstanceCount(_, _, _) =>
    case _ => TypedLeafEvaluates(c, rule, form, w, settled, scope, kinds);
  }

  lemma {:induction false} TypedLeafEvaluates(c: Condition, rule: string, form: Form, w: World, settled: set<Key>,
    scope: Scope, kinds: map<string, Kind>)
    requires IsLeaf(c) && AnswersFit(w, settled, kinds) && NoMismatch(ConditionFindings(c, kinds, rule))
    ensures EvalLeaf(c, rule, Effective(form, w, settled, c.question, scope)).Ok?
  {
    hide GroupOf, IsDate, IsBlank;
    var answer := Effective(form, w, settled, c.question, scope);
    if answer.Some? && (c.Ordered? || c.ContainsAny?) {
      assert Mismatch(rule, c.question) !in LeafFindings(c, kinds[c.question], rule);
      assert Fits(kinds[c.question], answer.value);
    }
  }

  lemma {:induction false} TypedAndEvaluates(cs: seq<Condition>, rule: string, form: Form, w: World, settled: set<Key>,
    scope: Scope, kinds: map<string, Kind>)
    requires AnswersFit(w, settled, kinds) && NoMismatch(AllFindings(cs, kinds, rule))
    ensures EvalAnd(cs, rule, form, w, settled, scope).Ok?
    decreases cs, 0
  {
    if cs != [] {
      TypedConditionsEvaluate(cs[0], rule, form, w, settled, scope, kinds);
      TypedAndEvaluates(cs[1..], rule, form, w, settled, scope, kinds);
    }
  }

  lemma {:induction false} TypedOrEvaluates(cs: seq<Condition>, rule: string, form: Form, w: World, settled: set<Key>,
    scope: Scope, kinds: map<string, Kind>)
    requires AnswersFit(w, settled, kinds) && NoMismatch(AllFindings(cs, kinds, rule))
    ensures EvalOr(cs, rule, form, w, settled, scope).Ok?
    decreases cs, 0
  {
    if cs != [] {
      TypedConditionsEvaluate(cs[0], rule, form, w, settled, scope, kinds);
      TypedOrEvaluates(cs[1..], rule, form, w, settled, scope, kinds);
    }
  }

  lemma {:induction false} TypedAnyEvaluates(c: Condition, live: seq<string>, group: string, rule: string,
    form: Form, w: World, settled: set<Key>, scope: Scope, kinds: map<string, Kind>)
    requires AnswersFit(w, settled, kinds) && NoMismatch(ConditionFindings(c, kinds, rule))
    ensures EvalAny(c, live, group, rule, form, w, settled, scope).Ok?
    decreases c, |live|
  {
    if live != [] {
      TypedConditionsEvaluate(c, rule, form, w, settled, scope[group := live[0]], kinds);
      TypedAnyEvaluates(c, live[1..], group, rule, form, w, settled, scope, kinds);
    }
  }

  lemma {:induction false} TypedEveryEvaluates(c: Condition, live: seq<string>, group: string, rule: string,
    form: Form, w: World, settled: set<Key>, scope: Scope, kinds: map<string, Kind>)
    requires AnswersFit(w, settled, kinds) && NoMismatch(ConditionFindings(c, kinds, rule))
    ensures EvalEvery(c, live, group, rule, form, w, settled, scope).Ok?
    decreases c, |live|
  {
    if live != [] {
      TypedConditionsEvaluate(c, rule, form, w, settled, scope[group := live[0]], kinds);
      TypedEveryEvaluates(c, live[1..], group, rule, form, w, settled, scope, kinds);
    }
  }

  lemma {:induction false} TypedRulesEvaluate(rules: seq<Rule>, all: seq<Rule>, form: Form, w: World, settled: set<Key>,
    scope: Scope, kinds: map<string, Kind>)
    requires AnswersFit(w, settled, kinds) && NoMismatch(TypeFindings(all, kinds))
    requires forall rule | rule in rules :: rule in all
    ensures AnyRuleTrue(rules, form, w, settled, scope).Ok?
  {
    if rules != [] {
      FindingsOfOne(all, rules[0], kinds);
      TypedConditionsEvaluate(rules[0].when, rules[0].id, form, w, settled, scope, kinds);
      TypedRulesEvaluate(rules[1..], all, form, w, settled, scope, kinds);
    }
  }

  lemma {:induction false} FindingsOfOne(rules: seq<Rule>, rule: Rule, kinds: map<string, Kind>)
    requires rule in rules
    ensures ConditionFindings(rule.when, kinds, rule.id) <= TypeFindings(rules, kinds)
  {
    if rule != rules[0] {
      FindingsOfOne(rules[1..], rule, kinds);
    }
  }

  lemma {:induction false} TypedGatesDecide(target: Target, form: Form, w: World, settled: set<Key>, scope: Scope,
    kinds: map<string, Kind>)
    requires AnswersFit(w, settled, kinds) && NoMismatch(TypeFindings(form.rules, kinds))
    ensures Gate(target, form, w, settled, scope).Ok?
  {
    forall rule ensures rule in RulesFor(form.rules, target) ==> rule in form.rules {
      RulesForAreTheTargeting(form.rules, target, rule);
    }
    TypedRulesEvaluate(RulesFor(form.rules, target), form.rules, form, w, settled, scope, kinds);
  }

  /** Every pinned question resolves, and the answers of its live instances are of its type; other answers may be anything. */
  ghost predicate Resolved(steps: seq<Step>, w: World, kinds: map<string, Kind>) {
    && (forall p | p in Order(steps) :: p.question in kinds)
    && AnswersFit(w, Keys(AllSlots(steps, w)), kinds)
  }

  lemma {:induction false} TypedSlotsWalk(slots: seq<Slot>, form: Form, w: World, settled: set<Key>,
    kinds: map<string, Kind>)
    requires AnswersFit(w, settled, kinds) && NoMismatch(TypeFindings(form.rules, kinds))
    requires AnswersFit(w, Keys(slots), kinds)
    ensures WalkSlots(slots, form, w, settled).Ok?
    ensures AnswersFit(w, settled + Keys(WalkSlots(slots, form, w, settled).value), kinds)
  {
    hide Gate, TypeFindings;
    if slots == [] {
    } else {
      TypedGatesDecide(OfQuestion(slots[0].at.question), form, w, settled, ScopeOf(slots[0]), kinds);
      assert KeyOfSlot(slots[0]) in Keys(slots);
      forall key | key in Keys(slots[1..]) ensures key in Keys(slots) {
        var s :| s in slots[1..] && KeyOfSlot(s) == key;
        assert s in slots;
      }
      if SlotGate(slots[0], form, w, settled) == Ok(true) {
        TypedSlotsWalk(slots[1..], form, w, settled + {KeyOfSlot(slots[0])}, kinds);
      } else {
        TypedSlotsWalk(slots[1..], form, w, settled, kinds);
      }
      WalkKeepsSlots(slots, form, w, settled);
    }
  }

  lemma FitsOnFewer(w: World, fewer: set<Key>, keys: set<Key>, kinds: map<string, Kind>)
    requires AnswersFit(w, keys, kinds) && fewer <= keys
    ensures AnswersFit(w, fewer, kinds)
  {
    forall key | key in fewer && Present(w, fewer, key).Some? ensures Fits(kinds[key.question], w.answers[key]) {
      assert Present(w, keys, key).Some?;
    }
  }

  lemma {:induction false} TypedStepsWalk(steps: seq<Step>, form: Form, w: World, settled: set<Key>,
    kinds: map<string, Kind>)
    requires AnswersFit(w, settled, kinds) && NoMismatch(TypeFindings(form.rules, kinds))
    requires AnswersFit(w, Keys(AllSlots(steps, w)), kinds)
    ensures WalkSteps(steps, form, w, settled).Ok?
  {
    hide Gate, TypeFindings, StepSlots, WalkSlots;
    if steps != [] {
      var slots := StepSlots(steps[0], w);
      TypedGatesDecide(OfStep(steps[0].id), form, w, settled, map[], kinds);
      KeysOfConcat(slots, AllSlots(steps[1..], w));
      FitsOnFewer(w, Keys(slots), Keys(AllSlots(steps, w)), kinds);
      FitsOnFewer(w, Keys(AllSlots(steps[1..], w)), Keys(AllSlots(steps, w)), kinds);
      TypedSlotsWalk(slots, form, w, settled, kinds);
      TypedStepsWalk(steps[1..], form, w, settled + Keys(WalkStep(steps[0], form, w, settled).value), kinds);
    }
  }

  /**
   * A form whose rules the type check accepts evaluates on every roster and every set of answers of the right
   * types, whatever is visible, forward-only or not: CONDITION_TYPE_MISMATCH is unreachable after publish.
   */
  lemma {:induction false} CheckedRulesNeverFail(form: Form, w: World, kinds: map<string, Kind>)
    requires NoMismatch(TypeFindings(form.rules, kinds)) && Resolved(form.steps, w, kinds)
    ensures Visible(form, w).Ok?
  {
    TypedStepsWalk(form.steps, form, w, {}, kinds);
  }
}
