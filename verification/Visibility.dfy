/** What may change a visibility and what may not, over every form, roster and set of answers. */
module Visibility {
  import opened Wrappers
  import opened Answers
  import opened Forms
  import opened Evaluation
  import opened RuleTypes
  import opened Semantics

  // ----- a published form has exactly one visibility -----

  /** Both publish checks pass, and the definitions and answers are of the types the checks saw. */
  ghost predicate Published(form: Form, w: World, kinds: map<string, Kind>) {
    && WellFormed(form)
    && Backward(form.rules, DocumentOrder(form)) == []
    && NoMismatch(TypeFindings(form.rules, kinds))
    && Resolved(form.steps, w, kinds)
  }

  /** Evaluation of a published form succeeds, its outcome confirms itself, and nothing else does. */
  lemma PublishedFormsHaveOneVisibility(form: Form, w: World, kinds: map<string, Kind>)
    requires Published(form, w, kinds)
    ensures Visible(form, w).Ok? && SelfConsistent(form, w, Keys(Visible(form, w).value))
    ensures forall shown | SelfConsistent(form, w, shown) :: shown == Keys(Visible(form, w).value)
  {
    CheckedRulesNeverFail(form, w, kinds);
    ForwardPassFindsTheOnlyFixpoint(form, w, Keys(Visible(form, w).value));
    forall shown | SelfConsistent(form, w, shown) ensures shown == Keys(Visible(form, w).value) {
      ForwardPassFindsTheOnlyFixpoint(form, w, shown);
    }
  }

  // ----- why the order check is there -----

  const ASKED: Key := Key("q_a", None)

  /** One question, shown by a rule that reads it. */
  function SelfReading(when: Condition): Form {
    Form([Step("stp_a", [Plain("q_a")])], [Rule("rul_a", when, [OfQuestion("q_a")])])
  }

  const ANSWERED_A: World := World(map[], map[ASKED := BooleanValue(true)])

  lemma {:induction false} SelfReadingUnfolded(when: Condition, shown: set<Key>)
    ensures AllSlots(SelfReading(when).steps, ANSWERED_A) == [Slot(Position("stp_a", "q_a", None), None)]
    ensures Keys(AllSlots(SelfReading(when).steps, ANSWERED_A)) == {ASKED}
    ensures StepGate("stp_a", SelfReading(when), ANSWERED_A, shown) == Ok(true)
    ensures SlotGate(Slot(Position("stp_a", "q_a", None), None), SelfReading(when), ANSWERED_A, shown)
         == Eval(when, "rul_a", SelfReading(when), ANSWERED_A, shown, map[])
    ensures Effective(SelfReading(when), ANSWERED_A, shown, "q_a", map[]).Some? <==> ASKED in shown
  {
    var form := SelfReading(when);
    var p := Position("stp_a", "q_a", None);
    var step := form.steps[0];
    assert step.items[1..] == [] && form.steps[1..] == [] && form.rules[1..] == [];
    assert StepPositions(step) == [p];
    assert DocumentOrder(form) == [p];
    assert [p][1..] == [];
    assert Slots([p], ANSWERED_A) == [Slot(p, None)];
    assert KeyOfSlot(Slot(p, None)) == ASKED;
    assert RulesFor(form.rules, OfStep("stp_a")) == [];
    assert RulesFor(form.rules, OfQuestion("q_a")) == form.rules;
    assert GroupOf([p], "q_a") == None;
    assert ScopeOf(Slot(p, None)) == map[];
    assert AnyRuleTrue(form.rules[1..], form, ANSWERED_A, shown, map[]) == Ok(false);
    assert form.rules[0].when == when && form.rules[0].id == "rul_a";
    assert AnyRuleTrue(form.rules, form, ANSWERED_A, shown, map[]) == Eval(when, "rul_a", form, ANSWERED_A, shown, map[]);
  }

  /** Without forward-only rules a visibility can oscillate, so that none confirms itself; or latch, so that two do. */
  lemma BackwardRulesHaveNoneOrTwo(shown: set<Key>)
    ensures !SelfConsistent(SelfReading(Not(Answered("q_a"))), ANSWERED_A, shown)
    ensures SelfConsistent(SelfReading(Answered("q_a")), ANSWERED_A, shown) <==> shown <= {ASKED}
  {
    hide StepGate, SlotGate, AllSlots;
    SelfReadingUnfolded(Not(Answered("q_a")), shown);
    SelfReadingUnfolded(Answered("q_a"), shown);
    var s := Slot(Position("stp_a", "q_a", None), None);
    assert Eval(Answered("q_a"), "rul_a", SelfReading(Answered("q_a")), ANSWERED_A, shown, map[]) == Ok(ASKED in shown);
    assert Eval(Answered("q_a"), "rul_a", SelfReading(Not(Answered("q_a"))), ANSWERED_A, shown, map[]) == Ok(ASKED in shown);
    assert Decision(s, SelfReading(Not(Answered("q_a"))), ANSWERED_A, shown) == Ok(ASKED !in shown);
    assert s in AllSlots(SelfReading(Not(Answered("q_a"))).steps, ANSWERED_A);
  }

  // ----- where the evaluator and the documented reading of targets part -----

  /** The second step is shown when the first question is answered, its question when that is not. */
  const PARTED: Form := Form(
    [Step("stp_a", [Plain("q_a")]), Step("stp_b", [Plain("q_b")])],
    [Rule("rul_a", Answered("q_a"), [OfStep("stp_b")]), Rule("rul_b", Not(Answered("q_a")), [OfQuestion("q_b")])])

  const SLOT_B: Slot := Slot(Position("stp_b", "q_b", None), None)

  lemma PartedRules()
    ensures RulesFor(PARTED.rules, OfStep("stp_b")) == [PARTED.rules[0]]
    ensures RulesFor(PARTED.rules, OfQuestion("q_b")) == [PARTED.rules[1]]
  {
    assert PARTED.rules[1..] == [PARTED.rules[1]];
    assert PARTED.rules[1..][1..] == [];
  }

  lemma PartedConditions()
    ensures Eval(Answered("q_a"), "rul_a", PARTED, ANSWERED_A, {ASKED}, map[]) == Ok(true)
    ensures Eval(Not(Answered("q_a")), "rul_b", PARTED, ANSWERED_A, {ASKED}, map[]) == Ok(false)
  {
    var a, b := PARTED.steps[0], PARTED.steps[1];
    assert a.items[1..] == [] && b.items[1..] == [];
    assert PARTED.steps[1..] == [b] && PARTED.steps[1..][1..] == [];
    assert StepPositions(a) == [Position("stp_a", "q_a", None)] && StepPositions(b) == [Position("stp_b", "q_b", None)];
    var order := DocumentOrder(PARTED);
    assert order == [Position("stp_a", "q_a", None), Position("stp_b", "q_b", None)];
    assert order[1..] == [order[1]] && order[1..][1..] == [];
    assert GroupOf(order, "q_a") == None;
    assert Eval(Answered("q_a"), "rul_b", PARTED, ANSWERED_A, {ASKED}, map[]) == Ok(true);
  }

  lemma PartedOrder()
    ensures DocumentOrder(PARTED) == [Position("stp_a", "q_a", None), Position("stp_b", "q_b", None)]
    ensures "q_a" != "q_b" && "stp_a" != "stp_b"
  {
    var a, b := Position("stp_a", "q_a", None), Position("stp_b", "q_b", None);
    assert PARTED.steps[1..] == [PARTED.steps[1]] && PARTED.steps[1..][1..] == [];
    assert [Plain("q_a")][1..] == [] && [Plain("q_b")][1..] == [];
    assert StepPositions(PARTED.steps[0]) == [a] && StepPositions(PARTED.steps[1]) == [b];
    assert "q_a"[2] != "q_b"[2] && "stp_a"[4] != "stp_b"[4];
  }

  lemma PartedIsForward()
    ensures Backward(PARTED.rules, DocumentOrder(PARTED)) == []
  {
    PartedOrder();
    NoFindingIffForward(PARTED);
    hide DocumentOrder, Backward;
    assert Forward(PARTED);
  }

  lemma PartedIsTyped(kinds: map<string, Kind>)
    ensures TypeFindings(PARTED.rules, kinds) == {}
  {
    var first, second := PARTED.rules[0], PARTED.rules[1];
    assert ConditionFindings(first.when, kinds, first.id) == {};
    assert ConditionFindings(second.when, kinds, second.id) == ConditionFindings(Answered("q_a"), kinds, second.id) == {};
    assert PARTED.rules[1..] == [second] && PARTED.rules[1..][1..] == [];
    assert TypeFindings([], kinds) == {} && TypeFindings([second], kinds) == {};
  }

  /** The form passes both publish checks, with these two kinds of question. */
  lemma PartedIsPublished()
    ensures Published(PARTED, ANSWERED_A, map["q_a" := Boolean, "q_b" := ShortText])
  {
    var kinds := map["q_a" := Boolean, "q_b" := ShortText];
    PartedOrder();
    PartedIsForward();
    PartedIsTyped(kinds);
    hide DocumentOrder, Backward, TypeFindings, AllSlots;
    assert Order(PARTED.steps) == DocumentOrder(PARTED);
    forall key | key in Keys(AllSlots(PARTED.steps, ANSWERED_A)) ensures key == ASKED || key == Key("q_b", None) {
      var s :| s in AllSlots(PARTED.steps, ANSWERED_A) && KeyOfSlot(s) == key;
      SlotsAreTheLiveInstances(PARTED, ANSWERED_A, s);
    }
  }

  /**
   With the first question answered, the reading by expansion shows the second; the evaluator, which asks both gates,
   hides it.  The form is one that both publish checks accept.
   */
  lemma ExpansionShowsWhatTheEvaluatorHides()
    ensures Decision(SLOT_B, PARTED, ANSWERED_A, {ASKED}) == Ok(false)
    ensures ShownByExpansion(SLOT_B, PARTED, ANSWERED_A, {ASKED})
    ensures Published(PARTED, ANSWERED_A, map["q_a" := Boolean, "q_b" := ShortText])
  {
    hide RulesFor, Eval, Published, Decision, ShownByExpansion;
    PartedIsPublished();
    PartedIsTornApart();
  }

  lemma PartedIsTornApart()
    ensures Decision(SLOT_B, PARTED, ANSWERED_A, {ASKED}) == Ok(false)
    ensures ShownByExpansion(SLOT_B, PARTED, ANSWERED_A, {ASKED})
  {
    PartedRules();
    PartedConditions();
    hide RulesFor, Eval;
    assert [PARTED.rules[0]][1..] == [] && [PARTED.rules[1]][1..] == [];
    assert ScopeOf(SLOT_B) == map[];
    assert AnyRuleTrue([PARTED.rules[0]], PARTED, ANSWERED_A, {ASKED}, map[]) == Ok(true);
    assert AnyRuleTrue([PARTED.rules[1]], PARTED, ANSWERED_A, {ASKED}, map[]) == Ok(false);
    assert PARTED.rules[0] in PARTED.rules;
    assert TrueRuleFor(OfStep("stp_b"), PARTED, ANSWERED_A, {ASKED}, map[]);
  }

  // ----- hidden answers are inert -----

  lemma {:induction false} SlotsIgnoreTheHidden(slots: seq<Slot>, form: Form, w1: World, w2: World,
    settled: set<Key>, shown: set<Key>)
    requires w1.rosters == w2.rosters && (forall key :: Present(w1, shown, key) == Present(w2, shown, key))
    requires WalkSlots(slots, form, w1, settled).Ok?
    requires settled + Keys(WalkSlots(slots, form, w1, settled).value) <= shown
    ensures WalkSlots(slots, form, w2, settled) == WalkSlots(slots, form, w1, settled)
  {
    hide Gate;
    if slots == [] {
    } else {
      SettledReadTheSame(w1, w2, settled, shown);
      var target := OfQuestion(slots[0].at.question);
      GateDependsOnItsReferences(target, form, w1, settled, w2, settled, ScopeOf(slots[0]));
      if SlotGate(slots[0], form, w1, settled) == Ok(true) {
        var here := settled + {KeyOfSlot(slots[0])};
        KeysOfConcat([slots[0]], WalkSlots(slots[1..], form, w1, here).value);
        assert KeyOfSlot(slots[0]) in Keys([slots[0]]);
        SlotsIgnoreTheHidden(slots[1..], form, w1, w2, here, shown);
      } else {
        SlotsIgnoreTheHidden(slots[1..], form, w1, w2, settled, shown);
      }
    }
  }

  lemma SettledReadTheSame(w1: World, w2: World, settled: set<Key>, shown: set<Key>)
    requires w1.rosters == w2.rosters && (forall key :: Present(w1, shown, key) == Present(w2, shown, key))
    requires settled <= shown
    ensures forall questions, groups :: SameFor(questions, groups, w1, settled, w2, settled)
  {
    forall key ensures Present(w1, settled, key) == Present(w2, settled, key) {
      assert Present(w1, shown, key) == Present(w2, shown, key);
    }
  }

  lemma {:induction false} SameSlotsSameRosters(ps: seq<Position>, w1: World, w2: World)
    requires w1.rosters == w2.rosters
    ensures Slots(ps, w1) == Slots(ps, w2)
  {
    if ps != [] {
      SameSlotsSameRosters(ps[1..], w1, w2);
    }
  }

  lemma {:induction false} StepsIgnoreTheHidden(steps: seq<Step>, form: Form, w1: World, w2: World,
    settled: set<Key>, shown: set<Key>)
    requires w1.rosters == w2.rosters && (forall key :: Present(w1, shown, key) == Present(w2, shown, key))
    requires WalkSteps(steps, form, w1, settled).Ok?
    requires settled + Keys(WalkSteps(steps, form, w1, settled).value) <= shown
    ensures WalkSteps(steps, form, w2, settled) == WalkSteps(steps, form, w1, settled)
  {
    hide Gate, WalkSlots;
    if steps == [] {
    } else {
      var here := WalkStep(steps[0], form, w1, settled).value;
      KeysOfConcat(here, WalkSteps(steps[1..], form, w1, settled + Keys(here)).value);
      SettledReadTheSame(w1, w2, settled, shown);
      GateDependsOnItsReferences(OfStep(steps[0].id), form, w1, settled, w2, settled, map[]);
      SameSlotsSameRosters(StepPositions(steps[0]), w1, w2);
      if StepGate(steps[0].id, form, w1, settled) == Ok(true) {
        SlotsIgnoreTheHidden(StepSlots(steps[0], w1), form, w1, w2, settled, shown);
      }
      StepsIgnoreTheHidden(steps[1..], form, w1, w2, settled + Keys(here), shown);
    }
  }

  /**
   * Answers to what is not visible change nothing, on any form: not those of a hidden question or of a removed
   * instance, not a key the form does not have, and not blank text in place of no answer.
   */
  lemma HiddenAnswersAreInert(form: Form, w1: World, w2: World)
    requires Visible(form, w1).Ok? && w1.rosters == w2.rosters
    requires forall key :: Present(w1, Keys(Visible(form, w1).value), key) == Present(w2, Keys(Visible(form, w1).value), key)
    ensures Visible(form, w2) == Visible(form, w1)
  {
    var shown := Keys(Visible(form, w1).value);
    assert {} + shown == shown;
    StepsIgnoreTheHidden(form.steps, form, w1, w2, {}, shown);
  }

  // ----- later answers cannot reach back -----

  /** Some position before `limit` is in the group, or none at all is. */
  ghost predicate FixedBefore(order: seq<Position>, limit: nat, group: string) {
    || (exists i :: 0 <= i < limit && i < |order| && order[i].group == Some(group))
    || (forall i | 0 <= i < |order| :: order[i].group != Some(group))
  }

  /** The answers that count agree on every question before position `limit`, and so do the rosters of all groups that begin there. */
  ghost predicate SameBefore(order: seq<Position>, limit: nat, w1: World, w2: World) {
    && (forall group | FixedBefore(order, limit, group) :: Roster(w1, group) == Roster(w2, group))
    && forall i, key: Key | 0 <= i < limit && i < |order| && key.question == order[i].question ::
         Present(w1, {key}, key) == Present(w2, {key}, key)
  }

  /** The slots of the first `n` positions that both rosters have are shown alike. */
  ghost predicate ShownAlike(form: Form, w1: World, w2: World, n: nat, shown1: set<Key>, shown2: set<Key>) {
    var order := DocumentOrder(form);
    forall i, s: Slot | 0 <= i < n && i < |order| && s.at == order[i] &&
                  s in AllSlots(form.steps, w1) && s in AllSlots(form.steps, w2) ::
      KeyOfSlot(s) in shown1 <==> KeyOfSlot(s) in shown2
  }

  lemma {:induction false} AlikeUpTo(form: Form, w1: World, w2: World, shown1: set<Key>, shown2: set<Key>, limit: nat, n: nat)
    requires WellFormed(form) && Forward(form) && SameBefore(DocumentOrder(form), limit, w1, w2)
    requires SelfConsistent(form, w1, shown1) && SelfConsistent(form, w2, shown2)
    requires n <= limit + 1 && n <= |DocumentOrder(form)|
    ensures ShownAlike(form, w1, w2, n, shown1, shown2)
  {
    if n > 0 {
      AlikeUpTo(form, w1, w2, shown1, shown2, limit, n - 1);
      forall s: Slot | s.at == DocumentOrder(form)[n - 1] && s in AllSlots(form.steps, w1) && s in AllSlots(form.steps, w2)
        ensures KeyOfSlot(s) in shown1 <==> KeyOfSlot(s) in shown2
      {
        AlikeAt(form, w1, w2, shown1, shown2, limit, n - 1, s);
      }
    }
  }

  lemma {:induction false} AlikeAt(form: Form, w1: World, w2: World, shown1: set<Key>, shown2: set<Key>, limit: nat,
    at: nat, s: Slot)
    requires WellFormed(form) && Forward(form) && SameBefore(DocumentOrder(form), limit, w1, w2)
    requires SelfConsistent(form, w1, shown1) && SelfConsistent(form, w2, shown2)
    requires at <= limit && at < |DocumentOrder(form)| && s.at == DocumentOrder(form)[at]
    requires s in AllSlots(form.steps, w1) && s in AllSlots(form.steps, w2)
    requires ShownAlike(form, w1, w2, at, shown1, shown2)
    ensures KeyOfSlot(s) in shown1 <==> KeyOfSlot(s) in shown2
  {
    hide Gate, AllSlots, ShownAlike, Forward, SameBefore;
    GatesReadOnlyBefore(form, w1, w2, shown1, shown2, limit, at, OfQuestion(s.at.question));
    GatesReadOnlyBefore(form, w1, w2, shown1, shown2, limit, at, OfStep(s.at.step));
    GateDependsOnItsReferences(OfQuestion(s.at.question), form, w1, shown1, w2, shown2, ScopeOf(s));
    GateDependsOnItsReferences(OfStep(s.at.step), form, w1, shown1, w2, shown2, map[]);
    assert Decision(s, form, w1, shown1) == Decision(s, form, w2, shown2);
  }

  lemma {:induction false} GatesReadOnlyBefore(form: Form, w1: World, w2: World, shown1: set<Key>, shown2: set<Key>,
    limit: nat, at: nat, target: Target)
    requires Forward(form) && SameBefore(DocumentOrder(form), limit, w1, w2)
    requires at <= limit && at < |DocumentOrder(form)| && Shows(target, DocumentOrder(form)[at])
    requires shown1 <= Keys(AllSlots(form.steps, w1)) && shown2 <= Keys(AllSlots(form.steps, w2))
    requires ShownAlike(form, w1, w2, at, shown1, shown2)
    ensures SameFor(GateRefs(form, target), GateGroupRefs(form, target), w1, shown1, w2, shown2)
  {
    hide AllSlots;
    forall group | group in GateGroupRefs(form, target) ensures Roster(w1, group) == Roster(w2, group) {
      GroupsReadAreBefore(form, limit, at, target, group);
    }
    forall key: Key | key.question in GateRefs(form, target)
      ensures Present(w1, shown1, key) == Present(w2, shown2, key)
    {
      if key in shown1 {
        AnswersReadAreBefore(form, w1, w2, shown1, shown2, limit, at, target, key, w1);
      } else if key in shown2 {
        AnswersReadAreBefore(form, w1, w2, shown1, shown2, limit, at, target, key, w2);
      }
    }
  }

  lemma GroupsReadAreBefore(form: Form, limit: nat, at: nat, target: Target, group: string)
    requires Forward(form) && at <= limit && at < |DocumentOrder(form)| && Shows(target, DocumentOrder(form)[at])
    requires group in GateGroupRefs(form, target)
    ensures FixedBefore(DocumentOrder(form), limit, group)
  {
    var order := DocumentOrder(form);
    var rule := WhoseGroupReference(form.rules, target, group);
    if i :| 0 <= i < |order| && order[i].group == Some(group) {
      assert Reads(rule, order[i]) && Shows(target, order[at]);
      assert i < limit;
    }
  }

  /** A key a gate reads, shown in one world `w` of the two, is shown in both and answered alike. */
  lemma {:induction false} AnswersReadAreBefore(form: Form, w1: World, w2: World, shown1: set<Key>, shown2: set<Key>,
    limit: nat, at: nat, target: Target, key: Key, w: World)
    requires Forward(form) && SameBefore(DocumentOrder(form), limit, w1, w2)
    requires at <= limit && at < |DocumentOrder(form)| && Shows(target, DocumentOrder(form)[at])
    requires ShownAlike(form, w1, w2, at, shown1, shown2)
    requires key.question in GateRefs(form, target) && key in Keys(AllSlots(form.steps, w)) && (w == w1 || w == w2)
    ensures key in shown1 <==> key in shown2
    ensures Present(w1, {key}, key) == Present(w2, {key}, key)
  {
    hide AllSlots, Shows;
    var order := DocumentOrder(form);
    var s :| s in AllSlots(form.steps, w) && KeyOfSlot(s) == key;
    SlotsAreTheLiveInstances(form, w, s);
    SlotsAreTheLiveInstances(form, w1, s);
    SlotsAreTheLiveInstances(form, w2, s);
    var i :| 0 <= i < |order| && order[i] == s.at;
    var rule := WhoseReference(form.rules, target, key.question);
    assert Reads(rule, order[i]);
    assert i < at;
    if s.at.group.Some? {
      assert FixedBefore(order, limit, s.at.group.value);
    }
  }

  /** What is shown at or before a position depends on the answers before it, and the rosters of groups begun there, alone. */
  lemma LaterAnswersNeverReachBack(form: Form, w1: World, w2: World, limit: nat)
    requires WellFormed(form) && Backward(form.rules, DocumentOrder(form)) == []
    requires Visible(form, w1).Ok? && Visible(form, w2).Ok?
    requires SameBefore(DocumentOrder(form), limit, w1, w2)
    ensures ShownAlike(form, w1, w2, limit + 1, Keys(Visible(form, w1).value), Keys(Visible(form, w2).value))
  {
    hide SelfConsistent, Forward, Visible, Backward;
    var order := DocumentOrder(form);
    var shown1, shown2 := Keys(Visible(form, w1).value), Keys(Visible(form, w2).value);
    NoFindingIffForward(form);
    ForwardPassFindsTheOnlyFixpoint(form, w1, shown1);
    ForwardPassFindsTheOnlyFixpoint(form, w2, shown2);
    AlikeUpTo(form, w1, w2, shown1, shown2, limit, if limit + 1 <= |order| then limit + 1 else |order|);
  }

  // ----- the two group quantifiers are duals except over an empty roster -----

  function Negated(r: Result<bool, EvalError>): Result<bool, EvalError> {
    match r
    case Err(e) => Err(e)
    case Ok(b) => Ok(!b)
  }

  lemma {:induction false} QuantifiersAreDualOverTheLive(c: Condition, live: seq<string>, group: string, rule: string,
    form: Form, w: World, settled: set<Key>, scope: Scope)
    ensures EvalEvery(c, live, group, rule, form, w, settled, scope)
         == Negated(EvalAny(Not(c), live, group, rule, form, w, settled, scope))
  {
    if live != [] {
      QuantifiersAreDualOverTheLive(c, live[1..], group, rule, form, w, settled, scope);
    }
  }

  /** `everyInstance` rewrites to `not(anyInstance(not c))` exactly when the group has a live instance. */
  lemma {:induction false} EveryIsNotAnyNotIffInhabited(c: Condition, group: string, rule: string,
    form: Form, w: World, settled: set<Key>, scope: Scope)
    ensures Eval(EveryInstance(group, c), rule, form, w, settled, scope)
              == Eval(Not(AnyInstance(group, Not(c))), rule, form, w, settled, scope)
            <==> Roster(w, group) != []
  {
    QuantifiersAreDualOverTheLive(c, Roster(w, group), group, rule, form, w, settled, scope);
  }
}
