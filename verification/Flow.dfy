/** The evaluator as the source runs it: nested loops that fill `settled` and `visible`, or stop at an error. */
module Flow {
  import opened Wrappers
  import opened Forms
  import opened Evaluation

  /** How a run ends that has made these slots visible and still has `slots` to walk. */
  function Finish(slots: seq<Slot>, form: Form, w: World, visible: seq<Slot>): Result<seq<Slot>, EvalError> {
    Then(visible, WalkSlots(slots, form, w, Keys(visible)))
  }

  function FinishSteps(steps: seq<Step>, form: Form, w: World, visible: seq<Slot>): Result<seq<Slot>, EvalError> {
    Then(visible, WalkSteps(steps, form, w, Keys(visible)))
  }

  lemma ThenTwice(a: seq<Slot>, b: seq<Slot>, rest: Result<seq<Slot>, EvalError>)
    ensures Then(a, Then(b, rest)) == Then(a + b, rest)
  {
    if rest.Ok? {
      assert a + (b + rest.value) == a + b + rest.value;
    }
  }

  lemma FinishOne(s: Slot, rest: seq<Slot>, form: Form, w: World, visible: seq<Slot>)
    ensures Finish([s] + rest, form, w, visible) ==
            match SlotGate(s, form, w, Keys(visible))
            case Err(e) => Err(e)
            case Ok(false) => Finish(rest, form, w, visible)
            case Ok(true) => Finish(rest, form, w, visible + [s])
  {
    hide SlotGate;
    assert ([s] + rest)[0] == s && ([s] + rest)[1..] == rest;
    KeysOfConcat(visible, [s]);
    assert Keys([s]) == {KeyOfSlot(s)};
    ThenTwice(visible, [s], WalkSlots(rest, form, w, Keys(visible) + {KeyOfSlot(s)}));
  }

  lemma FinishStep(steps: seq<Step>, form: Form, w: World, visible: seq<Slot>)
    requires steps != []
    ensures FinishSteps(steps, form, w, visible) ==
            match StepGate(steps[0].id, form, w, Keys(visible))
            case Err(e) => Err(e)
            case Ok(false) => FinishSteps(steps[1..], form, w, visible)
            case Ok(true) =>
              match Finish(StepSlots(steps[0], w), form, w, visible)
              case Err(e) => Err(e)
              case Ok(more) => FinishSteps(steps[1..], form, w, more)
  {
    hide StepGate, StepSlots, WalkSlots;
    var here := WalkStep(steps[0], form, w, Keys(visible));
    if here.Ok? {
      KeysOfConcat(visible, here.value);
      ThenTwice(visible, here.value, WalkSteps(steps[1..], form, w, Keys(visible) + Keys(here.value)));
      assert Keys([]) == {} && visible + [] == visible;
      assert Keys(visible) + {} == Keys(visible);
    }
  }

  lemma {:induction false} FirstMember(members: seq<string>, step: string, group: string, w: World, rest: seq<Slot>)
    requires members != []
    ensures Slots(MemberPositions(members, step, group), w) + rest
         == InstanceSlots(Position(step, members[0], Some(group)), Roster(w, group))
          + (Slots(MemberPositions(members[1..], step, group), w) + rest)
  {
    hide InstanceSlots;
    assert MemberPositions(members, step, group)[1..] == MemberPositions(members[1..], step, group);
  }

  lemma FinishNothing(form: Form, w: World, visible: seq<Slot>)
    ensures Finish([], form, w, visible) == Ok(visible)
  {
    assert visible + [] == visible;
  }

  /** The closure state of one evaluation. */
  class Pass {
    const form: Form
    const world: World
    var settled: set<Key>
    var visible: seq<Slot>

    ghost predicate Valid()
      reads this
    {
      settled == Keys(visible)
    }

    constructor (form: Form, world: World)
      ensures Valid() && this.form == form && this.world == world && visible == []
    {
      this.form := form;
      this.world := world;
      settled := {};
      visible := [];
    }

    /** From `was`, the slots have been walked, so only `rest` is left; or the run is over with an error. */
    ghost predicate Walked(slots: seq<Slot>, rest: seq<Slot>, failure: Option<EvalError>, was: seq<Slot>)
      reads this
    {
      && Valid()
      && Finish(slots + rest, form, world, was)
         == if failure.Some? then Err(failure.value) else Finish(rest, form, world, visible)
    }

    method WalkQuestion(s: Slot, ghost rest: seq<Slot>) returns (failure: Option<EvalError>)
      requires Valid()
      modifies this
      ensures Walked([s], rest, failure, old(visible))
      ensures visible == old(visible) || visible == old(visible) + [s]
    {
      hide Gate, Finish;
      FinishOne(s, rest, form, world, visible);
      match SlotGate(s, form, world, settled) {
        case Err(e) => return Some(e);
        case Ok(false) => return None;
        case Ok(true) =>
          KeysOfConcat(visible, [s]);
          assert Keys([s]) == {KeyOfSlot(s)};
          settled := settled + {KeyOfSlot(s)};
          visible := visible + [s];
          return None;
      }
    }

    method WalkMember(p: Position, live: seq<string>, ghost rest: seq<Slot>) returns (failure: Option<EvalError>)
      requires Valid()
      modifies this
      ensures Walked(InstanceSlots(p, live), rest, failure, old(visible))
    {
      hide Finish;
      var i := 0;
      while i < |live|
        invariant i <= |live| && Valid()
        invariant Finish(InstanceSlots(p, live) + rest, form, world, old(visible))
               == Finish(InstanceSlots(p, live[i..]) + rest, form, world, visible)
      {
        var s := Slot(p, Some(live[i]));
        ghost var ahead := InstanceSlots(p, live[i + 1..]) + rest;
        assert live[i..][1..] == live[i + 1..];
        assert InstanceSlots(p, live[i..]) + rest == [s] + ahead;
        failure := WalkQuestion(s, ahead);
        if failure.Some? {
          return;
        }
        i := i + 1;
      }
      assert InstanceSlots(p, live[|live|..]) + rest == rest;
      return None;
    }

    /** Member-major: every live instance of one member before the next member. */
    method WalkGroup(step: string, group: string, members: seq<string>, ghost rest: seq<Slot>)
      returns (failure: Option<EvalError>)
      requires Valid()
      modifies this
      ensures Walked(Slots(MemberPositions(members, step, group), world), rest, failure, old(visible))
    {
      hide Finish, MemberPositions, InstanceSlots;
      var live := Roster(world, group);
      var m := 0;
      while m < |members|
        invariant m <= |members| && Valid()
        invariant Finish(Slots(MemberPositions(members, step, group), world) + rest, form, world, old(visible))
               == Finish(Slots(MemberPositions(members[m..], step, group), world) + rest, form, world, visible)
      {
        var p := Position(step, members[m], Some(group));
        ghost var ahead := Slots(MemberPositions(members[m + 1..], step, group), world) + rest;
        FirstMember(members[m..], step, group, world, rest);
        assert members[m..][1..] == members[m + 1..];
        failure := WalkMember(p, live, ahead);
        if failure.Some? {
          return;
        }
        m := m + 1;
      }
      assert MemberPositions(members[|members|..], step, group) == [];
      assert [] + rest == rest;
      return None;
    }

    method WalkItem(step: string, item: Item, ghost rest: seq<Slot>) returns (failure: Option<EvalError>)
      requires Valid()
      modifies this
      ensures Walked(Slots(ItemPositions(item, step), world), rest, failure, old(visible))
    {
      match item
      case Plain(question) =>
        var p := Position(step, question, None);
        assert [p][1..] == [] && Slots([p], world) == [Slot(p, None)];
        failure := WalkQuestion(Slot(p, None), rest);
      case Repeat(group, members) =>
        failure := WalkGroup(step, group, members, rest);
    }

    method WalkItems(step: Step) returns (failure: Option<EvalError>)
      requires Valid()
      modifies this
      ensures Walked(StepSlots(step, world), [], failure, old(visible))
    {
      hide Finish;
      var i := 0;
      assert StepSlots(step, world) + [] == StepSlots(step, world);
      while i < |step.items|
        invariant i <= |step.items| && Valid()
        invariant Finish(StepSlots(step, world), form, world, old(visible))
               == Finish(Slots(ItemsPositions(step.items[i..], step.id), world), form, world, visible)
      {
        ghost var ahead := Slots(ItemsPositions(step.items[i + 1..], step.id), world);
        assert step.items[i..][1..] == step.items[i + 1..];
        SlotsOfConcat(ItemPositions(step.items[i], step.id), ItemsPositions(step.items[i + 1..], step.id), world);
        failure := WalkItem(step.id, step.items[i], ahead);
        if failure.Some? {
          return;
        }
        i := i + 1;
      }
      return None;
    }

    /** The whole evaluation: a hidden step settles none of its questions. */
    method Run() returns (outcome: Result<seq<Slot>, EvalError>)
      requires Valid() && visible == []
      modifies this
      ensures outcome == Visible(form, world)
      ensures outcome.Ok? ==> visible == outcome.value && settled == Keys(outcome.value)
    {
      hide Gate, StepSlots, WalkSlots;
      var k := 0;
      StartIsVisible();
      while k < |form.steps|
        invariant k <= |form.steps| && Valid()
        invariant Visible(form, world) == FinishSteps(form.steps[k..], form, world, visible)
      {
        var step := form.steps[k];
        FinishStep(form.steps[k..], form, world, visible);
        assert form.steps[k..][1..] == form.steps[k + 1..];
        match StepGate(step.id, form, world, settled) {
          case Err(e) => return Err(e);
          case Ok(false) =>
          case Ok(true) =>
            var failure := WalkItems(step);
            assert StepSlots(step, world) + [] == StepSlots(step, world);
            if failure.Some? {
              return Err(failure.value);
            }
            FinishNothing(form, world, visible);
        }
        k := k + 1;
      }
      assert visible + [] == visible;
      return Ok(visible);
    }

    lemma StartIsVisible()
      ensures Visible(form, world) == FinishSteps(form.steps, form, world, [])
    {
      assert Keys([]) == {};
      if Visible(form, world).Ok? {
        assert [] + Visible(form, world).value == Visible(form, world).value;
      }
    }
  }
}
