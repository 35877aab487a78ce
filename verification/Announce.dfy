/**
 The announcement store of the admin shell, under re-entrancy.  A listener that is being called may
 itself subscribe, unsubscribe or announce before it returns; the deliveries in progress form a
 stack.  A listener stands for a function's identity, so subscribing one twice makes two entries.
 */
module Announce {

  type Listener = nat

  datatype Announcement = Announcement(text: string, number: nat)

  const NOTHING := Announcement("", 0)

  /** An announce in progress: the array its loop walks, how far, and whether a call is on the way. */
  datatype Frame = Frame(announce: nat, snapshot: seq<Listener>, next: nat, running: bool)

  /** An announce that began, with the listener array of that moment. */
  datatype Begun = Begun(text: string, listeners: seq<Listener>)

  /** A call of a listener by the announce of this number, and what `readAnnouncement` then gives. */
  datatype Call = Call(announce: nat, listener: Listener, observed: Announcement)

  /** The module's two variables, the call stack, and the history of announces and calls. */
  datatype Store = Store(
    current: Announcement,
    listeners: seq<Listener>,
    stack: seq<Frame>,
    begun: seq<Begun>,
    log: seq<Call>)

  const INITIAL := Store(NOTHING, [], [], [], [])

  datatype Action =
    | Announce(text: string)
    | Subscribe(listener: Listener)
    | Unsubscribe(listener: Listener)
    | CallNext
    | Return
    | Finish

  function Top(s: Store): Frame
    requires s.stack != []
  {
    s.stack[|s.stack| - 1]
  }

  function WithTop(s: Store, f: Frame): seq<Frame>
    requires s.stack != []
  {
    s.stack[|s.stack| - 1 := f]
  }

  /** Code that may use the store runs outside any delivery, or in the listener called last. */
  predicate UserCodeRuns(s: Store) { s.stack == [] || Top(s).running }

  predicate Enabled(s: Store, a: Action) {
    match a
    case Announce(_) => UserCodeRuns(s)
    case Subscribe(_) => UserCodeRuns(s)
    case Unsubscribe(_) => UserCodeRuns(s)
    case CallNext => s.stack != [] && !Top(s).running && Top(s).next < |Top(s).snapshot|
    case Return => s.stack != [] && Top(s).running
    case Finish => s.stack != [] && !Top(s).running && Top(s).next >= |Top(s).snapshot|
  }

  /** `filter((entry) => entry !== listener)`. */
  function Without(ls: seq<Listener>, l: Listener): seq<Listener> {
    if ls == [] then []
    else Without(ls[..|ls| - 1], l) + if ls[|ls| - 1] == l then [] else [ls[|ls| - 1]]
  }

  function Step(s: Store, a: Action): Store
    requires Enabled(s, a)
  {
    match a
    case Announce(text) =>
      s.(current := Announcement(text, s.current.number + 1),
         begun := s.begun + [Begun(text, s.listeners)],
         stack := s.stack + [Frame(|s.begun|, s.listeners, 0, false)])
    case Subscribe(l) => s.(listeners := s.listeners + [l])
    case Unsubscribe(l) => s.(listeners := Without(s.listeners, l))
    case CallNext =>
      var f := Top(s);
      s.(log := s.log + [Call(f.announce, f.snapshot[f.next], s.current)],
         stack := WithTop(s, f.(next := f.next + 1, running := true)))
    case Return => s.(stack := WithTop(s, Top(s).(running := false)))
    case Finish => s.(stack := s.stack[..|s.stack| - 1])
  }

  ghost predicate Legal(s: Store, actions: seq<Action>)
    decreases |actions|, 0
  {
    actions == [] ||
    (Legal(s, actions[..|actions| - 1]) && Enabled(Run(s, actions[..|actions| - 1]), actions[|actions| - 1]))
  }

  ghost function Run(s: Store, actions: seq<Action>): Store
    requires Legal(s, actions)
    decreases |actions|, 1
  {
    if actions == [] then s else Step(Run(s, actions[..|actions| - 1]), actions[|actions| - 1])
  }

  // ----- the invariant -----

  /** The listeners an announce has called, in order. */
  function CallsOf(log: seq<Call>, announce: nat): seq<Listener> {
    if log == [] then []
    else
      var last := log[|log| - 1];
      CallsOf(log[..|log| - 1], announce) + if last.announce == announce then [last.listener] else []
  }

  /** What the store holds once this many announces have begun. */
  function At(begun: seq<Begun>, number: nat): Announcement
    requires number <= |begun|
  {
    if number == 0 then NOTHING else Announcement(begun[number - 1].text, number)
  }

  ghost predicate InProgress(s: Store, announce: nat) {
    exists i :: 0 <= i < |s.stack| && s.stack[i].announce == announce
  }

  ghost predicate StackInv(s: Store) {
    && (forall i | 0 <= i < |s.stack| ::
          var f := s.stack[i];
          && f.announce < |s.begun|
          && f.snapshot == s.begun[f.announce].listeners
          && f.next <= |f.snapshot|
          && CallsOf(s.log, f.announce) == f.snapshot[..f.next])
    && (forall i, j | 0 <= i < j < |s.stack| :: s.stack[i].announce < s.stack[j].announce)
    && (forall i | 0 <= i < |s.stack| - 1 :: s.stack[i].running)
  }

  ghost predicate DoneInv(s: Store) {
    forall a | 0 <= a < |s.begun| && !InProgress(s, a) :: CallsOf(s.log, a) == s.begun[a].listeners
  }

  ghost predicate LogInv(s: Store) {
    && (forall i | 0 <= i < |s.log| ::
          s.log[i].announce < s.log[i].observed.number <= |s.begun| &&
          s.log[i].observed == At(s.begun, s.log[i].observed.number))
    && (forall i, j | 0 <= i <= j < |s.log| :: s.log[i].observed.number <= s.log[j].observed.number)
  }

  ghost predicate Inv(s: Store) {
    && s.current == At(s.begun, |s.begun|)
    && StackInv(s) && DoneInv(s) && LogInv(s)
  }

  lemma {:induction false} NoCallsYet(log: seq<Call>, announce: nat)
    requires forall i | 0 <= i < |log| :: log[i].announce < announce
    ensures CallsOf(log, announce) == []
  {
    if log != [] {
      NoCallsYet(log[..|log| - 1], announce);
    }
  }

  lemma AnnounceKeepsInv(s: Store, text: string)
    requires Inv(s) && Enabled(s, Announce(text))
    ensures Inv(Step(s, Announce(text)))
  {
    AnnounceKeepsStackInv(s, text);
    AnnounceKeepsDoneInv(s, text);
    AnnounceKeepsLogInv(s, text);
  }

  lemma AnnounceKeepsStackInv(s: Store, text: string)
    requires StackInv(s) && LogInv(s) && Enabled(s, Announce(text))
    ensures StackInv(Step(s, Announce(text)))
  {
    hide LogInv;
    var t, n := Step(s, Announce(text)), |s.begun|;
    assert CallsOf(s.log, n) == [] by {
      AnnouncesBegan(s);
      NoCallsYet(s.log, n);
    }
    forall i | 0 <= i < |t.stack|
      ensures var f := t.stack[i];
              && f.announce < |t.begun|
              && f.snapshot == t.begun[f.announce].listeners
              && f.next <= |f.snapshot|
              && CallsOf(t.log, f.announce) == f.snapshot[..f.next]
    {
      assert i < |s.stack| ==> t.stack[i] == s.stack[i];
    }
  }

  lemma AnnouncesBegan(s: Store)
    requires LogInv(s)
    ensures forall i | 0 <= i < |s.log| :: s.log[i].announce < |s.begun|
  {
  }

  lemma AnnounceKeepsDoneInv(s: Store, text: string)
    requires DoneInv(s) && Enabled(s, Announce(text))
    ensures DoneInv(Step(s, Announce(text)))
  {
    var t, n := Step(s, Announce(text)), |s.begun|;
    assert InProgress(t, n) by {
      assert t.stack[|s.stack|].announce == n;
    }
    forall a | 0 <= a < n ensures InProgress(t, a) || CallsOf(t.log, a) == t.begun[a].listeners {
      if i :| 0 <= i < |s.stack| && s.stack[i].announce == a {
        assert t.stack[i].announce == a;
      }
    }
  }

  lemma AnnounceKeepsLogInv(s: Store, text: string)
    requires LogInv(s) && Enabled(s, Announce(text))
    ensures LogInv(Step(s, Announce(text)))
  {
    var t := Step(s, Announce(text));
    assert forall k | 0 <= k <= |s.begun| :: At(t.begun, k) == At(s.begun, k);
  }

  lemma CallKeepsInv(s: Store)
    requires Inv(s) && Enabled(s, CallNext)
    ensures Inv(Step(s, CallNext))
  {
    CallKeepsStackInv(s);
    CallKeepsDoneInv(s);
    CallKeepsLogInv(s);
  }

  lemma {:induction false} CallExtendsOneAnnounce(s: Store, a: nat)
    requires Enabled(s, CallNext)
    ensures var f := Top(s);
            CallsOf(Step(s, CallNext).log, a) ==
            CallsOf(s.log, a) + if a == f.announce then [f.snapshot[f.next]] else []
  {
    assert Step(s, CallNext).log[..|s.log|] == s.log;
  }

  lemma CallKeepsStackInv(s: Store)
    requires StackInv(s) && Enabled(s, CallNext)
    ensures StackInv(Step(s, CallNext))
  {
    hide CallsOf;
    var t, n, f := Step(s, CallNext), |s.stack| - 1, Top(s);
    assert f.snapshot[..f.next + 1] == f.snapshot[..f.next] + [f.snapshot[f.next]];
    forall i | 0 <= i < |t.stack|
      ensures CallsOf(t.log, t.stack[i].announce) == t.stack[i].snapshot[..t.stack[i].next]
    {
      CallExtendsOneAnnounce(s, s.stack[i].announce);
    }
  }

  lemma CallKeepsDoneInv(s: Store)
    requires DoneInv(s) && Enabled(s, CallNext)
    ensures DoneInv(Step(s, CallNext))
  {
    hide CallsOf;
    var t, n := Step(s, CallNext), |s.stack| - 1;
    assert t.stack[n].announce == Top(s).announce;
    forall a | 0 <= a < |t.begun| ensures InProgress(t, a) || CallsOf(t.log, a) == t.begun[a].listeners {
      CallExtendsOneAnnounce(s, a);
      if i :| 0 <= i < |s.stack| && s.stack[i].announce == a {
        assert t.stack[i].announce == a;
      }
    }
  }

  lemma CallKeepsLogInv(s: Store)
    requires Inv(s) && Enabled(s, CallNext)
    ensures LogInv(Step(s, CallNext))
  {
    hide CallsOf, DoneInv;
    assert Top(s) == s.stack[|s.stack| - 1];
  }

  /** What `DoneInv` says of one announce. */
  ghost predicate Delivered(s: Store, a: nat) {
    a < |s.begun| ==> InProgress(s, a) || CallsOf(s.log, a) == s.begun[a].listeners
  }

  lemma DoneInvIs(s: Store)
    ensures DoneInv(s) <==> forall a: nat :: Delivered(s, a)
  {
    hide CallsOf, InProgress;
    if DoneInv(s) {
      forall a: nat ensures Delivered(s, a) {
      }
    } else {
      var a :| 0 <= a < |s.begun| && !InProgress(s, a) && CallsOf(s.log, a) != s.begun[a].listeners;
      assert !Delivered(s, a);
    }
  }

  lemma ReturnKeepsStackInv(s: Store)
    requires StackInv(s) && Enabled(s, Return)
    ensures StackInv(Step(s, Return))
  {
    hide CallsOf;
  }

  lemma ReturnKeepsInv(s: Store)
    requires Inv(s) && Enabled(s, Return)
    ensures Inv(Step(s, Return))
  {
    hide StackInv, DoneInv, CallsOf;
    var t := Step(s, Return);
    ReturnKeepsStackInv(s);
    DoneInvIs(s);
    DoneInvIs(t);
    forall a: nat ensures Delivered(t, a) {
      assert Delivered(s, a);
      SameAnnounces(s, t, a);
    }
  }

  /** A step that leaves every frame's announce alone leaves the same ones in progress. */
  lemma SameAnnounces(s: Store, t: Store, a: nat)
    requires |s.stack| == |t.stack| && forall i | 0 <= i < |s.stack| :: s.stack[i].announce == t.stack[i].announce
    ensures InProgress(s, a) <==> InProgress(t, a)
  {
    if i :| 0 <= i < |s.stack| && s.stack[i].announce == a { assert t.stack[i].announce == a; }
    if i :| 0 <= i < |t.stack| && t.stack[i].announce == a { assert s.stack[i].announce == a; }
  }

  lemma FinishKeepsStackInv(s: Store)
    requires StackInv(s) && Enabled(s, Finish)
    ensures StackInv(Step(s, Finish))
    ensures CallsOf(s.log, Top(s).announce) == Top(s).snapshot
    ensures Top(s).announce < |s.begun| && Top(s).snapshot == s.begun[Top(s).announce].listeners
  {
    hide CallsOf;
    var f := s.stack[|s.stack| - 1];
    assert f.snapshot[..f.next] == f.snapshot;
  }

  lemma FinishKeepsInv(s: Store)
    requires Inv(s) && Enabled(s, Finish)
    ensures Inv(Step(s, Finish))
  {
    hide StackInv, DoneInv, CallsOf;
    var t := Step(s, Finish);
    FinishKeepsStackInv(s);
    DoneInvIs(s);
    DoneInvIs(t);
    forall a: nat ensures Delivered(t, a) {
      assert Delivered(s, a);
      if i :| 0 <= i < |s.stack| && s.stack[i].announce == a {
        assert i == |s.stack| - 1 || t.stack[i].announce == a;
      }
    }
  }

  /** Every step keeps the invariant. */
  lemma StepKeepsInv(s: Store, a: Action)
    requires Inv(s) && Enabled(s, a)
    ensures Inv(Step(s, a))
  {
    match a
    case Announce(text) => AnnounceKeepsInv(s, text);
    case Subscribe(_) => assert forall b :: InProgress(Step(s, a), b) <==> InProgress(s, b);
    case Unsubscribe(_) => assert forall b :: InProgress(Step(s, a), b) <==> InProgress(s, b);
    case CallNext => CallKeepsInv(s);
    case Return => ReturnKeepsInv(s);
    case Finish => FinishKeepsInv(s);
  }

  // ----- the store itself -----

  /** A delivery in progress as the loop holds it: a reference to the array it found. */
  datatype Held = Held(announce: nat, snapshot: array<Listener>, next: nat, running: bool)

  class AnnouncementStore {
    var current: Announcement
    var listeners: array<Listener>
    ghost var deliveries: seq<Held>
    ghost var begun: seq<Begun>
    ghost var log: seq<Call>

    ghost function Arrays(): set<array<Listener>>
      reads this
    {
      {listeners} + set d | d in deliveries :: d.snapshot
    }

    /** The deliveries with what their arrays hold now. */
    ghost function Stack(): (frames: seq<Frame>)
      reads this, Arrays()
      ensures |frames| == |deliveries|
      ensures forall i | 0 <= i < |frames| ::
                var d := deliveries[i]; frames[i] == Frame(d.announce, d.snapshot[..], d.next, d.running)
    {
      seq(|deliveries|, i requires 0 <= i < |deliveries| reads this, Arrays() =>
        var d := deliveries[i]; Frame(d.announce, d.snapshot[..], d.next, d.running))
    }

    ghost function View(): Store
      reads this, Arrays()
    {
      Store(current, listeners[..], Stack(), begun, log)
    }

    /** The array held by every delivery is the one its announce began with, unchanged. */
    ghost predicate Valid()
      reads this, Arrays()
    {
      Inv(View())
    }

    constructor ()
      ensures View() == INITIAL && Valid() && fresh(listeners)
    {
      current, listeners, deliveries, begun, log := NOTHING, new Listener[0], [], [], [];
      new;
      assert View() == INITIAL;
    }

    /** `announce`, up to the start of its loop; the loop holds on to the array it found. */
    method Begin(text: string)
      requires Valid() && Enabled(View(), Announce(text))
      modifies this
      ensures Valid() && View() == Step(old(View()), Announce(text))
      ensures listeners == old(listeners) && deliveries[|deliveries| - 1].snapshot == listeners
    {
      hide Inv;
      StepKeepsInv(View(), Announce(text));
      current := Announcement(text, current.number + 1);
      deliveries := deliveries + [Held(|begun|, listeners, 0, false)];
      begun := begun + [Begun(text, listeners[..])];
      assert Stack() == old(Stack()) + [Frame(|old(begun)|, listeners[..], 0, false)];
    }

    /** `subscribeToAnnouncements`: a new array, never a push into the one a loop may hold. */
    method Subscribe(listener: Listener)
      requires Valid() && Enabled(View(), Action.Subscribe(listener))
      modifies this`listeners
      ensures fresh(listeners) && forall d | d in deliveries :: d.snapshot[..] == old(d.snapshot[..])
      ensures Valid() && View() == Step(old(View()), Action.Subscribe(listener))
    {
      hide Inv;
      StepKeepsInv(View(), Action.Subscribe(listener));
      var longer := Spread(listeners, listener);
      listeners := longer;
      assert Stack() == old(Stack());
    }

    /** `[...entries, listener]`. */
    static method Spread(entries: array<Listener>, listener: Listener) returns (longer: array<Listener>)
      ensures fresh(longer) && longer[..] == entries[..] + [listener]
    {
      longer := new Listener[entries.Length + 1];
      forall i | 0 <= i < entries.Length {
        longer[i] := entries[i];
      }
      longer[entries.Length] := listener;
    }

    /** The closure `subscribeToAnnouncements` returns: a filtered copy takes the array's place. */
    method Unsubscribe(listener: Listener)
      requires Valid() && Enabled(View(), Action.Unsubscribe(listener))
      modifies this`listeners
      ensures fresh(listeners) && forall d | d in deliveries :: d.snapshot[..] == old(d.snapshot[..])
      ensures Valid() && View() == Step(old(View()), Action.Unsubscribe(listener))
    {
      hide Inv;
      StepKeepsInv(View(), Action.Unsubscribe(listener));
      var kept := Filter(listeners, listener);
      assert kept[..] == Without(listeners[..], listener);
      listeners := kept;
      assert Stack() == old(Stack());
    }

    static method Filter(entries: array<Listener>, listener: Listener) returns (kept: array<Listener>)
      ensures fresh(kept) && kept[..] == Without(entries[..], listener)
    {
      var left: seq<Listener> := [];
      for i := 0 to entries.Length
        invariant left == Without(entries[..i], listener)
      {
        assert entries[..i + 1][..i] == entries[..i];
        if entries[i] != listener {
          left := left + [entries[i]];
        }
      }
      assert entries[..entries.Length] == entries[..];
      kept := new Listener[|left|](i requires 0 <= i < |left| => left[i]);
    }

    method ReadAnnouncement() returns (snapshot: Announcement)
      ensures snapshot == current
    {
      snapshot := current;
    }

    /** The loop calls its next listener, read from the array it holds. */
    ghost method CallNextListener()
      requires Valid() && Enabled(View(), CallNext)
      modifies this`deliveries, this`log
      ensures Valid() && View() == Step(old(View()), CallNext)
    {
      hide Inv;
      StepKeepsInv(View(), CallNext);
      var n := |deliveries| - 1;
      var d := deliveries[n];
      assert Top(View()) == Frame(d.announce, d.snapshot[..], d.next, d.running);
      log := log + [Call(d.announce, d.snapshot[d.next], current)];
      deliveries := deliveries[n := d.(next := d.next + 1, running := true)];
      assert Stack() == old(Stack())[n := Frame(d.announce, d.snapshot[..], d.next + 1, true)];
    }

    ghost method ListenerReturns()
      requires Valid() && Enabled(View(), Return)
      modifies this`deliveries
      ensures Valid() && View() == Step(old(View()), Return)
    {
      hide Inv;
      StepKeepsInv(View(), Return);
      var n := |deliveries| - 1;
      var d := deliveries[n];
      deliveries := deliveries[n := d.(running := false)];
      assert Stack() == old(Stack())[n := Frame(d.announce, d.snapshot[..], d.next, false)];
    }

    ghost method LoopEnds()
      requires Valid() && Enabled(View(), Finish)
      modifies this`deliveries
      ensures Valid() && View() == Step(old(View()), Finish)
    {
      hide Inv;
      StepKeepsInv(View(), Finish);
      var n := |deliveries| - 1;
      deliveries := deliveries[..n];
      assert Stack() == old(Stack())[..n];
    }
  }

  lemma {:induction false} RunKeepsInv(s: Store, actions: seq<Action>)
    requires Inv(s) && Legal(s, actions)
    ensures Inv(Run(s, actions))
    decreases |actions|
  {
    hide Inv;
    if actions != [] {
      var before := actions[..|actions| - 1];
      RunKeepsInv(s, before);
      StepKeepsInv(Run(s, before), actions[|actions| - 1]);
    }
  }

  // ----- what a run did, read off its actions alone -----

  /** The subscriptions from index `k` on that no later unsubscribe takes back, in the order they were made. */
  ghost function Standing(actions: seq<Action>, k: nat): seq<Listener>
    requires k <= |actions|
    decreases |actions| - k
  {
    if k == |actions| then []
    else
      (if actions[k].Subscribe? && Unsubscribe(actions[k].listener) !in actions[k + 1..]
       then [actions[k].listener] else [])
      + Standing(actions, k + 1)
  }

  /** The announces of a run, each with its text and the subscriptions then standing. */
  ghost function Announced(actions: seq<Action>): seq<Begun> {
    if actions == [] then []
    else
      var before, last := actions[..|actions| - 1], actions[|actions| - 1];
      Announced(before) + if last.Announce? then [Begun(last.text, Standing(before, 0))] else []
  }

  lemma {:induction false} WithoutSnoc(ls: seq<Listener>, x: Listener, l: Listener)
    ensures Without(ls + [x], l) == Without(ls, l) + if x == l then [] else [x]
  {
    assert (ls + [x])[..|ls|] == ls;
  }

  lemma {:induction false} WithoutSplits(a: seq<Listener>, b: seq<Listener>, l: Listener)
    ensures Without(a + b, l) == Without(a, l) + Without(b, l)
  {
    if b == [] {
      assert a + b == a;
    } else {
      var n := |b| - 1;
      WithoutSplits(a, b[..n], l);
      WithoutSnoc(a + b[..n], b[n], l);
      assert a + b == a + b[..n] + [b[n]];
    }
  }

  /** One more action: a subscription comes last, an unsubscribe takes all of its listener's back, the rest change nothing. */
  lemma {:induction false} StandingSnoc(actions: seq<Action>, a: Action, k: nat)
    requires k <= |actions|
    ensures Standing(actions + [a], k) ==
            match a
            case Subscribe(l) => Standing(actions, k) + [l]
            case Unsubscribe(l) => Without(Standing(actions, k), l)
            case _ => Standing(actions, k)
    decreases |actions| - k
  {
    var more := actions + [a];
    if k == |actions| {
      assert more[k + 1..] == [];
      StandingAtEnd(more);
    } else {
      StandingSnoc(actions, a, k + 1);
      assert more[k + 1..] == actions[k + 1..] + [a];
      var own := if actions[k].Subscribe? && Unsubscribe(actions[k].listener) !in actions[k + 1..]
                 then [actions[k].listener] else [];
      if a.Unsubscribe? {
        WithoutSplits(own, Standing(actions, k + 1), a.listener);
        if own != [] {
          WithoutSnoc([], own[0], a.listener);
          assert own == [] + [own[0]];
        }
      }
    }
  }

  lemma {:induction false} StandingAtEnd(actions: seq<Action>)
    ensures Standing(actions, |actions|) == []
  {
  }

  /** After any run the subscribers are the subscriptions still standing, and the announces those of the actions. */
  lemma {:induction false} RunFollowsActions(actions: seq<Action>)
    requires Legal(INITIAL, actions)
    ensures Run(INITIAL, actions).listeners == Standing(actions, 0)
    ensures Run(INITIAL, actions).begun == Announced(actions)
    decreases |actions|
  {
    if actions != [] {
      hide Standing, Without, Enabled;
      var before, a := actions[..|actions| - 1], actions[|actions| - 1];
      RunFollowsActions(before);
      StandingSnoc(before, a, 0);
      assert before + [a] == actions;
    } else {
      StandingAtEnd(actions);
    }
  }

  /** Reachable from the module's initial state, by any interleaving of store uses and deliveries. */
  ghost predicate Reachable(s: Store) {
    exists actions :: Legal(INITIAL, actions) && Run(INITIAL, actions) == s
  }

  lemma ReachableIsInv(s: Store)
    requires Reachable(s)
    ensures Inv(s)
  {
    var actions :| Legal(INITIAL, actions) && Run(INITIAL, actions) == s;
    RunKeepsInv(INITIAL, actions);
  }

  // ----- the properties -----

  /**
   Whatever its listeners do, an announce that is over has called exactly the listeners of the array
   it started with, once per occurrence and in subscription order; one that is not over has called
   a prefix of them.
   */
  lemma {:induction false} DeliversToTheListenersAtItsStart(s: Store, a: nat)
    requires Reachable(s) && a < |s.begun|
    ensures CallsOf(s.log, a) <= s.begun[a].listeners
    ensures !InProgress(s, a) ==> CallsOf(s.log, a) == s.begun[a].listeners
  {
    ReachableIsInv(s);
    if InProgress(s, a) {
      var i :| 0 <= i < |s.stack| && s.stack[i].announce == a;
    }
  }

  /**
   Read off the actions of a run: each announce that is over has called exactly the listeners whose subscriptions
   stood when it began, once for each and in order, and the text to be read is that of the last announce.
   */
  lemma {:induction false} AnnouncesReachTheSubscribed(actions: seq<Action>, a: nat)
    requires Legal(INITIAL, actions) && a < |Announced(actions)|
    ensures var s := Run(INITIAL, actions);
            && CallsOf(s.log, a) <= Announced(actions)[a].listeners
            && (!InProgress(s, a) ==> CallsOf(s.log, a) == Announced(actions)[a].listeners)
            && s.current == Announcement(Announced(actions)[|Announced(actions)| - 1].text, |Announced(actions)|)
  {
    hide Announced, Standing, CallsOf, InProgress;
    var s := Run(INITIAL, actions);
    RunFollowsActions(actions);
    assert Reachable(s);
    DeliversToTheListenersAtItsStart(s, a);
    ReachableIsInv(s);
    hide StackInv, DoneInv, LogInv;
  }

  /** `number`, the script's `seq`, counts the announces begun, and the snapshot is replaced by an announce and by nothing else. */
  lemma SequenceCountsAnnounces(s: Store, a: Action)
    requires Reachable(s) && Enabled(s, a)
    ensures s.current.number == |s.begun|
    ensures Step(s, a).current == s.current <==> !a.Announce?
    ensures |Step(s, a).begun| == |s.begun| + if a.Announce? then 1 else 0
  {
    ReachableIsInv(s);
  }

  /** What calls observe never goes back, and is never older than the announce that made the call. */
  lemma ObservationsNeverGoBack(s: Store, i: nat, j: nat)
    requires Reachable(s) && i <= j < |s.log|
    ensures s.log[i].observed.number <= s.log[j].observed.number <= s.current.number
    ensures s.log[i].announce < s.log[i].observed.number
  {
    ReachableIsInv(s);
  }

  lemma {:induction false} CallIsLogged(log: seq<Call>, announce: nat, l: Listener)
    requires l in CallsOf(log, announce)
    ensures exists i :: 0 <= i < |log| && log[i].announce == announce && log[i].listener == l
  {
    var n := |log| - 1;
    if log[n].announce != announce || log[n].listener != l {
      CallIsLogged(log[..n], announce, l);
    }
  }

  lemma CalledByTheLastAnnounce(s: Store, i: nat)
    requires LogInv(s) && i < |s.log| && s.log[i].announce == |s.begun| - 1
    ensures s.log[i].observed == At(s.begun, |s.begun|)
  {
  }

  /** At rest, everyone subscribed when the last announce began has observed that announcement itself. */
  lemma AtRestTheLastAnnouncementIsSeen(s: Store, l: Listener)
    requires Reachable(s) && s.stack == [] && |s.begun| > 0
    requires l in s.begun[|s.begun| - 1].listeners
    ensures exists i :: 0 <= i < |s.log| && s.log[i].listener == l && s.log[i].observed == s.current
  {
    ReachableIsInv(s);
    hide Reachable, StackInv, LogInv, CallsOf;
    var a := |s.begun| - 1;
    assert !InProgress(s, a);
    CallIsLogged(s.log, a, l);
    var i :| 0 <= i < |s.log| && s.log[i].announce == a && s.log[i].listener == l;
    CalledByTheLastAnnounce(s, i);
  }

  /** Subscribing one function twice gives two entries, and one unsubscribe removes both. */
  lemma {:induction false} UnsubscribeRemovesEveryEntry(ls: seq<Listener>, l: Listener)
    ensures l !in Without(ls, l)
    ensures multiset(Without(ls, l)) == multiset(ls)[l := 0]
  {
    if ls == [] {
    } else {
      var n := |ls| - 1;
      UnsubscribeRemovesEveryEntry(ls[..n], l);
      assert ls == ls[..n] + [ls[n]];
      MultisetOfSnoc(ls[..n], ls[n]);
      MultisetOfSnoc(Without(ls[..n], l), ls[n]);
      assert Without(ls[..n], l) + [] == Without(ls[..n], l);
      hide Without;
    }
  }

  lemma MultisetOfSnoc(ls: seq<Listener>, l: Listener)
    ensures multiset(ls + [l]) == multiset(ls) + multiset{l}
  {
  }

  // ----- an announce from beginning to end -----

  lemma RunSnoc(s: Store, actions: seq<Action>, a: Action)
    requires Legal(s, actions) && Enabled(Run(s, actions), a)
    ensures Legal(s, actions + [a]) && Run(s, actions + [a]) == Step(Run(s, actions), a)
  {
    hide Enabled, Step;
    assert (actions + [a])[..|actions|] == actions;
  }

  /** An announce and `calls` of its calls, each listener returning at once. */
  ghost function Script(text: string, calls: nat): seq<Action> {
    if calls == 0 then [Announce(text)] else Script(text, calls - 1) + [CallNext] + [Return]
  }

  /** What that adds to the log. */
  ghost function CallsMade(s: Store, text: string, calls: nat): seq<Call>
    requires calls <= |s.listeners|
  {
    seq(calls, i requires 0 <= i < calls => Call(|s.begun|, s.listeners[i], Announcement(text, s.current.number + 1)))
  }

  ghost function After(s: Store, text: string, calls: nat): Store
    requires calls <= |s.listeners|
  {
    Store(Announcement(text, s.current.number + 1), s.listeners,
          s.stack + [Frame(|s.begun|, s.listeners, calls, false)],
          s.begun + [Begun(text, s.listeners)], s.log + CallsMade(s, text, calls))
  }

  lemma CalledAndReturned(s: Store, text: string, calls: nat)
    requires calls < |s.listeners|
    ensures var t := After(s, text, calls);
            && Enabled(t, CallNext) && Enabled(Step(t, CallNext), Return)
            && Step(Step(t, CallNext), Return) == After(s, text, calls + 1)
  {
    assert CallsMade(s, text, calls + 1) == CallsMade(s, text, calls)
      + [Call(|s.begun|, s.listeners[calls], Announcement(text, s.current.number + 1))];
  }

  lemma BeganAndFinished(s: Store, text: string)
    requires UserCodeRuns(s)
    ensures Step(s, Announce(text)) == After(s, text, 0)
    ensures var t := After(s, text, |s.listeners|);
            Enabled(t, Finish) && Step(t, Finish) == t.(stack := s.stack)
  {
    assert s.log + CallsMade(s, text, 0) == s.log;
  }

  lemma {:induction false} ScriptRuns(s: Store, text: string, calls: nat)
    requires UserCodeRuns(s) && calls <= |s.listeners|
    ensures Legal(s, Script(text, calls)) && Run(s, Script(text, calls)) == After(s, text, calls)
  {
    hide Step, After;
    if calls == 0 {
      RunSnoc(s, [], Announce(text));
      BeganAndFinished(s, text);
      assert [] + [Announce(text)] == [Announce(text)];
    } else {
      var before := Script(text, calls - 1);
      ScriptRuns(s, text, calls - 1);
      CalledAndReturned(s, text, calls - 1);
      RunSnoc(s, before, CallNext);
      RunSnoc(s, before + [CallNext], Return);
    }
  }

  /**
   An announce, begun outside any delivery or in a listener, whose own listeners do nothing runs through: it calls
   every listener once, in order, with the new announcement to read, and leaves the rest of the store, deliveries
   in progress included, as it was.
   */
  lemma {:induction false} AnnounceRunsThrough(s: Store, text: string)
    requires UserCodeRuns(s)
    ensures var actions := Script(text, |s.listeners|) + [Finish];
            var said := Announcement(text, s.current.number + 1);
            && Legal(s, actions)
            && Run(s, actions) ==
               Store(said, s.listeners, s.stack, s.begun + [Begun(text, s.listeners)],
                     s.log + seq(|s.listeners|, i requires 0 <= i < |s.listeners| => Call(|s.begun|, s.listeners[i], said)))
  {
    ScriptRuns(s, text, |s.listeners|);
    BeganAndFinished(s, text);
    RunSnoc(s, Script(text, |s.listeners|), Finish);
    hide Script, Legal, Run;
  }
}
