/**
 The service-worker update notice: one effect that registers the worker, listens for updates and
 takes every listener off again, under any interleaving with the browser's events.
 */
module AppUpdate {
  import opened Wrappers

  type Worker = nat

  /** A listener the effect attached: on the registration, or on an installing worker. */
  datatype Listener = OnUpdateFound | OnStateChange(worker: Worker, id: nat)

  /** Where the promise `register` returned stands. */
  datatype Registration = Pending | Resolved | Refused

  /** The effect's closure and state, what is attached in the browser, and a history. */
  datatype Notice = Notice(
    registration: Registration,
    live: bool,
    controlled: bool,
    waiting: Option<Worker>,
    detach: seq<Listener>,
    attached: set<Listener>,
    nextId: nat,
    skipped: seq<Worker>,
    reloads: nat)

  datatype Event =
    | Registered(waiting: Option<Worker>)
    | RegistrationRefused
    | ControllerChanges(present: bool)
    | UpdateFound(installing: Option<Worker>)
    | StateChange(listener: Listener, installed: bool, waiting: Option<Worker>)
    | Unmount
    | Press

  /** After the effect ran once, with the browser's controller as it then was. */
  function Mounted(controlled: bool): Notice {
    Notice(Pending, true, controlled, None, [], {}, 0, [], 0)
  }

  /**
   Events the browser and the operator can produce: a listener hears only while attached, a notice shows only
   while mounted.
   */
  predicate Possible(s: Notice, e: Event) {
    match e
    case Registered(_) => s.registration.Pending?
    case RegistrationRefused => s.registration.Pending?
    case ControllerChanges(_) => true
    case UpdateFound(_) => OnUpdateFound in s.attached
    case StateChange(l, _, _) => l.OnStateChange? && l in s.attached
    case Unmount => s.live
    case Press => s.live && s.waiting.Some?
  }

  function Offered(s: Notice, worker: Option<Worker>): Notice {
    if s.live && worker.Some? && s.controlled then s.(waiting := worker) else s
  }

  function Attach(s: Notice, l: Listener): Notice {
    s.(attached := s.attached + {l}, detach := s.detach + [l])
  }

  function Step(s: Notice, e: Event): Notice
    requires Possible(s, e)
  {
    match e
    case Registered(waiting) =>
      var resolved := s.(registration := Resolved);
      if !s.live then resolved else Attach(Offered(resolved, waiting), OnUpdateFound)
    case RegistrationRefused => s.(registration := Refused)
    case ControllerChanges(present) => s.(controlled := present)
    case UpdateFound(installing) =>
      if installing.None? then s
      else Attach(s, OnStateChange(installing.value, s.nextId)).(nextId := s.nextId + 1)
    case StateChange(l, installed, waiting) =>
      if installed then Offered(s, if waiting.Some? then waiting else Some(l.worker)) else s
    case Unmount => s.(live := false, attached := s.attached - (set l | l in s.detach))
    case Press => s.(skipped := s.skipped + [s.waiting.value], reloads := s.reloads + 1)
  }

  class UpdateNotice {
    var registration: Registration
    var live: bool
    var controlled: bool
    var waiting: Option<Worker>
    var detach: seq<Listener>
    var attached: set<Listener>
    var nextId: nat
    var skipped: seq<Worker>
    var reloads: nat

    ghost function View(): Notice
      reads this
    {
      Notice(registration, live, controlled, waiting, detach, attached, nextId, skipped, reloads)
    }

    constructor (controlled: bool)
      ensures View() == Mounted(controlled)
    {
      registration, live, this.controlled, waiting := Pending, true, controlled, None;
      detach, attached, nextId, skipped, reloads := [], {}, 0, [], 0;
    }

    /** `offer`: a first install has no controller and announces nothing. */
    method OfferWorker(worker: Option<Worker>)
      modifies this`waiting
      ensures View() == Offered(old(View()), worker)
    {
      if live && worker.Some? && controlled {
        waiting := worker;
      }
    }

    method OnRegistered(waitingWorker: Option<Worker>)
      requires Possible(View(), Registered(waitingWorker))
      modifies this
      ensures View() == Step(old(View()), Registered(waitingWorker))
    {
      registration := Resolved;
      if !live {
        return;
      }
      OfferWorker(waitingWorker);
      attached := attached + {OnUpdateFound};
      detach := detach + [OnUpdateFound];
    }

    method OnUpdateFoundEvent(installing: Option<Worker>)
      requires Possible(View(), UpdateFound(installing))
      modifies this
      ensures View() == Step(old(View()), UpdateFound(installing))
    {
      if installing.None? {
        return;
      }
      var listener := OnStateChange(installing.value, nextId);
      attached := attached + {listener};
      detach := detach + [listener];
      nextId := nextId + 1;
    }

    method OnStateChangeEvent(listener: Listener, installed: bool, waitingWorker: Option<Worker>)
      requires Possible(View(), StateChange(listener, installed, waitingWorker))
      modifies this
      ensures View() == Step(old(View()), StateChange(listener, installed, waitingWorker))
    {
      if installed {
        OfferWorker(if waitingWorker.Some? then waitingWorker else Some(listener.worker));
      }
    }

    /** The effect's cleanup. */
    method Cleanup()
      requires Possible(View(), Unmount)
      modifies this
      ensures View() == Step(old(View()), Unmount)
    {
      live := false;
      for i := 0 to |detach|
        invariant View() == old(View()).(live := false, attached := attached)
        invariant attached == old(attached) - set l | l in detach[..i]
      {
        assert detach[..i + 1] == detach[..i] + [detach[i]];
        attached := attached - {detach[i]};
      }
      assert detach[..|detach|] == detach;
    }

    method Reload()
      requires Possible(View(), Press)
      modifies this
      ensures View() == Step(old(View()), Press)
    {
      skipped := skipped + [waiting.value];
      reloads := reloads + 1;
    }
  }

  // ----- every interleaving -----

  ghost predicate Legal(s: Notice, events: seq<Event>)
    decreases |events|, 0
  {
    events == [] ||
    (Legal(s, events[..|events| - 1]) && Possible(Run(s, events[..|events| - 1]), events[|events| - 1]))
  }

  ghost function Run(s: Notice, events: seq<Event>): Notice
    requires Legal(s, events)
    decreases |events|, 1
  {
    if events == [] then s else Step(Run(s, events[..|events| - 1]), events[|events| - 1])
  }

  // What a run did, read off its events alone.

  predicate StillMounted(events: seq<Event>) { Unmount !in events }

  /** Whether the page has a controller after these events. */
  function ControllerAfter(controlled: bool, events: seq<Event>): bool {
    if events == [] then controlled
    else match events[|events| - 1]
      case ControllerChanges(present) => present
      case _ => ControllerAfter(controlled, events[..|events| - 1])
  }

  /** The worker an event puts forward: the one waiting, or the one just installed. */
  function PutForward(e: Event): Option<Worker> {
    match e
    case Registered(waiting) => waiting
    case StateChange(l, true, waiting) =>
      if waiting.Some? then waiting else if l.OnStateChange? then Some(l.worker) else None
    case _ => None
  }

  /** The worker that should be on offer: the last put forward while the page was mounted and had a controller. */
  function LastOffer(controlled: bool, events: seq<Event>): Option<Worker> {
    if events == [] then None
    else
      var before, last := events[..|events| - 1], events[|events| - 1];
      if PutForward(last).Some? && StillMounted(before) && ControllerAfter(controlled, before)
      then PutForward(last) else LastOffer(controlled, before)
  }

  /** Which worker each press told to take over: the one then on offer. */
  function Told(controlled: bool, events: seq<Event>): seq<Option<Worker>> {
    if events == [] then []
    else
      var before := events[..|events| - 1];
      Told(controlled, before) + if events[|events| - 1].Press? then [LastOffer(controlled, before)] else []
  }

  /** How many installing workers the registration announced. */
  function InstallsFound(events: seq<Event>): nat {
    if events == [] then 0
    else
      var last := events[|events| - 1];
      InstallsFound(events[..|events| - 1]) + if last.UpdateFound? && last.installing.Some? then 1 else 0
  }

  /** The listeners put up: one on the registration once it resolves while mounted, one on each installing worker. */
  function PutUp(events: seq<Event>): seq<Listener> {
    if events == [] then []
    else
      var before := events[..|events| - 1];
      PutUp(before) +
      match events[|events| - 1]
      case Registered(_) => if StillMounted(before) then [OnUpdateFound] else []
      case UpdateFound(Some(worker)) => [OnStateChange(worker, InstallsFound(before))]
      case _ => []
  }

  /** How the promise settled. */
  function Settled(events: seq<Event>): Registration {
    if RegistrationRefused in events then Refused
    else if exists i :: 0 <= i < |events| && events[i].Registered? then Resolved
    else Pending
  }

  function Each(workers: seq<Worker>): seq<Option<Worker>> {
    seq(|workers|, i requires 0 <= i < |workers| => Some(workers[i]))
  }

  // ----- the invariant -----

  ghost predicate Inv(s: Notice) {
    && (s.live ==> s.attached == set l | l in s.detach)
    && (!s.live ==> s.attached == {})
    && (forall i, j | 0 <= i < j < |s.detach| :: s.detach[i] != s.detach[j])
    && (forall i | 0 <= i < |s.detach| && s.detach[i].OnStateChange? :: s.detach[i].id < s.nextId)
    && (OnUpdateFound in s.detach ==> s.registration.Resolved?)
  }

  lemma AttachKeepsInv(s: Notice, l: Listener)
    requires Inv(s) && s.live && l !in s.detach
    requires l.OnStateChange? ==> l.id < s.nextId
    requires l.OnUpdateFound? ==> s.registration.Resolved?
    ensures Inv(Attach(s, l))
  {
  }

  lemma OfferKeepsInv(s: Notice, worker: Option<Worker>)
    requires Inv(s)
    ensures Inv(Offered(s, worker))
  {
  }

  lemma UnmountKeepsInv(s: Notice)
    requires Inv(s) && s.live
    ensures Inv(Step(s, Unmount))
  {
    assert s.attached - (set l | l in s.detach) == {};
  }

  lemma StepKeepsInv(s: Notice, e: Event)
    requires Inv(s) && Possible(s, e)
    ensures Inv(Step(s, e))
  {
    match e
    case Registered(waiting) =>
      if s.live {
        OfferKeepsInv(s.(registration := Resolved), waiting);
        AttachKeepsInv(Offered(s.(registration := Resolved), waiting), OnUpdateFound);
      }
    case UpdateFound(installing) =>
      if installing.Some? {
        AttachKeepsInv(s.(nextId := s.nextId + 1), OnStateChange(installing.value, s.nextId));
      }
    case StateChange(l, installed, waiting) =>
      OfferKeepsInv(s, if waiting.Some? then waiting else Some(l.worker));
    case Unmount => UnmountKeepsInv(s);
    case _ =>
  }

  /** The state after a run, against what its events say. */
  ghost predicate Explained(s: Notice, controlled: bool, events: seq<Event>) {
    && s.live == StillMounted(events)
    && s.controlled == ControllerAfter(controlled, events)
    && s.registration == Settled(events)
    && s.detach == PutUp(events) && s.nextId == InstallsFound(events)
    && s.waiting == LastOffer(controlled, events)
    && Each(s.skipped) == Told(controlled, events)
    && s.reloads == |s.skipped|
  }

  lemma StepIsExplained(s: Notice, e: Event, controlled: bool, before: seq<Event>)
    requires Explained(s, controlled, before) && Possible(s, e)
    ensures Explained(Step(s, e), controlled, before + [e])
  {
    assert (before + [e])[..|before|] == before;
  }

  /**
   In every interleaving: one listener is put up when the registration resolves while mounted and one per installing
   worker found; while mounted exactly these are attached, each with one pending detach, and after the cleanup none
   is, whenever the registration resolves; the worker on offer is the last
   put forward while the page was mounted and controlled; and the page reloaded once per press and never otherwise,
   each press telling the worker then on offer to take over.
   */
  lemma {:induction false} EveryInterleaving(controlled: bool, events: seq<Event>)
    requires Legal(Mounted(controlled), events)
    ensures var s := Run(Mounted(controlled), events);
            && Inv(s)
            && s.detach == PutUp(events) && (forall i, j | 0 <= i < j < |s.detach| :: s.detach[i] != s.detach[j])
            && s.attached == (if StillMounted(events) then set l | l in s.detach else {})
            && s.registration == Settled(events)
            && s.waiting == LastOffer(controlled, events)
            && Each(s.skipped) == Told(controlled, events)
            && s.reloads == |Told(controlled, events)|
            && Explained(s, controlled, events)
    decreases |events|
  {
    if events != [] {
      hide Inv, Explained, Step;
      var before, e := events[..|events| - 1], events[|events| - 1];
      assert before + [e] == events;
      EveryInterleaving(controlled, before);
      StepKeepsInv(Run(Mounted(controlled), before), e);
      StepIsExplained(Run(Mounted(controlled), before), e, controlled, before);
    }
    InvAndExplained(Run(Mounted(controlled), events), controlled, events);
  }

  lemma {:induction false} InvAndExplained(s: Notice, controlled: bool, events: seq<Event>)
    requires if events == [] then s == Mounted(controlled) else Inv(s) && Explained(s, controlled, events)
    ensures Inv(s) && Explained(s, controlled, events)
    ensures s.detach == PutUp(events) && s.registration == Settled(events)
    ensures s.attached == (if StillMounted(events) then set l | l in s.detach else {})
    ensures forall i, j | 0 <= i < j < |s.detach| :: s.detach[i] != s.detach[j]
    ensures s.waiting == LastOffer(controlled, events)
    ensures Each(s.skipped) == Told(controlled, events)
    ensures s.reloads == |Told(controlled, events)|
  {
  }

  /** After the cleanup only the registration and the controller still change: nothing is heard or shown. */
  lemma SilentAfterUnmount(s: Notice, e: Event)
    requires Inv(s) && !s.live && Possible(s, e)
    ensures e.Registered? || e.RegistrationRefused? || e.ControllerChanges?
    ensures Step(s, e) == s.(registration := Step(s, e).registration, controlled := Step(s, e).controlled)
  {
  }
}
