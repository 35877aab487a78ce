/**
 The autosave flash: a confirmation that shows for a while after each new save stamp.  The effect
 that starts its timer returns a cleanup only when it starts one.
 */
module AutosaveFlash {
  import opened Wrappers

  const FLASH_MS: nat := 1800

  /**
   The component between renders: its prop, the `acknowledged` ref, `visible`, the pending timers
   with their due times, and the cleanup the last effect returned.
   */
  datatype Flash = Flash(
    savedAt: Option<string>,
    acknowledged: Option<string>,
    visible: bool,
    timers: map<nat, nat>,
    cleanup: Option<nat>,
    nextTimer: nat,
    now: nat,
    stampedAt: nat)

  /** A render with a prop, or time passing. */
  datatype Event = Render(savedAt: Option<string>) | Elapse(ms: nat)

  /** Mounting: the ref starts at the prop, so the first effect returns without a flash. */
  function Mounted(savedAt: Option<string>): Flash {
    Flash(savedAt, savedAt, false, map[], None, 0, 0, 0)
  }

  /** The effect's body, after a render that changed the prop. */
  function Effect(f: Flash): Flash {
    if f.savedAt.None? || f.savedAt == f.acknowledged then f.(cleanup := None)
    else f.(acknowledged := f.savedAt, visible := true,
            timers := f.timers[f.nextTimer := f.now + FLASH_MS], cleanup := Some(f.nextTimer),
            nextTimer := f.nextTimer + 1, stampedAt := f.now)
  }

  function CleanedUp(f: Flash): Flash {
    if f.cleanup.Some? then f.(timers := f.timers - {f.cleanup.value}) else f
  }

  function Due(f: Flash): set<nat> {
    set t | t in f.timers && f.timers[t] <= f.now
  }

  function Step(f: Flash, e: Event): Flash {
    match e
    case Render(savedAt) => if savedAt == f.savedAt then f else Effect(CleanedUp(f).(savedAt := savedAt))
    case Elapse(ms) =>
      var later := f.(now := f.now + ms);
      if Due(later) == {} then later else later.(visible := false, timers := later.timers - Due(later))
  }

  function Run(f: Flash, events: seq<Event>): Flash {
    if events == [] then f else Step(Run(f, events[..|events| - 1]), events[|events| - 1])
  }

  class FlashComponent {
    var savedAt: Option<string>
    var acknowledged: Option<string>
    var visible: bool
    var timers: map<nat, nat>
    var cleanup: Option<nat>
    var nextTimer: nat
    var now: nat
    ghost var stampedAt: nat

    ghost function View(): Flash
      reads this
    {
      Flash(savedAt, acknowledged, visible, timers, cleanup, nextTimer, now, stampedAt)
    }

    constructor (savedAt: Option<string>)
      ensures View() == Mounted(savedAt)
    {
      this.savedAt, acknowledged, visible, timers := savedAt, savedAt, false, map[];
      cleanup, nextTimer, now, stampedAt := None, 0, 0, 0;
    }

    method Rerender(savedAt: Option<string>)
      modifies this
      ensures View() == Step(old(View()), Render(savedAt))
    {
      if savedAt == this.savedAt {
        return;
      }
      if cleanup.Some? {
        timers := timers - {cleanup.value};
      }
      this.savedAt := savedAt;
      if savedAt.None? || savedAt == acknowledged {
        cleanup := None;
        return;
      }
      acknowledged := savedAt;
      visible := true;
      timers := timers[nextTimer := now + FLASH_MS];
      cleanup := Some(nextTimer);
      nextTimer := nextTimer + 1;
      stampedAt := now;
    }

    method Wait(ms: nat)
      modifies this
      ensures View() == Step(old(View()), Elapse(ms))
    {
      now := now + ms;
      var due := set t | t in timers && timers[t] <= now;
      if due != {} {
        timers := timers - due;
        visible := false;
      }
    }
  }

  // ----- invariant -----

  /** Timers pending are the one the last effect started, if it has not fired, due a flash after its stamp. */
  ghost predicate Inv(f: Flash) {
    && (forall t | t in f.timers :: f.cleanup == Some(t) && f.timers[t] == f.stampedAt + FLASH_MS && f.now < f.timers[t])
    && (f.cleanup.Some? ==> f.cleanup.value < f.nextTimer && f.savedAt.Some?)
    && (f.savedAt.Some? ==> f.savedAt == f.acknowledged)
    && f.stampedAt <= f.now
    && (f.timers != map[] ==> f.visible)
  }

  lemma StepKeepsInv(f: Flash, e: Event)
    requires Inv(f)
    ensures Inv(Step(f, e))
  {
    var g := Step(f, e);
    match e
    case Render(_) =>
    case Elapse(ms) =>
      var later := f.(now := f.now + ms);
      if Due(later) == {} {
        forall t | t in later.timers ensures later.now < later.timers[t] {
          assert t !in Due(later);
        }
      } else {
        var d :| d in Due(later);
        assert forall t | t in f.timers :: t == d;
        assert g.timers == map[];
      }
  }

  lemma {:induction false} RunKeepsInv(savedAt: Option<string>, events: seq<Event>)
    ensures Inv(Run(Mounted(savedAt), events))
  {
    if events != [] {
      RunKeepsInv(savedAt, events[..|events| - 1]);
      StepKeepsInv(Run(Mounted(savedAt), events[..|events| - 1]), events[|events| - 1]);
    }
  }

  /** At most one timer is ever pending, it is due a flash after the latest new stamp, and then the flash shows. */
  lemma {:induction false} AtMostOneTimer(savedAt: Option<string>, events: seq<Event>)
    ensures var f := Run(Mounted(savedAt), events);
            && |f.timers| <= 1
            && (forall t | t in f.timers :: f.visible && f.now < f.timers[t] == f.stampedAt + FLASH_MS)
  {
    RunKeepsInv(savedAt, events);
    var f := Run(Mounted(savedAt), events);
    if f.timers != map[] {
      assert f.timers.Keys <= {f.cleanup.value};
      SubsetOfSingleton(f.timers.Keys, f.cleanup.value);
    }
  }

  lemma SubsetOfSingleton(s: set<nat>, x: nat)
    requires s <= {x}
    ensures |s| <= 1
  {
    if x in s {
      assert s == {x};
    } else {
      assert s == {};
    }
  }

  /** Until a stamp other than the one mounted with is rendered, nothing flashes. */
  lemma {:induction false} MountingNeverFlashes(savedAt: Option<string>, events: seq<Event>)
    requires forall i | 0 <= i < |events| :: events[i].Render? ==> events[i].savedAt.None? || events[i].savedAt == savedAt
    ensures var f := Run(Mounted(savedAt), events);
            !f.visible && f.timers == map[] && f.acknowledged == savedAt && f.cleanup.None?
  {
    if events != [] {
      MountingNeverFlashes(savedAt, events[..|events| - 1]);
      var before := Run(Mounted(savedAt), events[..|events| - 1]);
      if events[|events| - 1].Elapse? {
        assert Due(before.(now := before.now + events[|events| - 1].ms)) == {};
      }
    }
  }

  /** A stamp not seen before flashes for 1800 milliseconds, whatever was showing. */
  lemma {:induction false} NewStampFlashes(savedAt: Option<string>, events: seq<Event>, stamp: string, ms: nat)
    requires var f := Run(Mounted(savedAt), events); f.savedAt != Some(stamp) && f.acknowledged != Some(stamp)
    ensures var shown := Step(Run(Mounted(savedAt), events), Render(Some(stamp)));
            shown.visible && (Step(shown, Elapse(ms)).visible <==> ms < 1800)
  {
    RunKeepsInv(savedAt, events);
    hide Run;
    var f := Run(Mounted(savedAt), events);
    var shown := Step(f, Render(Some(stamp)));
    StepKeepsInv(f, Render(Some(stamp)));
    assert shown.timers[f.nextTimer] == f.now + 1800;
    var later := shown.(now := shown.now + ms);
    assert ms >= 1800 ==> f.nextTimer in Due(later);
    assert ms < 1800 ==> Due(later) == {};
  }

  // ----- when a flash is sure to end -----

  /** A flash that shows has its timer, so it will be taken down. */
  predicate WillEnd(f: Flash) { f.visible ==> f.timers != map[] }

  /** This event withdraws the stamp of a flash that is showing. */
  predicate Withdraws(f: Flash, e: Event) {
    e.Render? && e.savedAt.None? && f.visible
  }

  ghost predicate NeverWithdraws(savedAt: Option<string>, events: seq<Event>) {
    forall k | 0 <= k < |events| :: !Withdraws(Run(Mounted(savedAt), events[..k]), events[k])
  }

  ghost predicate AlwaysEnds(savedAt: Option<string>, events: seq<Event>) {
    forall k | 0 <= k <= |events| :: WillEnd(Run(Mounted(savedAt), events[..k]))
  }

  lemma StepEndsUnlessWithdrawn(f: Flash, e: Event)
    requires Inv(f) && WillEnd(f)
    ensures WillEnd(Step(f, e)) <==> !Withdraws(f, e)
  {
    if e.Elapse? {
      var later := f.(now := f.now + e.ms);
      if Due(later) == {} {
        assert Step(f, e).timers == f.timers;
      }
    } else if e.savedAt != f.savedAt {
      var g := Step(f, e);
      if e.savedAt.None? {
        assert g.timers == map[] by {
          assert forall t :: t !in g.timers;
        }
      } else if e.savedAt == f.acknowledged {
        assert f.cleanup.None?;
      } else {
        assert f.nextTimer in g.timers;
      }
    }
  }

  lemma {:induction false} RunOfPrefix(f: Flash, events: seq<Event>, k: nat)
    requires k < |events|
    ensures Run(f, events[..k + 1]) == Step(Run(f, events[..k]), events[k])
  {
    assert events[..k + 1][..k] == events[..k];
  }

  /**
   The flash is left up with nothing to take it down exactly in the runs where the stamp goes back
   to undefined while it shows: the cleanup clears the timer and the effect returns early.
   */
  lemma FlashEndsIffNeverWithdrawn(savedAt: Option<string>, events: seq<Event>)
    ensures AlwaysEnds(savedAt, events) <==> NeverWithdraws(savedAt, events)
  {
    var start := Mounted(savedAt);
    assert forall k | 0 <= k <= |events| :: Inv(Run(start, events[..k])) by {
      forall k | 0 <= k <= |events| ensures Inv(Run(start, events[..k])) {
        RunKeepsInv(savedAt, events[..k]);
      }
    }
    if AlwaysEnds(savedAt, events) {
      forall k | 0 <= k < |events| ensures !Withdraws(Run(start, events[..k]), events[k]) {
        RunOfPrefix(start, events, k);
        StepEndsUnlessWithdrawn(Run(start, events[..k]), events[k]);
      }
    }
    if NeverWithdraws(savedAt, events) {
      forall k: nat | k <= |events| ensures WillEnd(Run(start, events[..k])) {
        EndsUpTo(savedAt, events, k);
      }
    }
  }

  /** Where no stamp is withdrawn under a flash, a visible flash has exactly one timer, due a flash after the latest new stamp. */
  lemma {:induction false} FlashHasItsTimer(savedAt: Option<string>, events: seq<Event>)
    requires NeverWithdraws(savedAt, events)
    ensures var f := Run(Mounted(savedAt), events);
            f.visible ==> |f.timers| == 1 && forall t | t in f.timers :: f.now < f.timers[t] == f.stampedAt + FLASH_MS
  {
    hide Run;
    FlashEndsIffNeverWithdrawn(savedAt, events);
    AtMostOneTimer(savedAt, events);
    assert events[..|events|] == events;
    var f := Run(Mounted(savedAt), events);
    assert WillEnd(f);
    if f.visible {
      var t :| t in f.timers;
      assert t in f.timers.Keys;
    }
  }

  lemma {:induction false} EndsUpTo(savedAt: Option<string>, events: seq<Event>, k: nat)
    requires k <= |events| && NeverWithdraws(savedAt, events)
    ensures WillEnd(Run(Mounted(savedAt), events[..k]))
  {
    if k > 0 {
      EndsUpTo(savedAt, events, k - 1);
      RunKeepsInv(savedAt, events[..k - 1]);
      RunOfPrefix(Mounted(savedAt), events, k - 1);
      StepEndsUnlessWithdrawn(Run(Mounted(savedAt), events[..k - 1]), events[k - 1]);
    }
  }

  /** Once stuck, no amount of time takes the flash down: only a further new stamp does. */
  lemma StuckFlashOutlastsTime(f: Flash, ms: nat)
    requires Inv(f) && !WillEnd(f)
    ensures !WillEnd(Step(f, Elapse(ms)))
  {
    assert Due(f.(now := f.now + ms)) == {};
  }

  /** A first save, then a render with no stamp: the flash shows and nothing will take it down. */
  lemma WithdrawnFlashIsStuck()
    ensures var f := Run(Mounted(None), [Render(Some("a")), Render(None)]);
            f.visible && f.timers == map[]
  {
    var events := [Render(Some("a")), Render(None)];
    assert events[..1] == [Render(Some("a"))] && events[..1][..0] == [];
    var saved := Step(Mounted(None), Render(Some("a")));
    assert Run(Mounted(None), events[..1]) == saved;
    assert saved.timers.Keys == {0};
    assert Run(Mounted(None), events).timers.Keys == {};
  }
}
