/** The row menu's keyboard: roving focus over the enabled items, and the focus it opens with. */
module RowMenu {
  import opened Wrappers

  datatype Item = Item(key: string, disabled: bool)

  datatype Press = ArrowDown | ArrowUp | Escape | Tab | OtherKey

  /** Focus is on the item of this index, or outside the menu. */
  type Focus = Option<nat>

  /** The indices `[role='menuitem']:not([disabled])` selects, in document order. */
  function Entries(items: seq<Item>): (entries: seq<nat>)
    ensures forall k | 0 <= k < |entries| :: entries[k] < |items| && !items[entries[k]].disabled
    ensures forall j, k | 0 <= j < k < |entries| :: entries[j] < entries[k]
    ensures forall i | 0 <= i < |items| && !items[i].disabled :: i in entries
  {
    if items == [] then []
    else
      var n := |items| - 1;
      var before := Entries(items[..n]);
      if items[n].disabled then before
      else
        assert (before + [n])[|before|] == n;
        assert forall i | i in before :: i in before + [n];
        before + [n]
  }

  /** `entries.indexOf(document.activeElement)`; the length stands for -1. */
  function IndexOf(entries: seq<nat>, focus: Focus): (h: nat)
    ensures h <= |entries|
    ensures h < |entries| ==> focus == Some(entries[h])
    ensures forall k | 0 <= k < h :: focus != Some(entries[k])
  {
    if entries == [] || focus == Some(entries[0]) then 0 else 1 + IndexOf(entries[1..], focus)
  }

  /** `(here + step + entries.length) % entries.length`. */
  function Cyclic(here: nat, step: int, n: nat): (k: nat)
    requires here < n && (step == 1 || step == -1)
    ensures k < n
  {
    (here + step + n) % n
  }

  function Moved(items: seq<Item>, focus: Focus, press: Press): Focus {
    var entries := Entries(items);
    var n, h := |entries|, IndexOf(entries, focus);
    if !(press.ArrowDown? || press.ArrowUp?) || n == 0 then focus
    else if h == n then Some(entries[if press.ArrowDown? then 0 else n - 1])
    else Some(entries[Cyclic(h, if press.ArrowDown? then 1 else -1, n)])
  }

  lemma CyclicSteps(h: nat, n: nat)
    requires h < n
    ensures Cyclic(h, 1, n) == if h + 1 == n then 0 else h + 1
    ensures Cyclic(h, -1, n) == if h == 0 then n - 1 else h - 1
  {
    var r, s := Cyclic(h, 1, n), Cyclic(h, -1, n);
    OnlyMultiple((h + 1 + n) / n, n, h + 1 + n - r);
    OnlyMultiple((h - 1 + n) / n, n, h - 1 + n - s);
  }

  /** A multiple of `n` that is less than three times `n` is 0, `n` or twice `n`. */
  lemma OnlyMultiple(q: int, n: nat, x: int)
    requires n > 0 && q >= 0 && x == q * n
    ensures x < 3 * n ==> x == 0 || x == n || x == 2 * n
    ensures x == 0 <==> q == 0
  {
    assert q >= 3 ==> q * n >= 3 * n;
    assert q == 1 ==> x == n;
    assert q == 2 ==> x == 2 * n;
  }

  class Menu {
    const items: seq<Item>
    var focus: Focus
    var closed: bool

    /** Mounting: the initial-focus effect takes the first enabled item, if there is one. */
    constructor (items: seq<Item>, focus: Focus)
      ensures this.items == items && !closed
      ensures this.focus == if Entries(items) == [] then focus else Some(Entries(items)[0])
    {
      this.items := items;
      this.focus := if Entries(items) == [] then focus else Some(Entries(items)[0]);
      closed := false;
    }

    method OnKeyDown(press: Press)
      modifies this
      ensures focus == Moved(items, old(focus), press)
      ensures closed == (old(closed) || press.Escape? || press.Tab?)
    {
      hide Cyclic, Entries, IndexOf;
      if press.Escape? || press.Tab? {
        closed := true;
        return;
      }
      if !press.ArrowDown? && !press.ArrowUp? {
        return;
      }
      var entries := Entries(items);
      if |entries| == 0 {
        return;
      }
      var step := if press.ArrowDown? then 1 else -1;
      var here := Search(entries, focus);
      if here == |entries| {
        focus := Some(entries[if step == 1 then 0 else |entries| - 1]);
        return;
      }
      focus := Some(entries[Cyclic(here, step, |entries|)]);
    }
  }

  method Search(entries: seq<nat>, focus: Focus) returns (here: nat)
    ensures here == IndexOf(entries, focus)
  {
    here := 0;
    assert entries[0..] == entries;
    while here < |entries| && focus != Some(entries[here])
      invariant here <= |entries|
      invariant IndexOf(entries, focus) == here + IndexOf(entries[here..], focus)
    {
      assert entries[here..][1..] == entries[here + 1..];
      here := here + 1;
    }
  }

  // ----- a round of the menu -----

  function Enabled(items: seq<Item>, focus: Focus): bool {
    focus.Some? && focus.value < |items| && !items[focus.value].disabled
  }

  function Presses(items: seq<Item>, focus: Focus, presses: seq<Press>): Focus {
    if presses == [] then focus
    else Moved(items, Presses(items, focus, presses[..|presses| - 1]), presses[|presses| - 1])
  }

  function Downs(items: seq<Item>, focus: Focus, times: nat): Focus {
    if times == 0 then focus else Moved(items, Downs(items, focus, times - 1), ArrowDown)
  }

  lemma {:induction false} IndexOfEntry(items: seq<Item>, focus: Focus)
    requires Enabled(items, focus)
    ensures var entries := Entries(items);
            IndexOf(entries, focus) < |entries| && focus == Some(entries[IndexOf(entries, focus)])
  {
    var entries := Entries(items);
    assert focus.value in entries;
    var k :| 0 <= k < |entries| && entries[k] == focus.value;
  }

  lemma {:induction false} IndexIsUnique(items: seq<Item>, k: nat)
    requires k < |Entries(items)|
    ensures IndexOf(Entries(items), Some(Entries(items)[k])) == k
  {
    var entries := Entries(items);
    var h := IndexOf(entries, Some(entries[k]));
    assert h <= k;
    assert forall j | 0 <= j < k :: entries[j] < entries[k];
  }

  /** One arrow from the `p`th entry goes to the next or previous one, cyclically. */
  lemma {:induction false} ArrowFromEntry(items: seq<Item>, p: nat)
    requires p < |Entries(items)|
    ensures var entries := Entries(items);
            var n := |entries|;
            && Moved(items, Some(entries[p]), ArrowDown) == Some(entries[if p + 1 == n then 0 else p + 1])
            && Moved(items, Some(entries[p]), ArrowUp) == Some(entries[if p == 0 then n - 1 else p - 1])
  {
    hide Cyclic;
    IndexIsUnique(items, p);
    CyclicSteps(p, |Entries(items)|);
  }

  /** With the focus outside the menu ArrowDown goes to the first enabled item and ArrowUp to the last. */
  lemma ArrowFromOutside(items: seq<Item>, focus: Focus)
    requires !Enabled(items, focus) && Entries(items) != []
    ensures Moved(items, focus, ArrowDown) == Some(Entries(items)[0])
    ensures Moved(items, focus, ArrowUp) == Some(Entries(items)[|Entries(items)| - 1])
  {
    hide Cyclic;
    var entries := Entries(items);
    var h := IndexOf(entries, focus);
    assert h < |entries| ==> Enabled(items, focus);
  }

  /** The place `t` steps on from `h` in a ring of `n`, for at most one round. */
  function Around(h: nat, t: nat, n: nat): nat {
    if h + t < n then h + t else h + t - n
  }

  /** After `t` ArrowDowns the focus is `t` places on. */
  lemma {:induction false} DownsAdvance(items: seq<Item>, h: nat, times: nat)
    requires h < |Entries(items)| && times <= |Entries(items)|
    ensures var entries := Entries(items);
            Downs(items, Some(entries[h]), times) == Some(entries[Around(h, times, |entries|)])
  {
    hide Moved, Entries;
    if times > 0 {
      DownsAdvance(items, h, times - 1);
      ArrowFromEntry(items, Around(h, times - 1, |Entries(items)|));
    }
  }

  lemma {:induction false} EntriesDiffer(items: seq<Item>, p: nat, q: nat)
    requires p < |Entries(items)| && q < |Entries(items)| && p != q
    ensures Entries(items)[p] != Entries(items)[q]
  {
    var entries := Entries(items);
    assert p < q ==> entries[p] < entries[q];
    assert q < p ==> entries[q] < entries[p];
  }

  /** Some number of ArrowDowns, less than a round, reaches any enabled item. */
  lemma DownsReach(items: seq<Item>, h: nat, i: nat) returns (t: nat)
    requires h < |Entries(items)| && i < |items| && !items[i].disabled
    ensures t < |Entries(items)| && Downs(items, Some(Entries(items)[h]), t) == Some(i)
  {
    hide Moved, Downs;
    var entries := Entries(items);
    assert i in entries;
    var k :| 0 <= k < |entries| && entries[k] == i;
    t := if h <= k then k - h else k + |entries| - h;
    DownsAdvance(items, h, t);
  }

  /** Fewer than `n` ArrowDowns bring the focus to item `i`. */
  ghost predicate ReachedWithin(items: seq<Item>, focus: Focus, n: nat, i: nat) {
    exists t :: 0 <= t < n && Downs(items, focus, t) == Some(i)
  }

  /** As many ArrowDowns as there are enabled items visit each of them exactly once and come back. */
  lemma {:induction false} DownsVisitEveryItemOnce(items: seq<Item>, focus: Focus)
    requires Enabled(items, focus)
    ensures var n := |Entries(items)|;
            && Downs(items, focus, n) == focus
            && (forall s, t | 0 <= s < t < n :: Downs(items, focus, s) != Downs(items, focus, t))
            && (forall i | 0 <= i < |items| && !items[i].disabled :: ReachedWithin(items, focus, n, i))
  {
    hide Moved, Downs, Entries, IndexOf;
    var entries := Entries(items);
    var h, n := IndexOf(entries, focus), |entries|;
    IndexOfEntry(items, focus);
    DownsAdvance(items, h, n);
    forall s, t | 0 <= s < t < n ensures Downs(items, focus, s) != Downs(items, focus, t) {
      DownsAdvance(items, h, s);
      DownsAdvance(items, h, t);
      EntriesDiffer(items, Around(h, s, n), Around(h, t, n));
    }
    forall i | 0 <= i < |items| && !items[i].disabled
      ensures ReachedWithin(items, focus, n, i)
    {
      var t := DownsReach(items, h, i);
    }
  }

  /** From an enabled item ArrowUp and ArrowDown undo each other. */
  lemma ArrowsAreInverse(items: seq<Item>, focus: Focus)
    requires Enabled(items, focus)
    ensures Moved(items, Moved(items, focus, ArrowDown), ArrowUp) == focus
    ensures Moved(items, Moved(items, focus, ArrowUp), ArrowDown) == focus
  {
    hide Moved, Entries, IndexOf;
    IndexOfEntry(items, focus);
    EntryArrowsAreInverse(items, IndexOf(Entries(items), focus));
  }

  lemma {:induction false} EntryArrowsAreInverse(items: seq<Item>, h: nat)
    requires h < |Entries(items)|
    ensures var focus := Some(Entries(items)[h]);
            && Moved(items, Moved(items, focus, ArrowDown), ArrowUp) == focus
            && Moved(items, Moved(items, focus, ArrowUp), ArrowDown) == focus
  {
    hide Moved, Entries;
    var n := |Entries(items)|;
    ArrowFromEntry(items, h);
    ArrowFromEntry(items, if h + 1 == n then 0 else h + 1);
    ArrowFromEntry(items, if h == 0 then n - 1 else h - 1);
  }

  /** No run of presses ever moves the focus to a disabled item. */
  lemma {:induction false} DisabledIsNeverReached(items: seq<Item>, focus: Focus, presses: seq<Press>)
    ensures Presses(items, focus, presses) == focus || Enabled(items, Presses(items, focus, presses))
  {
    hide Cyclic;
    if presses != [] {
      DisabledIsNeverReached(items, focus, presses[..|presses| - 1]);
      var before := Presses(items, focus, presses[..|presses| - 1]);
      var entries := Entries(items);
    }
  }
}
