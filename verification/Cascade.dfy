/**
 The cascade of CSS 2.1 sections 6.4.1 and 6.4.3 on the selectors the token sheet uses: `:root`
 with at most one `data-theme` attribute and at most one class.  The pseudo-class, the attribute
 and the class count one each; ties go to the later rule.
 */
module Cascade {
  import opened Wrappers

  datatype Selector = Selector(theme: Option<string>, cls: Option<string>)

  datatype Declaration<P> = Declaration(property: P, value: string)

  datatype Rule<P> = Rule(selector: Selector, block: seq<Declaration<P>>)

  /** The root element: its `data-theme` attribute and its class list. */
  datatype Root = Root(theme: Option<string>, classes: set<string>)

  datatype Winner = Winner(specificity: nat, value: string)

  function Specificity(s: Selector): nat {
    1 + (if s.theme.Some? then 1 else 0) + (if s.cls.Some? then 1 else 0)
  }

  predicate Matches(s: Selector, root: Root) {
    && (s.theme.Some? ==> root.theme == s.theme)
    && (s.cls.Some? ==> s.cls.value in root.classes)
  }

  /** Within a block the last declaration of a property counts. */
  function BlockValue<P(==)>(block: seq<Declaration<P>>, p: P): Option<string> {
    if block == [] then None
    else if block[|block| - 1].property == p then Some(block[|block| - 1].value)
    else BlockValue(block[..|block| - 1], p)
  }

  predicate Applies<P(==)>(rule: Rule<P>, root: Root, p: P) {
    Matches(rule.selector, root) && BlockValue(rule.block, p).Some?
  }

  /** One rule against the best so far: it wins unless the best is strictly more specific. */
  function Challenge<P(==)>(best: Option<Winner>, rule: Rule<P>, root: Root, p: P): Option<Winner> {
    if Applies(rule, root, p) && (best.None? || best.value.specificity <= Specificity(rule.selector)) then
      Some(Winner(Specificity(rule.selector), BlockValue(rule.block, p).value))
    else
      best
  }

  /** The rules from first to last, each against the best so far. */
  function Resolve<P(==)>(sheet: seq<Rule<P>>, best: Option<Winner>, root: Root, p: P): Option<Winner> {
    if sheet == [] then best else Resolve(sheet[1..], Challenge(best, sheet[0], root, p), root, p)
  }

  /** The value the root element gets for a property. */
  function Computed<P(==)>(sheet: seq<Rule<P>>, root: Root, p: P): Option<string> {
    var winner := Resolve(sheet, None, root, p);
    if winner.Some? then Some(winner.value.value) else None
  }

  // ----- the reading of the standard, without the scan -----

  /** Rule `i` applies and no applying rule is more specific, or as specific and later. */
  ghost predicate IsCascadeWinner<P>(sheet: seq<Rule<P>>, root: Root, p: P, i: int) {
    && 0 <= i < |sheet|
    && Applies(sheet[i], root, p)
    && forall j | 0 <= j < |sheet| && Applies(sheet[j], root, p) ::
         || Specificity(sheet[j].selector) < Specificity(sheet[i].selector)
         || (Specificity(sheet[j].selector) == Specificity(sheet[i].selector) && j <= i)
  }

  lemma {:induction false} ResolveSplits<P>(s: seq<Rule<P>>, t: seq<Rule<P>>, best: Option<Winner>, root: Root, p: P)
    ensures Resolve(s + t, best, root, p) == Resolve(t, Resolve(s, best, root, p), root, p)
  {
    if s == [] {
      assert s + t == t;
    } else {
      assert (s + t)[1..] == s[1..] + t;
      ResolveSplits(s[1..], t, Challenge(best, s[0], root, p), root, p);
    }
  }

  lemma {:induction false} ResolveLast<P>(sheet: seq<Rule<P>>, root: Root, p: P)
    requires sheet != []
    ensures var n := |sheet| - 1;
            Resolve(sheet, None, root, p) == Challenge(Resolve(sheet[..n], None, root, p), sheet[n], root, p)
  {
    var n := |sheet| - 1;
    assert sheet == sheet[..n] + [sheet[n]];
    ResolveSplits(sheet[..n], [sheet[n]], None, root, p);
    assert [sheet[n]][1..] == [];
  }

  lemma {:induction false} LastRuleWins<P>(sheet: seq<Rule<P>>, root: Root, p: P)
    requires sheet != [] && Applies(sheet[|sheet| - 1], root, p)
    requires forall j | 0 <= j < |sheet| - 1 && Applies(sheet[j], root, p) ::
               Specificity(sheet[j].selector) <= Specificity(sheet[|sheet| - 1].selector)
    ensures IsCascadeWinner(sheet, root, p, |sheet| - 1)
  {
  }

  lemma {:induction false} WinnerStays<P>(sheet: seq<Rule<P>>, root: Root, p: P, i: nat)
    requires sheet != [] && IsCascadeWinner(sheet[..|sheet| - 1], root, p, i)
    requires Applies(sheet[|sheet| - 1], root, p) ==>
               Specificity(sheet[|sheet| - 1].selector) < Specificity(sheet[i].selector)
    ensures IsCascadeWinner(sheet, root, p, i)
  {
    hide Applies, Specificity;
    var front := sheet[..|sheet| - 1];
    assert forall j | 0 <= j < |front| :: front[j] == sheet[j];
  }

  ghost predicate Yields<P>(sheet: seq<Rule<P>>, root: Root, p: P, i: int) {
    && IsCascadeWinner(sheet, root, p, i)
    && Resolve(sheet, None, root, p) == Some(Winner(Specificity(sheet[i].selector), BlockValue(sheet[i].block, p).value))
  }

  /** The scan finds a value exactly when some rule applies, and then it is the cascade winner's. */
  lemma ComputedIsCascadeWinner<P>(sheet: seq<Rule<P>>, root: Root, p: P)
    ensures Computed(sheet, root, p).None? <==> forall i | 0 <= i < |sheet| :: !Applies(sheet[i], root, p)
    ensures Computed(sheet, root, p).Some? ==> exists i :: Yields(sheet, root, p, i)
  {
    hide Applies, Specificity, Resolve;
    if sheet == [] {
      NoRules(sheet, root, p);
    } else {
      var n := |sheet| - 1;
      var front := sheet[..n];
      ResolveLast(sheet, root, p);
      ComputedIsCascadeWinner(front, root, p);
      assert forall j | 0 <= j < n :: front[j] == sheet[j];
      var best := Resolve(front, None, root, p);
      if best.None? {
        if Applies(sheet[n], root, p) {
          LastRuleWins(sheet, root, p);
          assert Yields(sheet, root, p, n);
        }
      } else {
        var i :| Yields(front, root, p, i);
        if Applies(sheet[n], root, p) && best.value.specificity <= Specificity(sheet[n].selector) {
          LastRuleWins(sheet, root, p);
          assert Yields(sheet, root, p, n);
        } else {
          WinnerStays(sheet, root, p, i);
          assert Yields(sheet, root, p, i);
        }
      }
    }
  }

  lemma {:induction false} NoRules<P>(sheet: seq<Rule<P>>, root: Root, p: P)
    requires sheet == []
    ensures Resolve(sheet, None, root, p) == None
  {
  }

  // ----- how a segment of a sheet acts -----

  lemma {:induction false} BlockValueLast<P>(front: seq<Declaration<P>>, d: Declaration<P>, p: P)
    ensures BlockValue(front + [d], p) == if d.property == p then Some(d.value) else BlockValue(front, p)
  {
    assert (front + [d])[..|front|] == front;
  }

  lemma {:induction false} InertSegment<P>(s: seq<Rule<P>>, best: Option<Winner>, root: Root, p: P)
    requires forall i | 0 <= i < |s| :: !Applies(s[i], root, p)
    ensures Resolve(s, best, root, p) == best
  {
    if s != [] {
      InertSegment(s[1..], best, root, p);
    }
  }

  /** A segment whose applying rules all say the same at one specificity that beats the best so far. */
  lemma {:induction false} UniformSegment<P>(s: seq<Rule<P>>, best: Option<Winner>, root: Root, p: P, w: Winner)
    requires best.Some? ==> best.value.specificity <= w.specificity
    requires forall i | 0 <= i < |s| && Applies(s[i], root, p) ::
               Specificity(s[i].selector) == w.specificity && BlockValue(s[i].block, p) == Some(w.value)
    ensures Resolve(s, best, root, p) ==
            if exists i | 0 <= i < |s| :: Applies(s[i], root, p) then Some(w) else best
  {
    if s != [] {
      var next := Challenge(best, s[0], root, p);
      UniformSegment(s[1..], next, root, p, w);
      assert forall i | 0 <= i < |s[1..]| :: s[1..][i] == s[i + 1];
      if i :| 0 <= i < |s| && Applies(s[i], root, p) {
        assert i == 0 || s[1..][i - 1] == s[i];
      }
    }
  }

  /** A bare `:root` rule followed by one-class variants of which at most one applies. */
  lemma {:induction false} BaseThenVariants<P>(base: Rule<P>, variants: seq<Rule<P>>, chosen: Rule<P>, root: Root, p: P)
    requires base.selector == Selector(None, None) && BlockValue(base.block, p).Some?
    requires forall i | 0 <= i < |variants| && Applies(variants[i], root, p) ::
               variants[i] == chosen && Specificity(chosen.selector) == 2
    requires chosen == base || (chosen in variants && Applies(chosen, root, p))
    ensures BlockValue(chosen.block, p).Some?
    ensures Resolve([base] + variants, None, root, p) ==
            Some(Winner(Specificity(chosen.selector), BlockValue(chosen.block, p).value))
  {
    var first := Challenge(None, base, root, p);
    assert ([base] + variants)[1..] == variants;
    if chosen in variants && Applies(chosen, root, p) {
      UniformSegment(variants, first, root, p, Winner(2, BlockValue(chosen.block, p).value));
      var i :| 0 <= i < |variants| && variants[i] == chosen;
      assert Applies(variants[i], root, p);
    } else {
      InertSegment(variants, first, root, p);
    }
  }
}
