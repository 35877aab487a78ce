/**
 The collector that files the style rules of a sheet under their media conditions: a recursive walk
 that passes the inherited condition down and grows one shared list.
 */
module MediaRules {
  import opened Wrappers

  /** A parsed rule; `Group` is any other rule with rules inside (a layer, a supports block). */
  datatype CssRule =
    | Style(selector: string, nested: seq<CssRule>)
    | Media(condition: string, nested: seq<CssRule>)
    | Group(nested: seq<CssRule>)

  datatype MediaCondition = MediaCondition(condition: string, selectors: seq<string>)

  /** A style rule filed under a condition. */
  datatype Filing = Filing(condition: string, selector: string)

  // ----- the list -----

  /** Where the condition is in the list, or the list's length. */
  function Find(collected: seq<MediaCondition>, condition: string): (i: nat)
    ensures i <= |collected|
    ensures i < |collected| ==> collected[i].condition == condition
    ensures forall j | 0 <= j < i :: collected[j].condition != condition
  {
    if collected == [] || collected[0].condition == condition then 0
    else
      var i := Find(collected[1..], condition);
      assert forall j | 0 < j <= i :: collected[j] == collected[1..][j - 1] || j > |collected[1..]|;
      i + 1
  }

  function Added(collected: seq<MediaCondition>, f: Filing): seq<MediaCondition> {
    var i := Find(collected, f.condition);
    if i == |collected| then collected + [MediaCondition(f.condition, [f.selector])]
    else collected[i := MediaCondition(f.condition, collected[i].selectors + [f.selector])]
  }

  function Gathered(collected: seq<MediaCondition>, filings: seq<Filing>): seq<MediaCondition> {
    if filings == [] then collected
    else Added(Gathered(collected, filings[..|filings| - 1]), filings[|filings| - 1])
  }

  // ----- the walk -----

  /** What the walk files for the rules from index `k` on, under an inherited condition. */
  function Filed(rules: seq<CssRule>, k: nat, inherited: Option<string>): seq<Filing>
    requires k <= |rules|
    decreases rules, |rules| - k
  {
    if k == |rules| then []
    else
      var below := if rules[k].Media? then Some(rules[k].condition) else inherited;
      OwnFiling(rules[k], below) + Filed(rules[k].nested, 0, below) + Filed(rules, k + 1, inherited)
  }

  function OwnFiling(rule: CssRule, condition: Option<string>): seq<Filing> {
    if rule.Style? && condition.Some? then [Filing(condition.value, rule.selector)] else []
  }

  /** The page-side closure state of `mediaConditions`. */
  class Collector {
    var collected: seq<MediaCondition>

    constructor ()
      ensures collected == []
    {
      collected := [];
    }

    method Add(condition: string, selector: string)
      modifies this
      ensures collected == Added(old(collected), Filing(condition, selector))
    {
      var i := 0;
      while i < |collected| && collected[i].condition != condition
        invariant 0 <= i <= |collected| && collected == old(collected)
        invariant forall j | 0 <= j < i :: collected[j].condition != condition
      {
        i := i + 1;
      }
      if i == |collected| {
        collected := collected + [MediaCondition(condition, [selector])];
      } else {
        collected := collected[i := MediaCondition(condition, collected[i].selectors + [selector])];
      }
    }

    method Walk(rules: seq<CssRule>, condition: Option<string>)
      modifies this
      ensures collected == Gathered(old(collected), Filed(rules, 0, condition))
      decreases rules
    {
      hide Added, Gathered, Filed;
      for k := 0 to |rules|
        invariant Gathered(old(collected), Filed(rules, 0, condition)) ==
                  Gathered(collected, Filed(rules, k, condition))
      {
        var rule := rules[k];
        var inherited := if rule.Media? then Some(rule.condition) else condition;
        WalkStep(collected, rules, k, condition);
        if rule.Style? && inherited.Some? {
          Add(inherited.value, rule.selector);
        }
        assert rule in rules;
        Walk(rule.nested, inherited);
      }
      NothingLeft(collected, rules, condition);
    }

    /** The sheets in turn; one whose rules are not accessible is skipped. */
    method MediaConditions(sheets: seq<Option<seq<CssRule>>>)
      modifies this
      ensures collected == Gathered(old(collected), AllFiled(sheets))
    {
      for i := 0 to |sheets|
        invariant collected == Gathered(old(collected), AllFiled(sheets[..i]))
      {
        assert sheets[..i + 1][..i] == sheets[..i];
        ghost var filed := AllFiled(sheets[..i]);
        assert filed + [] == filed;
        if sheets[i].Some? {
          GatheredSplits(old(collected), filed, Filed(sheets[i].value, 0, None));
          Walk(sheets[i].value, None);
        }
      }
      assert sheets[..|sheets|] == sheets;
    }
  }

  function AllFiled(sheets: seq<Option<seq<CssRule>>>): seq<Filing> {
    if sheets == [] then []
    else
      var last := sheets[|sheets| - 1];
      AllFiled(sheets[..|sheets| - 1]) + if last.Some? then Filed(last.value, 0, None) else []
  }

  /** Sheets are read in turn, an accessible one from its first rule under no media rule, an inaccessible one not at all. */
  lemma {:induction false} SheetsInTurn(a: seq<Option<seq<CssRule>>>, b: seq<Option<seq<CssRule>>>, rules: seq<CssRule>)
    ensures AllFiled(a + b) == AllFiled(a) + AllFiled(b)
    ensures AllFiled([Some(rules)]) == Filed(rules, 0, None) && AllFiled([None]) == []
  {
    hide Filed;
    assert AllFiled([Some(rules)][..0]) == [] && AllFiled([None][..0]) == [];
    if b == [] {
      assert a + b == a;
    } else {
      assert (a + b)[..|a + b| - 1] == a + b[..|b| - 1];
      SheetsInTurn(a, b[..|b| - 1], rules);
    }
  }

  lemma {:induction false} GatheredSplits(collected: seq<MediaCondition>, a: seq<Filing>, b: seq<Filing>)
    ensures Gathered(collected, a + b) == Gathered(Gathered(collected, a), b)
  {
    if b == [] {
      assert a + b == a;
    } else {
      var n := |b| - 1;
      assert (a + b)[..|a| + n] == a + b[..n];
      GatheredSplits(collected, a, b[..n]);
    }
  }

  /** One rule of the walk: its own filing, those inside it, then the rest. */
  lemma WalkStep(collected: seq<MediaCondition>, rules: seq<CssRule>, k: nat, condition: Option<string>)
    requires k < |rules|
    ensures var rule := rules[k];
            var inherited := if rule.Media? then Some(rule.condition) else condition;
            var added := if rule.Style? && inherited.Some? then Added(collected, Filing(inherited.value, rule.selector))
                         else collected;
            Gathered(collected, Filed(rules, k, condition)) ==
            Gathered(Gathered(added, Filed(rule.nested, 0, inherited)), Filed(rules, k + 1, condition))
  {
    hide Added;
    var rule := rules[k];
    var inherited := if rule.Media? then Some(rule.condition) else condition;
    var own := OwnFiling(rule, inherited);
    var inside, rest := Filed(rule.nested, 0, inherited), Filed(rules, k + 1, condition);
    GatheredSplits(collected, own + inside, rest);
    GatheredSplits(collected, own, inside);
    if own != [] {
      GatheredOne(collected, own[0]);
    }
  }

  lemma {:induction false} NothingLeft(collected: seq<MediaCondition>, rules: seq<CssRule>, condition: Option<string>)
    ensures Gathered(collected, Filed(rules, |rules|, condition)) == collected
  {
  }

  lemma {:induction false} GatheredOne(collected: seq<MediaCondition>, f: Filing)
    ensures Gathered(collected, [f]) == Added(collected, f)
  {
    assert [f][..0] == [];
  }

  // ----- what the list says about the filings -----

  function SelectorsOf(filings: seq<Filing>, condition: string): seq<string> {
    if filings == [] then []
    else
      var last := filings[|filings| - 1];
      SelectorsOf(filings[..|filings| - 1], condition) + if last.condition == condition then [last.selector] else []
  }

  /** The conditions in the order they first occur. */
  function FirstOccurrences(filings: seq<Filing>): seq<string> {
    if filings == [] then []
    else
      var before, last := FirstOccurrences(filings[..|filings| - 1]), filings[|filings| - 1].condition;
      if last in before then before else before + [last]
  }

  function SelectorCount(collected: seq<MediaCondition>): nat {
    if collected == [] then 0
    else SelectorCount(collected[..|collected| - 1]) + |collected[|collected| - 1].selectors|
  }

  lemma {:induction false} NoneFiled(filings: seq<Filing>, condition: string)
    requires condition !in FirstOccurrences(filings)
    ensures SelectorsOf(filings, condition) == []
  {
    if filings != [] {
      NoneFiled(filings[..|filings| - 1], condition);
    }
  }

  /** One entry per condition in first-occurrence order, each holding its own filings in order. */
  ghost predicate Groups(collected: seq<MediaCondition>, filings: seq<Filing>) {
    && |collected| == |FirstOccurrences(filings)|
    && forall i | 0 <= i < |collected| ::
         collected[i].condition == FirstOccurrences(filings)[i] &&
         collected[i].selectors == SelectorsOf(filings, collected[i].condition)
  }

  ghost predicate DistinctConditions(collected: seq<MediaCondition>) {
    forall i, j | 0 <= i < j < |collected| :: collected[i].condition != collected[j].condition
  }

  /**
   The list holds one entry per condition, in first-occurrence order; each entry holds exactly the
   selectors filed under its condition, in filing order; and no selector is lost or counted twice.
   */
  lemma {:induction false} ListGroupsTheFilings(filings: seq<Filing>)
    ensures Groups(Gathered([], filings), filings)
    ensures DistinctConditions(Gathered([], filings))
    ensures SelectorCount(Gathered([], filings)) == |filings|
  {
    if filings == [] {
    } else {
      hide Groups, DistinctConditions, SelectorCount, Added;
      var n := |filings| - 1;
      var before, f := filings[..n], filings[n];
      ListGroupsTheFilings(before);
      AddKeepsGroups(Gathered([], before), before, f);
      assert filings == before + [f];
      AddCountsOne(Gathered([], before), f);
    }
  }

  lemma AddKeepsGroups(collected: seq<MediaCondition>, filings: seq<Filing>, f: Filing)
    requires Groups(collected, filings) && DistinctConditions(collected)
    ensures Groups(Added(collected, f), filings + [f]) && DistinctConditions(Added(collected, f))
  {
    var after := filings + [f];
    assert after[..|filings|] == filings;
    var i := Find(collected, f.condition);
    if i < |collected| {
      assert FirstOccurrences(filings)[i] == f.condition;
    } else {
      assert forall j | 0 <= j < |collected| :: FirstOccurrences(filings)[j] != f.condition by {
        assert forall j | 0 <= j < |collected| :: collected[j].condition != f.condition;
      }
      NoneFiled(filings, f.condition);
    }
  }

  lemma {:induction false} AddCountsOne(collected: seq<MediaCondition>, f: Filing)
    ensures SelectorCount(Added(collected, f)) == SelectorCount(collected) + 1
  {
    var i := Find(collected, f.condition);
    if i < |collected| {
      CountOfUpdate(collected, i, MediaCondition(f.condition, collected[i].selectors + [f.selector]));
    } else {
      assert (collected + [MediaCondition(f.condition, [f.selector])])[..|collected|] == collected;
    }
  }

  lemma {:induction false} CountOfUpdate(collected: seq<MediaCondition>, i: nat, entry: MediaCondition)
    requires i < |collected|
    ensures SelectorCount(collected[i := entry]) ==
            SelectorCount(collected) - |collected[i].selectors| + |entry.selectors|
  {
    var n := |collected| - 1;
    if i == n {
      assert collected[i := entry][..n] == collected[..n];
    } else {
      assert collected[i := entry][..n] == collected[..n][i := entry];
      CountOfUpdate(collected[..n], i, entry);
    }
  }

  // ----- which rules are filed, and where -----

  /** The way from the top of a sheet down to a rule, by indices. */
  type Address = seq<nat>

  /** The rules inside the rule at an address; the sheet's own for the empty one. */
  function RulesAt(sheet: seq<CssRule>, at: Address): Option<seq<CssRule>> {
    if at == [] then Some(sheet)
    else
      var outer, k := RulesAt(sheet, at[..|at| - 1]), at[|at| - 1];
      if outer.Some? && k < |outer.value| then Some(outer.value[k].nested) else None
  }

  function RuleAt(sheet: seq<CssRule>, at: Address): Option<CssRule> {
    if at == [] then None
    else
      var outer, k := RulesAt(sheet, at[..|at| - 1]), at[|at| - 1];
      if outer.Some? && k < |outer.value| then Some(outer.value[k]) else None
  }

  /** The condition of the closest media rule at the address or above it, found from below. */
  function InnermostMedia(sheet: seq<CssRule>, at: Address): Option<string> {
    if at == [] then None
    else
      var rule := RuleAt(sheet, at);
      if rule.Some? && rule.value.Media? then Some(rule.value.condition)
      else InnermostMedia(sheet, at[..|at| - 1])
  }

  /** The addresses below `prefix` whose first index is `k` or more, in document order. */
  function Addresses(rules: seq<CssRule>, prefix: Address, k: nat): seq<Address>
    requires k <= |rules|
    decreases rules, |rules| - k
  {
    if k == |rules| then []
    else [prefix + [k]] + Addresses(rules[k].nested, prefix + [k], 0) + Addresses(rules, prefix, k + 1)
  }

  /** The filing of the rule at an address: a style rule, under its innermost media condition if any. */
  function FilingAt(sheet: seq<CssRule>, at: Address): seq<Filing> {
    var rule := RuleAt(sheet, at);
    if rule.None? then [] else OwnFiling(rule.value, InnermostMedia(sheet, at))
  }

  function FilingsAt(sheet: seq<CssRule>, ats: seq<Address>): seq<Filing> {
    if ats == [] then [] else FilingAt(sheet, ats[0]) + FilingsAt(sheet, ats[1..])
  }

  lemma {:induction false} FilingsAtSplit(sheet: seq<CssRule>, a: seq<Address>, b: seq<Address>)
    ensures FilingsAt(sheet, a + b) == FilingsAt(sheet, a) + FilingsAt(sheet, b)
  {
    if a == [] {
      assert a + b == b;
    } else {
      assert (a + b)[1..] == a[1..] + b;
      FilingsAtSplit(sheet, a[1..], b);
    }
  }

  lemma {:induction false} WalkFollowsAddresses(sheet: seq<CssRule>, rules: seq<CssRule>, prefix: Address, k: nat)
    requires k <= |rules|
    requires RulesAt(sheet, prefix) == Some(rules)
    ensures Filed(rules, k, InnermostMedia(sheet, prefix)) == FilingsAt(sheet, Addresses(rules, prefix, k))
    decreases rules, |rules| - k
  {
    if k < |rules| {
      var inherited, at := InnermostMedia(sheet, prefix), prefix + [k];
      assert at[..|prefix|] == prefix;
      var below := if rules[k].Media? then Some(rules[k].condition) else inherited;
      assert InnermostMedia(sheet, at) == below;
      WalkFollowsAddresses(sheet, rules[k].nested, at, 0);
      WalkFollowsAddresses(sheet, rules, prefix, k + 1);
      var inside, rest := Addresses(rules[k].nested, at, 0), Addresses(rules, prefix, k + 1);
      FilingsAtSplit(sheet, [at], inside);
      FilingsAtSplit(sheet, [at] + inside, rest);
      assert [at][1..] == [];
      assert FilingsAt(sheet, [at]) == FilingAt(sheet, at) + [] == OwnFiling(rules[k], below);
    }
  }

  /** An address of a rule stays inside the lists it passes through. */
  lemma {:induction false} AddressStaysInside(sheet: seq<CssRule>, at: Address, m: nat)
    requires RuleAt(sheet, at).Some? && m < |at|
    ensures RulesAt(sheet, at[..m]).Some? && at[m] < |RulesAt(sheet, at[..m]).value|
    ensures RuleAt(sheet, at[..m + 1]).Some?
  {
    var n := |at| - 1;
    assert at[..m + 1][..m] == at[..m];
    if m < n {
      assert at[..n][..m] == at[..m] && at[..n][..m + 1] == at[..m + 1];
      AddressStaysInside(sheet, at[..n], m);
    } else {
      assert at[..n + 1] == at;
    }
  }

  lemma {:induction false} RuleAtExtends(sheet: seq<CssRule>, rules: seq<CssRule>, prefix: Address, k: nat)
    requires k < |rules| && RulesAt(sheet, prefix) == Some(rules)
    ensures RuleAt(sheet, prefix + [k]) == Some(rules[k])
    ensures RulesAt(sheet, prefix + [k]) == Some(rules[k].nested)
  {
    assert (prefix + [k])[..|prefix|] == prefix;
  }

  lemma {:induction false} AddressesPointAtRules(sheet: seq<CssRule>, rules: seq<CssRule>, prefix: Address, k: nat, a: Address)
    requires k <= |rules| && RulesAt(sheet, prefix) == Some(rules)
    requires a in Addresses(rules, prefix, k)
    ensures prefix < a && a[|prefix|] >= k && RuleAt(sheet, a).Some?
    decreases rules, |rules| - k
  {
    hide RulesAt, RuleAt;
    var at := prefix + [k];
    RuleAtExtends(sheet, rules, prefix, k);
    if a in Addresses(rules[k].nested, at, 0) {
      AddressesPointAtRules(sheet, rules[k].nested, at, 0, a);
    } else if a != at {
      AddressesPointAtRules(sheet, rules, prefix, k + 1, a);
    }
  }

  lemma {:induction false} RulesHaveAddresses(sheet: seq<CssRule>, rules: seq<CssRule>, prefix: Address, k: nat, a: Address)
    requires k <= |rules| && RulesAt(sheet, prefix) == Some(rules)
    requires prefix < a && a[|prefix|] >= k && RuleAt(sheet, a).Some?
    ensures a in Addresses(rules, prefix, k)
    decreases rules, |rules| - k
  {
    hide RulesAt, RuleAt;
    AddressStaysInside(sheet, a, |prefix|);
    assert a[..|prefix|] == prefix;
    if a[|prefix|] > k {
      RulesHaveAddresses(sheet, rules, prefix, k + 1, a);
    } else if |a| > |prefix| + 1 {
      var at := prefix + [k];
      RuleAtExtends(sheet, rules, prefix, k);
      assert a[..|at|] == at;
      RulesHaveAddresses(sheet, rules[k].nested, at, 0, a);
    } else {
      assert a == prefix + [k];
    }
  }

  lemma {:induction false} AddressesAreTheRules(sheet: seq<CssRule>, rules: seq<CssRule>, prefix: Address,
    k: nat, a: Address)
    requires k <= |rules| && RulesAt(sheet, prefix) == Some(rules)
    ensures a in Addresses(rules, prefix, k) <==> prefix < a && a[|prefix|] >= k && RuleAt(sheet, a).Some?
  {
    hide RulesAt, RuleAt, Addresses;
    if a in Addresses(rules, prefix, k) {
      AddressesPointAtRules(sheet, rules, prefix, k, a);
    }
    if prefix < a && a[|prefix|] >= k && RuleAt(sheet, a).Some? {
      RulesHaveAddresses(sheet, rules, prefix, k, a);
    }
  }

  ghost predicate Distinct(ats: seq<Address>) {
    forall i, j | 0 <= i < j < |ats| :: ats[i] != ats[j]
  }

  lemma DistinctSplits(a: seq<Address>, b: seq<Address>)
    requires Distinct(a) && Distinct(b) && (forall x | x in a :: x !in b)
    ensures Distinct(a + b)
  {
    var c := a + b;
    forall i, j | 0 <= i < j < |c| ensures c[i] != c[j] {
      if i < |a| <= j {
        assert c[i] in a && c[j] == b[j - |a|] && c[j] in b;
      }
    }
  }

  lemma {:induction false} AddressesAreDistinct(sheet: seq<CssRule>, rules: seq<CssRule>, prefix: Address, k: nat)
    requires k <= |rules|
    requires RulesAt(sheet, prefix) == Some(rules)
    ensures Distinct(Addresses(rules, prefix, k))
    decreases rules, |rules| - k
  {
    if k < |rules| {
      var at := prefix + [k];
      assert at[..|prefix|] == prefix;
      var inside, rest := Addresses(rules[k].nested, at, 0), Addresses(rules, prefix, k + 1);
      AddressesAreDistinct(sheet, rules[k].nested, at, 0);
      AddressesAreDistinct(sheet, rules, prefix, k + 1);
      forall a: Address
        ensures a in inside ==> at < a
        ensures a in rest ==> prefix < a && a[|prefix|] > k
      {
        AddressesAreTheRules(sheet, rules[k].nested, at, 0, a);
        AddressesAreTheRules(sheet, rules, prefix, k + 1, a);
      }
      DistinctSplits([at], inside);
      DistinctSplits([at] + inside, rest);
    }
  }

  /**
   The walk visits every rule of the sheet exactly once, and files exactly the style rules that
   have a media rule above them, each under the innermost one's condition.
   */
  lemma {:induction false} WalkFilesUnderInnermostMedia(sheet: seq<CssRule>)
    ensures Filed(sheet, 0, None) == FilingsAt(sheet, Addresses(sheet, [], 0))
    ensures Distinct(Addresses(sheet, [], 0))
    ensures forall a: Address :: a in Addresses(sheet, [], 0) <==> RuleAt(sheet, a).Some?
  {
    WalkFollowsAddresses(sheet, sheet, [], 0);
    AddressesAreDistinct(sheet, sheet, [], 0);
    forall a: Address ensures a in Addresses(sheet, [], 0) <==> RuleAt(sheet, a).Some? {
      AddressesAreTheRules(sheet, sheet, [], 0, a);
    }
  }
}
