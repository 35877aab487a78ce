/**
 The two transformations the repeating-groups test compares DOM shapes with: dropping what may
 differ, and demoting headings as the embedding page does.
 */
module DomShapes {
  import opened Wrappers

  datatype DomShape = DomShape(tag: string, attrs: map<string, string>, text: string, children: seq<DomShape>)

  const INSTANCE_HEADING_CEILING: nat := 4
  const HEADING_FLOOR: nat := 6

  // ----- comparable -----

  /** The attributes that are compared: all but the tab index, and a roster control's disabled flag. */
  function Compared(attrs: map<string, string>): map<string, string> {
    map name | name in attrs && name != "tabindex" && !("data-qcms-repeat-action" in attrs && name == "disabled")
      :: attrs[name]
  }

  /** The inner `normalise` of `comparable`. */
  function Normalise(node: DomShape): DomShape {
    var status := "role" in node.attrs && node.attrs["role"] == "status";
    DomShape(node.tag, Compared(node.attrs), if status then "" else node.text,
             seq(|node.children|, i requires 0 <= i < |node.children| => Normalise(node.children[i])))
  }

  /** What decides the normalisation survives it. */
  lemma ComparedKeepsDeciders(attrs: map<string, string>)
    ensures "data-qcms-repeat-action" in Compared(attrs) <==> "data-qcms-repeat-action" in attrs
    ensures "role" in Compared(attrs) <==> "role" in attrs
    ensures "role" in attrs ==> Compared(attrs)["role"] == attrs["role"]
    ensures Compared(Compared(attrs)) == Compared(attrs)
  {
    assert |"data-qcms-repeat-action"| == 23 && |"role"| == 4 && |"tabindex"| == 8;
    assert "tabindex"[0] == 't' && "disabled"[0] == 'd' && "role"[0] == 'r';
  }

  lemma {:induction false} NormaliseIsIdempotent(node: DomShape)
    ensures Normalise(Normalise(node)) == Normalise(node)
  {
    ComparedKeepsDeciders(node.attrs);
    forall i | 0 <= i < |node.children|
      ensures Normalise(Normalise(node.children[i])) == Normalise(node.children[i])
    {
      NormaliseIsIdempotent(node.children[i]);
    }
    assert Normalise(Normalise(node)).children == Normalise(node).children;
  }

  /** The two nodes agree on this attribute: both lack it, or both have it with one value. */
  predicate SameAttribute(a: DomShape, b: DomShape, name: string) {
    (name in a.attrs <==> name in b.attrs) && (name in a.attrs ==> a.attrs[name] == b.attrs[name])
  }

  /**
   What the comparison is meant to look at: tags, the tree, every attribute but the tab index and a roster control's
   disabled flag, and the text except in live regions.
   */
  ghost predicate Alike(a: DomShape, b: DomShape)
    decreases a
  {
    && a.tag == b.tag
    && (forall name: string | name != "tabindex" && name != "disabled" :: SameAttribute(a, b, name))
    && ("data-qcms-repeat-action" in a.attrs || SameAttribute(a, b, "disabled"))
    && (("role" in a.attrs && a.attrs["role"] == "status") || a.text == b.text)
    && |a.children| == |b.children|
    && forall i | 0 <= i < |a.children| :: Alike(a.children[i], b.children[i])
  }

  lemma {:induction false} SameCompared(a: DomShape, b: DomShape)
    ensures Compared(a.attrs) == Compared(b.attrs) <==>
            && (forall name: string | name != "tabindex" && name != "disabled" :: SameAttribute(a, b, name))
            && ("data-qcms-repeat-action" in a.attrs || SameAttribute(a, b, "disabled"))
  {
    NamesDiffer();
    var p, q := Compared(a.attrs), Compared(b.attrs);
    ComparedKeepsDeciders(a.attrs);
    ComparedKeepsDeciders(b.attrs);
    if p == q {
      forall name: string | name != "tabindex" && name != "disabled" ensures SameAttribute(a, b, name) {
        assert name in a.attrs <==> name in p;
        assert name in b.attrs <==> name in q;
      }
      if "data-qcms-repeat-action" !in a.attrs {
        assert "disabled" in a.attrs <==> "disabled" in p;
        assert "disabled" in b.attrs <==> "disabled" in q;
      }
    }
    if (forall name: string | name != "tabindex" && name != "disabled" :: SameAttribute(a, b, name))
       && ("data-qcms-repeat-action" in a.attrs || SameAttribute(a, b, "disabled")) {
      assert SameAttribute(a, b, "data-qcms-repeat-action");
      forall name: string ensures (name in p <==> name in q) && (name in p ==> p[name] == q[name]) {
        assert name != "tabindex" && name != "disabled" ==> SameAttribute(a, b, name);
      }
    }
  }

  lemma NamesDiffer()
    ensures "tabindex" != "disabled" && "data-qcms-repeat-action" != "tabindex" && "data-qcms-repeat-action" != "disabled"
    ensures "role" != "tabindex" && "role" != "disabled"
  {
    assert |"data-qcms-repeat-action"| == 23 && |"role"| == 4 && "tabindex"[0] == 't' && "disabled"[0] == 'd';
  }

  /** Two shapes normalise alike exactly when they differ only where the comparison should not look. */
  lemma {:induction false} NormalFormsAgreeIff(a: DomShape, b: DomShape)
    ensures Normalise(a) == Normalise(b) <==> Alike(a, b)
    decreases a
  {
    SameCompared(a, b);
    ComparedKeepsDeciders(a.attrs);
    ComparedKeepsDeciders(b.attrs);
    NamesDiffer();
    hide Compared;
    if |a.children| == |b.children| {
      forall i | 0 <= i < |a.children|
        ensures Normalise(a.children[i]) == Normalise(b.children[i]) <==> Alike(a.children[i], b.children[i])
      {
        NormalFormsAgreeIff(a.children[i], b.children[i]);
      }
    }
    var p, q := Normalise(a), Normalise(b);
    if p == q {
      assert forall i | 0 <= i < |a.children| :: p.children[i] == Normalise(a.children[i]) && q.children[i] == Normalise(b.children[i]);
      assert SameAttribute(a, b, "role");
    }
    if Alike(a, b) {
      assert SameAttribute(a, b, "role");
      assert p.children == q.children;
    }
  }

  // ----- asEmbedded -----

  /** `/^h([1-6])$/u`. */
  function HeadingLevel(tag: string): (level: Option<nat>)
    ensures level.Some? ==> 1 <= level.value <= 6
  {
    if |tag| == 2 && tag[0] == 'h' && '1' <= tag[1] <= '6' then Some((tag[1] - '0') as nat) else None
  }

  function HeadingTag(level: nat): string
    requires level < 10
  {
    ['h', "0123456789"[level]]
  }

  function Min(a: nat, b: nat): nat { if a <= b then a else b }

  function DemotedTag(tag: string, ceiling: nat): string
    requires ceiling <= 6
  {
    var level := HeadingLevel(tag);
    if level.None? then tag else HeadingTag(Min(level.value + 1, ceiling))
  }

  function Inner(tag: string, ceiling: nat): nat {
    if tag == "legend" then INSTANCE_HEADING_CEILING else ceiling
  }

  function Walk(node: DomShape, ceiling: nat): DomShape
    requires ceiling == 4 || ceiling == 6
  {
    var inner := Inner(node.tag, ceiling);
    node.(tag := DemotedTag(node.tag, inner),
          children := seq(|node.children|, i requires 0 <= i < |node.children| => Walk(node.children[i], inner)))
  }

  function AsEmbedded(shape: DomShape): DomShape {
    Walk(shape, HEADING_FLOOR)
  }

  lemma HeadingTagIsRead(level: nat)
    requires 1 <= level <= 6
    ensures HeadingLevel(HeadingTag(level)) == Some(level)
  {
  }

  /** A heading goes one level down, no further than the ceiling; any other tag stays. */
  lemma HeadingsGoOneDown(tag: string)
    ensures DemotedTag("h1", 6) == "h2" && DemotedTag("h2", 6) == "h3" && DemotedTag("h3", 6) == "h4"
    ensures DemotedTag("h4", 6) == "h5" && DemotedTag("h5", 6) == "h6" && DemotedTag("h6", 6) == "h6"
    ensures DemotedTag("h1", 4) == "h2" && DemotedTag("h2", 4) == "h3" && DemotedTag("h3", 4) == "h4"
    ensures DemotedTag("h4", 4) == "h4" && DemotedTag("h5", 4) == "h4" && DemotedTag("h6", 4) == "h4"
    ensures tag !in {"h1", "h2", "h3", "h4", "h5", "h6"} ==> DemotedTag(tag, 6) == tag == DemotedTag(tag, 4)
  {
    assert tag !in {"h1", "h2", "h3", "h4", "h5", "h6"} ==> HeadingLevel(tag).None? by {
      if HeadingLevel(tag).Some? {
        assert tag == ['h', tag[1]];
      }
    }
  }

  /** Demotion never makes or unmakes a legend. */
  lemma LegendsStay(tag: string, ceiling: nat)
    requires ceiling == 4 || ceiling == 6
    ensures Inner(DemotedTag(tag, Inner(tag, ceiling)), ceiling) == Inner(tag, ceiling)
  {
    assert |"legend"| == 6;
  }

  /** Normalising and embedding commute, so the comparison may do either first. */
  lemma {:induction false} NormaliseCommutesWithWalk(node: DomShape, ceiling: nat)
    requires ceiling == 4 || ceiling == 6
    ensures Normalise(Walk(node, ceiling)) == Walk(Normalise(node), ceiling)
  {
    var inner := Inner(node.tag, ceiling);
    forall i | 0 <= i < |node.children|
      ensures Normalise(Walk(node.children[i], inner)) == Walk(Normalise(node.children[i]), inner)
    {
      NormaliseCommutesWithWalk(node.children[i], inner);
    }
    assert Normalise(Walk(node, ceiling)).children == Walk(Normalise(node), ceiling).children;
  }

  /** Equal but for the tags of headings. */
  ghost predicate SameButHeadings(a: DomShape, b: DomShape) {
    && a.attrs == b.attrs && a.text == b.text && |a.children| == |b.children|
    && (HeadingLevel(a.tag).None? || HeadingLevel(b.tag).None? ==> a.tag == b.tag)
    && forall i | 0 <= i < |a.children| :: SameButHeadings(a.children[i], b.children[i])
  }

  /** Every heading is between h2 and the ceiling in force where it stands. */
  ghost predicate HeadingsWithin(node: DomShape, ceiling: nat) {
    var inner := if node.tag == "legend" then 4 else ceiling;
    && (HeadingLevel(node.tag).Some? ==> 2 <= HeadingLevel(node.tag).value <= inner)
    && forall i | 0 <= i < |node.children| :: HeadingsWithin(node.children[i], inner)
  }

  /**
   Embedding changes heading tags and nothing else, leaves no h1, and caps headings at h4 under a
   legend and at h6 elsewhere.
   */
  lemma {:induction false} EmbeddingDemotesHeadingsOnly(node: DomShape, ceiling: nat)
    requires ceiling == 4 || ceiling == 6
    ensures SameButHeadings(node, Walk(node, ceiling))
    ensures HeadingsWithin(Walk(node, ceiling), ceiling)
  {
    var inner := Inner(node.tag, ceiling);
    var level := HeadingLevel(node.tag);
    LegendsStay(node.tag, ceiling);
    if level.Some? {
      HeadingTagIsRead(Min(level.value + 1, inner));
    }
    forall i | 0 <= i < |node.children|
      ensures SameButHeadings(node.children[i], Walk(node.children[i], inner))
      ensures HeadingsWithin(Walk(node.children[i], inner), inner)
    {
      EmbeddingDemotesHeadingsOnly(node.children[i], inner);
    }
  }

  /** The tag a heading has in the embedded form, at or below a legend and elsewhere. */
  ghost predicate TagDemoted(tag: string, demoted: string, inLegend: bool) {
    && (tag == "h1" ==> demoted == "h2")
    && (tag == "h2" ==> demoted == "h3")
    && (tag == "h3" ==> demoted == "h4")
    && (tag == "h4" ==> demoted == if inLegend then "h4" else "h5")
    && (tag == "h5" || tag == "h6" ==> demoted == if inLegend then "h4" else "h6")
    && (tag !in {"h1", "h2", "h3", "h4", "h5", "h6"} ==> demoted == tag)
  }

  ghost predicate Demoted(a: DomShape, b: DomShape, inLegend: bool) {
    var within := inLegend || a.tag == "legend";
    && TagDemoted(a.tag, b.tag, within)
    && a.attrs == b.attrs && a.text == b.text && |a.children| == |b.children|
    && forall i | 0 <= i < |a.children| :: Demoted(a.children[i], b.children[i], within)
  }

  lemma TagDemotedIff(tag: string, demoted: string, inLegend: bool)
    ensures demoted == DemotedTag(tag, if inLegend then 4 else 6) <==> TagDemoted(tag, demoted, inLegend)
  {
    HeadingsGoOneDown(tag);
    hide DemotedTag;
  }

  /** A tree is another's embedded form exactly when it is the same tree with every heading demoted, capped at or below a legend. */
  lemma {:induction false} EmbeddedIff(a: DomShape, b: DomShape)
    ensures b == AsEmbedded(a) <==> Demoted(a, b, false)
  {
    WalkedIff(a, b, false);
  }

  lemma {:induction false} WalkedIff(a: DomShape, b: DomShape, inLegend: bool)
    ensures b == Walk(a, if inLegend then 4 else 6) <==> Demoted(a, b, inLegend)
  {
    var ceiling := if inLegend then 4 else 6;
    var within := inLegend || a.tag == "legend";
    var inner := if within then 4 else 6;
    assert inner == Inner(a.tag, ceiling);
    TagDemotedIff(a.tag, b.tag, within);
    hide TagDemoted, DemotedTag;
    var walked := Walk(a, ceiling);
    if |a.children| == |b.children| {
      forall i | 0 <= i < |a.children|
        ensures b.children[i] == walked.children[i] <==> Demoted(a.children[i], b.children[i], within)
      {
        WalkedIff(a.children[i], b.children[i], within);
      }
      assert b.children == walked.children <==> forall i | 0 <= i < |a.children| :: b.children[i] == walked.children[i];
    }
  }

  /** The comparison may normalise before embedding or after. */
  lemma {:induction false} NormaliseCommutesWithEmbedding(shape: DomShape)
    ensures Normalise(AsEmbedded(shape)) == AsEmbedded(Normalise(shape))
  {
    NormaliseCommutesWithWalk(shape, HEADING_FLOOR);
  }

  // ----- embedding repeatedly -----

  function Repeat(node: DomShape, ceiling: nat, times: nat): DomShape
    requires ceiling == 4 || ceiling == 6
  {
    if times == 0 then node else Walk(Repeat(node, ceiling, times - 1), ceiling)
  }

  /** The level a heading reaches after some demotions. */
  function LevelAfter(level: nat, ceiling: nat, times: nat): nat {
    if times == 0 then level else Min(level + times, ceiling)
  }

  /** Repetition acts node by node: the tag by arithmetic, the children each on their own. */
  lemma {:induction false} RepeatActsPointwise(node: DomShape, ceiling: nat, times: nat)
    requires ceiling == 4 || ceiling == 6
    ensures var r := Repeat(node, ceiling, times);
            var inner := Inner(node.tag, ceiling);
            && r.attrs == node.attrs && r.text == node.text
            && Inner(r.tag, ceiling) == inner
            && |r.children| == |node.children|
            && (forall i | 0 <= i < |node.children| :: r.children[i] == Repeat(node.children[i], inner, times))
            && match HeadingLevel(node.tag) {
                 case None => r.tag == node.tag
                 case Some(level) => times > 0 ==> r.tag == HeadingTag(LevelAfter(level, inner, times))
               }
  {
    if times > 0 {
      RepeatActsPointwise(node, ceiling, times - 1);
      var before := Repeat(node, ceiling, times - 1);
      LegendsStay(before.tag, ceiling);
      var level := HeadingLevel(node.tag);
      if level.Some? && times > 1 {
        HeadingTagIsRead(LevelAfter(level.value, Inner(node.tag, ceiling), times - 1));
      }
    }
  }

  /** Five embeddings reach a shape that a sixth leaves alone. */
  lemma {:induction false} FiveEmbeddingsSuffice(node: DomShape, ceiling: nat)
    requires ceiling == 4 || ceiling == 6
    ensures Repeat(node, ceiling, 6) == Repeat(node, ceiling, 5)
  {
    RepeatActsPointwise(node, ceiling, 5);
    RepeatActsPointwise(node, ceiling, 6);
    var inner := Inner(node.tag, ceiling);
    forall i | 0 <= i < |node.children|
      ensures Repeat(node.children[i], inner, 6) == Repeat(node.children[i], inner, 5)
    {
      FiveEmbeddingsSuffice(node.children[i], inner);
    }
    assert Repeat(node, ceiling, 6).children == Repeat(node, ceiling, 5).children;
  }

  /** And five are needed: an h1 is still moving at the fifth. */
  lemma FourEmbeddingsDoNotSuffice()
    ensures var h1 := DomShape("h1", map[], "", []);
            Repeat(h1, HEADING_FLOOR, 5) != Repeat(h1, HEADING_FLOOR, 4)
  {
    var h1 := DomShape("h1", map[], "", []);
    RepeatActsPointwise(h1, HEADING_FLOOR, 4);
    RepeatActsPointwise(h1, HEADING_FLOOR, 5);
    assert "h1"[0] == 'h' && HeadingLevel("h1") == Some(1);
    HeadingTagIsRead(5);
    HeadingTagIsRead(6);
  }
}
