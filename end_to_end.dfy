/**
 * The glyph walk and the stylesheet together: with distinct slugs that are
 * not array indices, the stylesheet has the two rules of every included icon
 * in catalogue order, each naming the CSS escape of the icon's codepoint.
 */
module EndToEnd {
  import opened Text
  import opened Codepoints
  import opened Geometry
  import opened BuildConfig
  import opened SvgFont
  import opened Allocation
  import opened TableOrder
  import opened Stylesheet

  /** What the allocation decides for one included icon: its slug, its codepoint and its colour. */
  datatype Allocated = Allocated(slug: string, codepoint: nat, hex: string)

  /** The included icons of the catalogue with their codepoints, in catalogue order. */
  function AllocatedIcons(icons: seq<Icon>, cfg: Config): seq<Allocated> {
    var inc := IncludedIndices(icons, cfg, |icons|);
    seq(|inc|, k requires 0 <= k < |inc| =>
      Allocated(icons[inc[k]].slug, Codepoint(cfg, inc[k], k), icons[inc[k]].hex))
  }

  /**
   * The stylesheet rules written straight from the allocation: a content
   * rule with `\` and the lower-case hex digits of each codepoint, then a
   * colour rule with its hex.
   */
  function ExpectedRules(xs: seq<Allocated>): string {
    if |xs| == 0 then ""
    else
      var last := xs[|xs| - 1];
      ExpectedRules(xs[..|xs| - 1])
        + ContentRule(last.slug, "\\" + ToHexString(last.codepoint))
        + ColorRule(last.slug, last.hex)
  }

  /** The table lists exactly the allocated icons, in order, each with its reference and colour. */
  predicate Lists(keys: seq<string>, entries: map<string, Entry>, xs: seq<Allocated>) {
    |keys| == |xs| &&
    forall k :: 0 <= k < |xs| ==>
      keys[k] == xs[k].slug && keys[k] in entries &&
      entries[keys[k]] == Entry(Reference(xs[k].codepoint), xs[k].hex)
  }

  lemma {:induction false} RulesOfListed(keys: seq<string>, entries: map<string, Entry>, xs: seq<Allocated>)
    requires Lists(keys, entries, xs)
    ensures Covered(keys, entries) && Rules(keys, entries) == ExpectedRules(xs)
  {
    var n := |xs|;
    if n > 0 {
      ListsPrefix(keys, entries, xs);
      RulesOfListed(keys[..n - 1], entries, xs[..n - 1]);
      RulesOfListedStep(keys, entries, xs);
    }
  }

  lemma ListsPrefix(keys: seq<string>, entries: map<string, Entry>, xs: seq<Allocated>)
    requires Lists(keys, entries, xs) && |xs| > 0
    ensures Lists(keys[..|xs| - 1], entries, xs[..|xs| - 1])
  {
  }

  lemma RulesOfListedStep(keys: seq<string>, entries: map<string, Entry>, xs: seq<Allocated>)
    requires Lists(keys, entries, xs) && |xs| > 0
    requires Covered(keys[..|xs| - 1], entries)
    requires Rules(keys[..|xs| - 1], entries) == ExpectedRules(xs[..|xs| - 1])
    ensures Covered(keys, entries) && Rules(keys, entries) == ExpectedRules(xs)
  {
    var n := |xs|;
    var x := xs[n - 1];
    assert Covered(keys, entries);
    RulesStep(keys, entries, n - 1);
    assert keys[..n] == keys;
    var content, color := ContentRule(x.slug, "\\" + ToHexString(x.codepoint)), ColorRule(x.slug, x.hex);
    assert RuleBlock(keys[n - 1], entries[keys[n - 1]]) == content + color by {
      CssEscapeOfReference(x.codepoint);
    }
    AppendAssociative(Rules(keys[..n - 1], entries), content, color);
  }

  /** No slug is a canonical array index. */
  predicate NoIndexSlugs(icons: seq<Icon>) {
    forall i :: 0 <= i < |icons| ==> !IsArrayIndex(icons[i].slug)
  }

  /** With distinct slugs, the final table lists the allocated icons. */
  lemma TableListsAllocated(icons: seq<Icon>, cfg: Config)
    requires DistinctSlugs(icons)
    ensures var t := Table(icons, cfg, |icons|);
      Lists(t.keys, t.entries, AllocatedIcons(icons, cfg))
  {
    TableFollowsCatalogue(icons, cfg, |icons|);
  }

  /**
   * With distinct slugs that are not array indices, the rules `BuildCss`
   * appends for the final table are the expected rules of every included
   * icon, in catalogue order.
   */
  lemma StylesheetFollowsCatalogue(icons: seq<Icon>, cfg: Config)
    requires DistinctSlugs(icons) && NoIndexSlugs(icons)
    ensures var t := Table(icons, cfg, |icons|);
      && Covered(ForInOrder(t.keys), t.entries)
      && Rules(ForInOrder(t.keys), t.entries) == ExpectedRules(AllocatedIcons(icons, cfg))
  {
    var t := Table(icons, cfg, |icons|);
    var xs := AllocatedIcons(icons, cfg);
    TableListsAllocated(icons, cfg);
    assert forall k :: 0 <= k < |t.keys| ==> !IsArrayIndex(t.keys[k]) by {
      var inc := IncludedIndices(icons, cfg, |icons|);
      forall k | 0 <= k < |t.keys|
        ensures !IsArrayIndex(t.keys[k])
      {
        assert t.keys[k] == xs[k].slug == icons[inc[k]].slug;
      }
    }
    ForInInsertionOrder(t.keys);
    RulesOfListed(t.keys, t.entries, xs);
  }

  // ---------------------------------------------------------------- a worked build

  /** A full square and a half-width glyph, unfiltered. */
  function TwoIcons(): seq<Icon> {
    [Icon("a", "ff0000", Parsed("M0 0H24V24H0Z", Box(0.0, 0.0, 24.0, 24.0))),
     Icon("b", "00ff00", Parsed("M0 0H12V24H0Z", Box(0.0, 0.0, 12.0, 24.0)))]
  }

  lemma HexOfFirstSlots()
    ensures ToHexString(0xEA01) == "ea01" && ToHexString(0xEA02) == "ea02"
  {
    assert ToHexString(0xE) == "e";
    assert ToHexString(0xEA) == "ea";
    assert ToHexString(0xEA0) == "ea0";
  }

  /** Unfiltered, `a` gets U+EA01 and `b` gets U+EA02. */
  lemma TwoIconAllocation()
    ensures AllocatedIcons(TwoIcons(), Config({}, true)) ==
      [Allocated("a", 0xEA01, "ff0000"), Allocated("b", 0xEA02, "00ff00")]
  {
    UnfilteredIndices(TwoIcons(), Config({}, true), 2);
  }

  /** The walk gets through both icons. */
  lemma TwoIconsBuild()
    ensures NoErrors(TwoIcons(), Config({}, true), "Regular")
  {
    NoErrorsWhen(TwoIcons(), Config({}, true), "Regular");
  }

  /**
   * The stylesheet gets the rules of `a` with the escape of U+EA01 and
   * `#ff0000`, then those of `b` with U+EA02 and `#00ff00`.
   */
  lemma TwoIconStylesheet()
    ensures var t := Table(TwoIcons(), Config({}, true), 2);
      && Covered(ForInOrder(t.keys), t.entries)
      && Rules(ForInOrder(t.keys), t.entries) ==
        ExpectedRules([Allocated("a", 0xEA01, "ff0000"), Allocated("b", 0xEA02, "00ff00")])
  {
    var icons := TwoIcons();
    assert DistinctSlugs(icons);
    assert NoIndexSlugs(icons) by {
      assert !IsDecimalDigit(icons[0].slug[0]) && !IsDecimalDigit(icons[1].slug[0]);
    }
    StylesheetFollowsCatalogue(icons, Config({}, true));
    TwoIconAllocation();
  }
}
