/**
 * What the walk of `SvgFont` promises about the codepoints it hands out and
 * the errors it can raise: where each included icon's codepoint comes from
 * with and without preserved slots, that references never repeat, and when
 * the walk gets through the whole catalogue.
 */
module Allocation {
  import opened Wrappers
  import opened BuildErrors
  import opened Text
  import opened Codepoints
  import opened Geometry
  import opened BuildConfig
  import opened SvgFont

  /** How many codepoints the counter can hand out before it passes U+10FFFF. */
  const CAPACITY: nat := MAX_CODE_POINT - START_UNICODE + 1

  /** With an empty filter every icon is included, each at its own position. */
  lemma {:induction false} UnfilteredIndices(icons: seq<Icon>, cfg: Config, n: nat)
    requires n <= |icons| && |cfg.filter| == 0
    ensures var inc := IncludedIndices(icons, cfg, n);
      |inc| == n && forall k :: 0 <= k < n ==> inc[k] == k
  {
    if n > 0 {
      var front := IncludedIndices(icons, cfg, n - 1);
      UnfilteredIndices(icons, cfg, n - 1);
      assert IncludedIndices(icons, cfg, n) == front + [n - 1] by {
        IncludedStep(icons, cfg, n - 1);
      }
      forall k | 0 <= k < n
        ensures IncludedIndices(icons, cfg, n)[k] == k
      {
        if k < n - 1 {
          assert (front + [n - 1])[k] == front[k];
        }
      }
    }
  }

  /**
   * With an empty filter the `k`-th icon gets codepoint `0xEA01 + k`, written
   * `&#x` + its upper-case hex digits + `;`, whether slots are preserved or not.
   */
  lemma UnfilteredCodepoint(icons: seq<Icon>, cfg: Config, n: nat, k: nat)
    requires k < n <= |icons| && |cfg.filter| == 0
    ensures k < |IncludedIndices(icons, cfg, n)|
    ensures ReferenceAt(icons, cfg, n, k) == "&#x" + Upper(ToHexString(START_UNICODE + k)) + ";"
  {
    UnfilteredIndices(icons, cfg, n);
  }

  /**
   * With slots preserved, an icon the filter keeps gets the codepoint it has
   * in the unfiltered build: `0xEA01` plus its position in the catalogue.
   */
  lemma PreservedMatchesUnfiltered(icons: seq<Icon>, cfg: Config, n: nat, k: nat)
    requires n <= |icons| && cfg.preserve && k < |IncludedIndices(icons, cfg, n)|
    ensures var i, full := IncludedIndices(icons, cfg, n)[k], Config({}, true);
      && i < |IncludedIndices(icons, full, n)|
      && ReferenceAt(icons, cfg, n, k) == Reference(START_UNICODE + i)
      && ReferenceAt(icons, cfg, n, k) == ReferenceAt(icons, full, n, i)
  {
    var inc := IncludedIndices(icons, cfg, n);
    var i := inc[k];
    assert i < n;
    UnfilteredIndices(icons, Config({}, true), n);
    var full := IncludedIndices(icons, Config({}, true), n);
    assert full[i] == i;
    assert ReferenceAt(icons, Config({}, true), n, i) == Reference(Codepoint(Config({}, true), i, i));
  }

  /** Without preserved slots the kept icons get `0xEA01, 0xEA02, …` in catalogue order. */
  lemma CompactCodepoints(icons: seq<Icon>, cfg: Config, n: nat, k: nat)
    requires n <= |icons| && !cfg.preserve && k < |IncludedIndices(icons, cfg, n)|
    ensures ReferenceAt(icons, cfg, n, k) == Reference(START_UNICODE + k)
    ensures k + 1 < |IncludedIndices(icons, cfg, n)| ==>
      ReferenceAt(icons, cfg, n, k + 1) == Reference(START_UNICODE + k + 1)
  {
  }

  /** The counter only goes up: a later included icon has a larger codepoint. */
  lemma {:induction false} CodepointsIncrease(icons: seq<Icon>, cfg: Config, n: nat, k: nat, l: nat)
    requires n <= |icons| && k < l < |IncludedIndices(icons, cfg, n)|
    ensures var inc := IncludedIndices(icons, cfg, n);
      Codepoint(cfg, inc[k], k) < Codepoint(cfg, inc[l], l)
  {
    IncludedIndicesExact(icons, cfg, n);
  }

  /** Hence no two included icons share a reference. */
  lemma DistinctReferences(icons: seq<Icon>, cfg: Config, n: nat, k: nat, l: nat)
    requires n <= |icons| && k < l < |IncludedIndices(icons, cfg, n)|
    ensures ReferenceAt(icons, cfg, n, k) != ReferenceAt(icons, cfg, n, l)
  {
    var inc := IncludedIndices(icons, cfg, n);
    CodepointsIncrease(icons, cfg, n, k, l);
    ReferenceInjective(Codepoint(cfg, inc[k], k), Codepoint(cfg, inc[l], l));
  }

  /** The reference the walk would hand icon `i` is not among those handed out before it. */
  lemma FreshReference(icons: seq<Icon>, cfg: Config, i: nat)
    requires i < |icons|
    ensures Reference(Codepoint(cfg, i, |IncludedIndices(icons, cfg, i)|)) !in UsedReferences(icons, cfg, i)
  {
    var inc := IncludedIndices(icons, cfg, i);
    var cp := Codepoint(cfg, i, |inc|);
    var used := UsedReferences(icons, cfg, i);
    forall k | 0 <= k < |used|
      ensures used[k] != Reference(cp)
    {
      assert used[k] == Reference(Codepoint(cfg, inc[k], k));
      assert Codepoint(cfg, inc[k], k) < cp;
      ReferenceInjective(Codepoint(cfg, inc[k], k), cp);
    }
  }

  /** So the `Unicodes must be unique` check never throws. */
  lemma NeverDuplicate(icons: seq<Icon>, cfg: Config, style: string, i: nat)
    requires i < |icons|
    ensures var e := IconError(icons, cfg, style, i);
      !(e.Some? && e.value.DuplicateUnicode?)
  {
    FreshReference(icons, cfg, i);
  }

  /**
   * The walk gets through the whole catalogue when the style is valid, no
   * slug is empty or `length`, and the counter cannot pass U+10FFFF.
   */
  lemma NoErrorsWhen(icons: seq<Icon>, cfg: Config, style: string)
    requires style in TARGET_STYLES
    requires forall i :: 0 <= i < |icons| ==> icons[i].slug != "" && icons[i].slug != "length"
    requires |icons| <= CAPACITY
    ensures NoErrors(icons, cfg, style)
  {
    forall i | 0 <= i < |icons|
      ensures IconError(icons, cfg, style, i) == None
    {
      FreshReference(icons, cfg, i);
    }
  }

  /** An included icon with a usable slug and codepoint throws `Invalid style` for an unknown style. */
  lemma InvalidStyleError(icons: seq<Icon>, cfg: Config, style: string, i: nat)
    requires i < |icons| && icons[i].slug != "" && Included(cfg, icons[i].slug)
    requires style !in TARGET_STYLES
    requires Codepoint(cfg, i, |IncludedIndices(icons, cfg, i)|) <= MAX_CODE_POINT
    ensures IconError(icons, cfg, style, i) == Some(InvalidStyle(style))
  {
    FreshReference(icons, cfg, i);
  }

  /** An included icon with slug `length` gets through the checks and then throws at the table assignment. */
  lemma LengthSlugError(icons: seq<Icon>, cfg: Config, style: string, i: nat)
    requires i < |icons| && icons[i].slug == "length" && Included(cfg, icons[i].slug)
    requires style in TARGET_STYLES
    requires Codepoint(cfg, i, |IncludedIndices(icons, cfg, i)|) <= MAX_CODE_POINT
    ensures IconError(icons, cfg, style, i) == Some(InvalidArrayLength)
  {
    FreshReference(icons, cfg, i);
  }

  /** The included icon that would take the slot past U+10FFFF throws a RangeError instead. */
  lemma OverflowError(icons: seq<Icon>, cfg: Config, style: string, i: nat)
    requires i < |icons| && icons[i].slug != "" && Included(cfg, icons[i].slug)
    requires (if cfg.preserve then i else |IncludedIndices(icons, cfg, i)|) == CAPACITY
    ensures IconError(icons, cfg, style, i) == Some(CodePointOutOfRange(MAX_CODE_POINT + 1))
  {
  }

  /**
   * The counter leaves the Private Use Area after 3839 slots: U+EA01 to
   * U+F8FF are private, the codepoints after them are not.
   */
  lemma PrivateUseSlots(cfg: Config, i: nat, k: nat)
    ensures InPrivateUseArea(Codepoint(cfg, i, k)) <==>
      (if cfg.preserve then i else k) < 0xF8FF - START_UNICODE + 1
  {
  }
}
