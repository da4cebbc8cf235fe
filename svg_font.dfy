/**
 * The glyph table of one SVG font: the walk over the icon catalogue that
 * allocates a Private Use Area codepoint per icon, renders it as a numeric
 * character reference, rejects repeated references, transforms the icon's
 * path for the style, and records slug -> { unicode, hex }.
 */
module SvgFont {
  import opened Wrappers
  import opened BuildErrors
  import opened Text
  import opened Codepoints
  import opened Geometry
  import opened BuildConfig

  /** The first codepoint handed out. */
  const START_UNICODE: nat := 0xEA01

  /** One catalogue entry: its slug, its brand colour and its path. */
  datatype Icon = Icon(slug: string, hex: string, path: Path)

  /** `<glyph glyph-name="…" unicode="…" d="…" horiz-adv-x="…"/>`. */
  datatype Glyph = Glyph(name: string, unicode: string, d: Path, horizAdvX: real)

  /** The value stored under a slug in `unicodeHexBySlug`. */
  datatype Entry = Entry(unicode: string, hex: string)

  /**
   * `unicodeHexBySlug`: its keys in the order they were first assigned, and
   * the value last assigned to each.
   */
  datatype SlugTable = SlugTable(keys: seq<string>, entries: map<string, Entry>)

  /** What one style's build hands on: the glyph elements and the slug table. */
  datatype FontTable = FontTable(glyphs: seq<Glyph>, bySlug: SlugTable)

  // ------------------------------------------------------------ key

  /**
   * `'si' + slug.at(0).toUpperCase() + slug.slice(1)`, the export name of the
   * icon; an empty slug has no first character and the call throws.
   */
  function IconKey(slug: string): (r: Result<string, BuildError>)
    ensures r.Failure? <==> slug == ""
    ensures r.Failure? ==> r.error == EmptySlug
    ensures r.Success? ==> |r.value| == |slug| + 2 && r.value[..2] == "si"
  {
    if slug == "" then Failure(EmptySlug)
    else Success("si" + [UpperChar(slug[0])] + slug[1..])
  }

  /** Slugs that do not start with an upper-case letter get distinct keys. */
  lemma IconKeyInjective(a: string, b: string)
    requires a != "" && b != ""
    requires !IsAsciiUpper(a[0]) && !IsAsciiUpper(b[0])
    ensures IconKey(a) == IconKey(b) ==> a == b
  {
    if IconKey(a) == IconKey(b) {
      var ka, kb := IconKey(a).value, IconKey(b).value;
      assert UpperChar(a[0]) == ka[2] == kb[2] == UpperChar(b[0]);
      assert a[0] == b[0];
      assert a[1..] == ka[3..] == kb[3..] == b[1..];
      assert a == [a[0]] + a[1..] && b == [b[0]] + b[1..];
    }
  }

  // ------------------------------------------------------------ allocation

  /** `!(siFontSlugs.size && !siFontSlugs.has(slug))`: an empty filter includes all. */
  predicate Included(cfg: Config, slug: string) {
    |cfg.filter| == 0 || slug in cfg.filter
  }

  /** The positions, among the first `n` icons, of the icons the filter includes, in order. */
  function IncludedIndices(icons: seq<Icon>, cfg: Config, n: nat): (r: seq<nat>)
    requires n <= |icons|
    ensures |r| <= n
    ensures forall k :: 0 <= k < |r| ==> r[k] < n
  {
    if n == 0 then []
    else
      var front := IncludedIndices(icons, cfg, n - 1);
      if Included(cfg, icons[n - 1].slug) then front + [n - 1] else front
  }

  /**
   * The positions are exactly the included ones, in increasing order: each
   * listed icon is included, and each included icon is listed.
   */
  lemma {:induction false} IncludedIndicesExact(icons: seq<Icon>, cfg: Config, n: nat)
    requires n <= |icons|
    ensures var r := IncludedIndices(icons, cfg, n);
      && (forall k :: 0 <= k < |r| ==> Included(cfg, icons[r[k]].slug))
      && (forall k, l :: 0 <= k < l < |r| ==> r[k] < r[l])
      && (forall i :: 0 <= i < n && Included(cfg, icons[i].slug) ==> i in r)
  {
    if n > 0 {
      var front := IncludedIndices(icons, cfg, n - 1);
      IncludedIndicesExact(icons, cfg, n - 1);
      var r := IncludedIndices(icons, cfg, n);
      if Included(cfg, icons[n - 1].slug) {
        assert r == front + [n - 1];
        forall k | 0 <= k < |r|
          ensures Included(cfg, icons[r[k]].slug)
        {
          if k < |front| {
            assert r[k] == front[k];
          } else {
            assert r[k] == n - 1;
          }
        }
      } else {
        assert r == front;
      }
    }
  }

  /**
   * The codepoint of the `k`-th included icon, found at position `i`: every
   * icon consumes a slot when slots are preserved, only included ones otherwise.
   */
  function Codepoint(cfg: Config, i: nat, k: nat): nat {
    START_UNICODE + (if cfg.preserve then i else k)
  }

  /** The reference allocated to the `k`-th included icon. */
  function ReferenceAt(icons: seq<Icon>, cfg: Config, n: nat, k: nat): string
    requires n <= |icons| && k < |IncludedIndices(icons, cfg, n)|
  {
    Reference(Codepoint(cfg, IncludedIndices(icons, cfg, n)[k], k))
  }

  /** `usedUnicodes` after the first `n` icons. */
  function UsedReferences(icons: seq<Icon>, cfg: Config, n: nat): seq<string>
    requires n <= |icons|
  {
    var inc := IncludedIndices(icons, cfg, n);
    seq(|inc|, k requires 0 <= k < |inc| => ReferenceAt(icons, cfg, n, k))
  }

  // ------------------------------------------------------------ expected output

  /** The style can be applied to every included icon: it is valid, or nothing is included. */
  predicate StyleApplies(icons: seq<Icon>, cfg: Config, style: string, n: nat)
    requires n <= |icons|
  {
    style in TARGET_STYLES || |IncludedIndices(icons, cfg, n)| == 0
  }

  /**
   * Every path the Regular style would transform is one it can normalise:
   * the paths of the icons the filter includes, when that style is built.
   */
  predicate RegularReady(icons: seq<Icon>, cfg: Config, style: string) {
    style == "Regular" ==>
      forall i :: 0 <= i < |icons| && Included(cfg, icons[i].slug) ==> Drawable(icons[i].path)
  }

  /** The glyph element of an included icon. */
  function GlyphFor(icon: Icon, unicode: string, style: string): Glyph
    requires style in TARGET_STYLES
    requires style == "Regular" ==> Drawable(icon.path)
  {
    var shape := Transform(icon.path, style).value;
    Glyph(icon.slug, unicode, shape.path, shape.horizAdvX)
  }

  /** The glyph elements after the first `n` icons: one per included icon, in order. */
  function Glyphs(icons: seq<Icon>, cfg: Config, style: string, n: nat): seq<Glyph>
    requires n <= |icons| && StyleApplies(icons, cfg, style, n) && RegularReady(icons, cfg, style)
  {
    var inc := IncludedIndices(icons, cfg, n);
    IncludedIndicesExact(icons, cfg, n);
    seq(|inc|, k requires 0 <= k < |inc| =>
      GlyphFor(icons[inc[k]], ReferenceAt(icons, cfg, n, k), style))
  }

  /** `unicodeHexBySlug[slug] = entry`: a new slug is added last, a known one keeps its place. */
  function Put(t: SlugTable, slug: string, e: Entry): SlugTable {
    if slug in t.entries then SlugTable(t.keys, t.entries[slug := e])
    else SlugTable(t.keys + [slug], t.entries[slug := e])
  }

  /**
   * Property assignment read back: the slug now holds `e`, every other slug
   * is present with the value it had, the keys already listed keep their
   * places, and a slug not yet present is listed last.
   */
  lemma PutSemantics(t: SlugTable, slug: string, e: Entry)
    ensures var r := Put(t, slug, e);
      && slug in r.entries && r.entries[slug] == e
      && (forall s :: s != slug ==> (s in r.entries <==> s in t.entries))
      && (forall s :: s != slug && s in t.entries ==> r.entries[s] == t.entries[s])
      && |t.keys| <= |r.keys| && r.keys[..|t.keys|] == t.keys
      && (|r.keys| == |t.keys| + 1 <==> slug !in t.entries)
      && (slug !in t.entries ==> r.keys[|t.keys|] == slug)
  {
  }

  predicate DistinctKeys(keys: seq<string>) {
    forall k, l :: 0 <= k < l < |keys| ==> keys[k] != keys[l]
  }

  /** The table after assigning `items` one after the other. */
  function TableOf(items: seq<(string, Entry)>): SlugTable {
    if |items| == 0 then SlugTable([], map[])
    else
      var t := TableOf(items[..|items| - 1]);
      Put(t, items[|items| - 1].0, items[|items| - 1].1)
  }

  /**
   * Every slug is listed once, the listed slugs are exactly those with an
   * entry, every assigned slug has one, and there are no more keys than
   * assignments.
   */
  lemma {:induction false} TableOfKeys(items: seq<(string, Entry)>)
    ensures var t := TableOf(items);
      && DistinctKeys(t.keys)
      && (forall s :: s in t.entries <==> s in t.keys)
      && (forall k :: 0 <= k < |items| ==> items[k].0 in t.entries)
      && |t.keys| <= |items|
  {
    if |items| > 0 {
      var init := items[..|items| - 1];
      TableOfKeys(init);
      assert forall k :: 0 <= k < |items| - 1 ==> items[k] == init[k];
    }
  }

  lemma TableOfAppend(items: seq<(string, Entry)>, item: (string, Entry))
    ensures TableOf(items + [item]) == Put(TableOf(items), item.0, item.1)
  {
    assert (items + [item])[..|items|] == items;
  }

  /** The entry each included icon writes into `unicodeHexBySlug`, in order. */
  function TableItems(icons: seq<Icon>, cfg: Config, n: nat): seq<(string, Entry)>
    requires n <= |icons|
  {
    var inc := IncludedIndices(icons, cfg, n);
    seq(|inc|, k requires 0 <= k < |inc| =>
      (icons[inc[k]].slug, Entry(ReferenceAt(icons, cfg, n, k), icons[inc[k]].hex)))
  }

  /** `unicodeHexBySlug` after the first `n` icons. */
  function Table(icons: seq<Icon>, cfg: Config, n: nat): SlugTable
    requires n <= |icons|
  {
    TableOf(TableItems(icons, cfg, n))
  }

  // ------------------------------------------------------------ errors

  /**
   * The error the `i`-th icon throws when the walk reaches it: an empty slug,
   * a codepoint past U+10FFFF, a reference already used, or an invalid style.
   */
  function IconError(icons: seq<Icon>, cfg: Config, style: string, i: nat): (r: Option<BuildError>)
    requires i < |icons|
    ensures r == Some(EmptySlug) <==> icons[i].slug == ""
    ensures icons[i].slug != "" && !Included(cfg, icons[i].slug) ==> r == None
    ensures r.Some? && r.value.InvalidStyle? ==> r.value.style == style && style !in TARGET_STYLES
    ensures r == Some(InvalidArrayLength) ==> icons[i].slug == "length"
  {
    var icon := icons[i];
    if IconKey(icon.slug).Failure? then Some(EmptySlug)
    else if !Included(cfg, icon.slug) then None
    else
      var cp := Codepoint(cfg, i, |IncludedIndices(icons, cfg, i)|);
      if cp > MAX_CODE_POINT then Some(CodePointOutOfRange(cp))
      else if Reference(cp) in UsedReferences(icons, cfg, i) then Some(DuplicateUnicode(Reference(cp)))
      else if style !in TARGET_STYLES then Some(InvalidStyle(style))
      else if icon.slug == "length" then Some(InvalidArrayLength)
      else None
  }

  /** None of the first `n` icons throws. */
  predicate ClearBefore(icons: seq<Icon>, cfg: Config, style: string, n: nat)
    requires n <= |icons|
  {
    forall i :: 0 <= i < n ==> IconError(icons, cfg, style, i) == None
  }

  /** Icon `i` is the first to throw, and it throws `e`. */
  predicate FirstError(icons: seq<Icon>, cfg: Config, style: string, i: nat, e: BuildError)
    requires i < |icons|
  {
    ClearBefore(icons, cfg, style, i) && IconError(icons, cfg, style, i) == Some(e)
  }

  /** No icon of the catalogue throws. */
  predicate NoErrors(icons: seq<Icon>, cfg: Config, style: string) {
    ClearBefore(icons, cfg, style, |icons|)
  }

  // ------------------------------------------------------------ the loop

  lemma IncludedStep(icons: seq<Icon>, cfg: Config, i: nat)
    requires i < |icons|
    ensures IncludedIndices(icons, cfg, i + 1) ==
      IncludedIndices(icons, cfg, i) + (if Included(cfg, icons[i].slug) then [i] else [])
  {
  }

  lemma ReferenceAtStep(icons: seq<Icon>, cfg: Config, i: nat, k: nat)
    requires i < |icons| && k < |IncludedIndices(icons, cfg, i)|
    ensures k < |IncludedIndices(icons, cfg, i + 1)|
    ensures IncludedIndices(icons, cfg, i + 1)[k] == IncludedIndices(icons, cfg, i)[k]
    ensures ReferenceAt(icons, cfg, i + 1, k) == ReferenceAt(icons, cfg, i, k)
  {
    IncludedStep(icons, cfg, i);
  }

  /** One step of the walk appends the icon's reference to `usedUnicodes`, or nothing. */
  lemma UsedStep(icons: seq<Icon>, cfg: Config, i: nat)
    requires i < |icons|
    ensures UsedReferences(icons, cfg, i + 1) ==
      UsedReferences(icons, cfg, i) +
        if Included(cfg, icons[i].slug)
        then [Reference(Codepoint(cfg, i, |IncludedIndices(icons, cfg, i)|))] else []
  {
    IncludedStep(icons, cfg, i);
    var before, after := UsedReferences(icons, cfg, i), UsedReferences(icons, cfg, i + 1);
    forall k | 0 <= k < |before| ensures after[k] == before[k] {
      ReferenceAtStep(icons, cfg, i, k);
    }
  }

  /** An included icon appends its glyph. */
  lemma GlyphsStepIncluded(icons: seq<Icon>, cfg: Config, style: string, i: nat)
    requires i < |icons| && RegularReady(icons, cfg, style)
    requires Included(cfg, icons[i].slug) && style in TARGET_STYLES
    ensures Glyphs(icons, cfg, style, i + 1) ==
      Glyphs(icons, cfg, style, i) +
        [GlyphFor(icons[i], Reference(Codepoint(cfg, i, |IncludedIndices(icons, cfg, i)|)), style)]
  {
    IncludedStep(icons, cfg, i);
    var before, after := Glyphs(icons, cfg, style, i), Glyphs(icons, cfg, style, i + 1);
    assert forall k :: 0 <= k < |before| ==> after[k] == before[k] by {
      forall k | 0 <= k < |before| ensures after[k] == before[k] {
        ReferenceAtStep(icons, cfg, i, k);
      }
    }
    PrefixPlusLast(before, after);
  }

  /** An excluded icon leaves the glyphs as they are. */
  lemma GlyphsStepExcluded(icons: seq<Icon>, cfg: Config, style: string, i: nat)
    requires i < |icons| && RegularReady(icons, cfg, style)
    requires !Included(cfg, icons[i].slug) && StyleApplies(icons, cfg, style, i)
    ensures StyleApplies(icons, cfg, style, i + 1)
    ensures Glyphs(icons, cfg, style, i + 1) == Glyphs(icons, cfg, style, i)
  {
    IncludedStep(icons, cfg, i);
    var before, after := Glyphs(icons, cfg, style, i), Glyphs(icons, cfg, style, i + 1);
    assert forall k :: 0 <= k < |before| ==> after[k] == before[k] by {
      forall k | 0 <= k < |before| ensures after[k] == before[k] {
        ReferenceAtStep(icons, cfg, i, k);
      }
    }
    PrefixPlusLast(before, after);
  }

  /** One step of the walk assigns the icon's entry in `unicodeHexBySlug`, or nothing. */
  lemma ItemsStep(icons: seq<Icon>, cfg: Config, i: nat)
    requires i < |icons|
    ensures TableItems(icons, cfg, i + 1) ==
      TableItems(icons, cfg, i) +
        if Included(cfg, icons[i].slug)
        then [(icons[i].slug, Entry(Reference(Codepoint(cfg, i, |IncludedIndices(icons, cfg, i)|)), icons[i].hex))]
        else []
  {
    IncludedStep(icons, cfg, i);
    var before, after := TableItems(icons, cfg, i), TableItems(icons, cfg, i + 1);
    assert forall k :: 0 <= k < |before| ==> after[k] == before[k] by {
      forall k | 0 <= k < |before| ensures after[k] == before[k] {
        ReferenceAtStep(icons, cfg, i, k);
      }
    }
    PrefixPlusLast(before, after);
  }

  /** A sequence that agrees with `before` on its positions is `before` or `before` plus one. */
  lemma PrefixPlusLast<T>(before: seq<T>, after: seq<T>)
    requires |before| <= |after| <= |before| + 1
    requires forall k :: 0 <= k < |before| ==> after[k] == before[k]
    ensures |after| == |before| ==> after == before
    ensures |after| == |before| + 1 ==> after == before + [after[|before|]]
  {
  }

  /** The four accumulators of the walk: the counter, `usedUnicodes`, the glyphs, `unicodeHexBySlug`. */
  datatype Walk = Walk(startUnicode: nat, usedUnicodes: seq<string>, glyphs: seq<Glyph>, bySlug: SlugTable)

  /** The accumulators after the first `n` icons, when none of them threw. */
  function WalkAfter(icons: seq<Icon>, cfg: Config, style: string, n: nat): Walk
    requires n <= |icons| && StyleApplies(icons, cfg, style, n) && RegularReady(icons, cfg, style)
  {
    Walk(Codepoint(cfg, n, |IncludedIndices(icons, cfg, n)|), UsedReferences(icons, cfg, n),
         Glyphs(icons, cfg, style, n), Table(icons, cfg, n))
  }

  /** Before the first icon the counter is at U+EA01 and the accumulators are empty. */
  lemma WalkStart(icons: seq<Icon>, cfg: Config, style: string)
    requires RegularReady(icons, cfg, style)
    ensures StyleApplies(icons, cfg, style, 0)
    ensures WalkAfter(icons, cfg, style, 0) == Walk(START_UNICODE, [], [], SlugTable([], map[]))
  {
    assert TableItems(icons, cfg, 0) == [];
  }

  /** An excluded icon only moves the counter, and only when slots are preserved. */
  lemma WalkExcluded(icons: seq<Icon>, cfg: Config, style: string, i: nat)
    requires i < |icons| && RegularReady(icons, cfg, style)
    requires !Included(cfg, icons[i].slug) && StyleApplies(icons, cfg, style, i)
    ensures StyleApplies(icons, cfg, style, i + 1)
    ensures var w := WalkAfter(icons, cfg, style, i);
      WalkAfter(icons, cfg, style, i + 1) ==
        w.(startUnicode := if cfg.preserve then w.startUnicode + 1 else w.startUnicode)
  {
    IncludedStep(icons, cfg, i);
    UsedStep(icons, cfg, i);
    GlyphsStepExcluded(icons, cfg, style, i);
    ItemsStep(icons, cfg, i);
    assert TableItems(icons, cfg, i) + [] == TableItems(icons, cfg, i);
    assert TableItems(icons, cfg, i + 1) == TableItems(icons, cfg, i);
    assert Table(icons, cfg, i + 1) == Table(icons, cfg, i);
  }

  /** An included icon takes the next codepoint and adds its reference, glyph and entry. */
  lemma WalkIncluded(icons: seq<Icon>, cfg: Config, style: string, i: nat)
    requires i < |icons| && RegularReady(icons, cfg, style)
    requires Included(cfg, icons[i].slug) && style in TARGET_STYLES
    ensures StyleApplies(icons, cfg, style, i + 1)
    ensures var w := WalkAfter(icons, cfg, style, i);
      var u := Reference(w.startUnicode);
      WalkAfter(icons, cfg, style, i + 1) ==
        Walk(w.startUnicode + 1, w.usedUnicodes + [u],
             w.glyphs + [GlyphFor(icons[i], u, style)],
             Put(w.bySlug, icons[i].slug, Entry(u, icons[i].hex)))
  {
    IncludedStep(icons, cfg, i);
    UsedStep(icons, cfg, i);
    GlyphsStepIncluded(icons, cfg, style, i);
    ItemsStep(icons, cfg, i);
    TableOfAppend(TableItems(icons, cfg, i),
      (icons[i].slug, Entry(Reference(Codepoint(cfg, i, |IncludedIndices(icons, cfg, i)|)), icons[i].hex)));
  }

  /** Passing an excluded icon keeps the walk in step; only the counter may move. */
  lemma AdvanceExcluded(icons: seq<Icon>, cfg: Config, style: string, i: nat, w: Walk)
    requires i < |icons| && RegularReady(icons, cfg, style) && Reached(icons, cfg, style, i, w)
    requires icons[i].slug != "" && !Included(cfg, icons[i].slug)
    ensures Reached(icons, cfg, style, i + 1,
      w.(startUnicode := if cfg.preserve then w.startUnicode + 1 else w.startUnicode))
  {
    WalkExcluded(icons, cfg, style, i);
    assert IconError(icons, cfg, style, i) == None;
    assert ClearBefore(icons, cfg, style, i + 1);
  }

  /** Passing an included icon that throws nothing appends its reference, glyph and entry. */
  lemma AdvanceIncluded(icons: seq<Icon>, cfg: Config, style: string, i: nat, w: Walk)
    requires i < |icons| && RegularReady(icons, cfg, style) && Reached(icons, cfg, style, i, w)
    requires Included(cfg, icons[i].slug) && style in TARGET_STYLES
    requires IconError(icons, cfg, style, i) == None
    ensures var u := Reference(w.startUnicode);
      Reached(icons, cfg, style, i + 1,
        Walk(w.startUnicode + 1, w.usedUnicodes + [u], w.glyphs + [GlyphFor(icons[i], u, style)],
             Put(w.bySlug, icons[i].slug, Entry(u, icons[i].hex))))
  {
    WalkIncluded(icons, cfg, style, i);
    assert ClearBefore(icons, cfg, style, i + 1);
  }

  /** The walk has passed the first `n` icons without a throw and holds their accumulators `w`. */
  predicate Reached(icons: seq<Icon>, cfg: Config, style: string, n: nat, w: Walk)
    requires n <= |icons| && RegularReady(icons, cfg, style)
  {
    && StyleApplies(icons, cfg, style, n)
    && ClearBefore(icons, cfg, style, n)
    && w == WalkAfter(icons, cfg, style, n)
  }

  /**
   * The body of the loop for icon `i`, given the accumulators `w` that the
   * icons before it left: it either throws the icon's error, which is then
   * the first error of the catalogue, or returns the accumulators after
   * icon `i`.
   */
  method VisitIcon(icons: seq<Icon>, cfg: Config, style: string, i: nat, w: Walk)
    returns (r: Result<Walk, BuildError>)
    requires i < |icons| && RegularReady(icons, cfg, style) && Reached(icons, cfg, style, i, w)
    ensures r.Failure? ==> FirstError(icons, cfg, style, i, r.error)
    ensures r.Success? ==> Reached(icons, cfg, style, i + 1, r.value)
  {
    var icon := icons[i];
    var key := IconKey(icon.slug);
    if key.Failure? {
      assert IconError(icons, cfg, style, i) == Some(key.error);
      return Failure(key.error);
    }

    if |cfg.filter| > 0 && icon.slug !in cfg.filter {
      AdvanceExcluded(icons, cfg, style, i, w);
      if cfg.preserve {
        return Success(w.(startUnicode := w.startUnicode + 1));
      }
      return Success(w);
    }

    var unicodeString := UnicodeString(w.startUnicode);
    UnicodeStringIsReference(w.startUnicode);
    if unicodeString.Failure? {
      assert IconError(icons, cfg, style, i) == Some(unicodeString.error);
      return Failure(unicodeString.error);
    }
    if unicodeString.value in w.usedUnicodes {
      assert IconError(icons, cfg, style, i) == Some(DuplicateUnicode(unicodeString.value));
      return Failure(DuplicateUnicode(unicodeString.value));
    }

    var shape := Transform(icon.path, style);
    if shape.Failure? {
      assert IconError(icons, cfg, style, i) == Some(shape.error);
      return Failure(shape.error);
    }
    if icon.slug == "length" {
      assert IconError(icons, cfg, style, i) == Some(InvalidArrayLength);
      return Failure(InvalidArrayLength);
    }

    assert IconError(icons, cfg, style, i) == None;
    AdvanceIncluded(icons, cfg, style, i, w);
    var glyph := Glyph(icon.slug, unicodeString.value, shape.value.path, shape.value.horizAdvX);
    assert glyph == GlyphFor(icon, unicodeString.value, style);
    return Success(Walk(w.startUnicode + 1, w.usedUnicodes + [unicodeString.value], w.glyphs + [glyph],
                        Put(w.bySlug, icon.slug, Entry(unicodeString.value, icon.hex))));
  }

  /**
   * `buildSimpleIconsSvgFontFile` without its template and file I/O: walks
   * the catalogue once with the counter starting at U+EA01. It succeeds
   * exactly when no icon throws, and then returns one glyph per included
   * icon, in catalogue order, with the reference of its allocated codepoint,
   * and the matching slug table; otherwise it returns the error of the first
   * icon that throws.
   */
  method BuildGlyphTable(icons: seq<Icon>, cfg: Config, style: string)
    returns (r: Result<FontTable, BuildError>)
    requires RegularReady(icons, cfg, style)
    ensures r.Success? <==> NoErrors(icons, cfg, style)
    ensures r.Success? ==>
      && StyleApplies(icons, cfg, style, |icons|)
      && r.value.glyphs == Glyphs(icons, cfg, style, |icons|)
      && r.value.bySlug == Table(icons, cfg, |icons|)
    ensures r.Failure? ==>
      exists i :: 0 <= i < |icons| && FirstError(icons, cfg, style, i, r.error)
  {
    var walk := Walk(START_UNICODE, [], [], SlugTable([], map[]));
    WalkStart(icons, cfg, style);
    for i := 0 to |icons|
      invariant Reached(icons, cfg, style, i, walk)
    {
      var next := VisitIcon(icons, cfg, style, i, walk);
      if next.Failure? {
        assert !NoErrors(icons, cfg, style);
        return Failure(next.error);
      }
      walk := next.value;
    }
    return Success(FontTable(walk.glyphs, walk.bySlug));
  }
}
