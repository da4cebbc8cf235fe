/**
 * The stylesheet: `cssDecodeUnicode`, the order in which `for…in` visits the
 * slugs of `unicodeHexBySlug` (a JavaScript array used as a dictionary), and
 * the two rules appended per slug.
 */
module Stylesheet {
  import opened Text
  import opened Codepoints
  import opened SvgFont

  // ---------------------------------------------------------------- escape

  /**
   * `cssDecodeUnicode`: the first `&#x` becomes a backslash, the first `;`
   * is dropped, and the result is lower-cased.
   */
  function CssDecodeUnicode(value: string): (r: string)
    ensures forall k :: 0 <= k < |r| ==> !IsAsciiUpper(r[k])
    ensures |r| <= |value|
  {
    Lower(ReplaceFirst(ReplaceFirst(value, "&#x", "\\"), ";", ""))
  }

  /** `&#xEA01;` becomes `\ea01`: a reference turns into the CSS escape of the same codepoint. */
  lemma CssEscapeOfReference(cp: nat)
    ensures CssDecodeUnicode(Reference(cp)) == "\\" + ToHexString(cp)
  {
    var h := ToHexString(cp);
    var u := Upper(h);
    var r := Reference(cp);
    assert r == "&#x" + u + ";";
    assert OccursAt(r, "&#x", 0) by {
      assert r[0..3] == "&#x";
    }
    IndexOfIsFirst(r, "&#x", 0);
    var s1 := ReplaceFirst(r, "&#x", "\\");
    assert s1 == "\\" + u + ";" by {
      assert r[3..] == u + ";";
    }
    forall j | 0 <= j < |u| ensures u[j] != ';' {
      assert u[j] == UpperChar(h[j]) && IsLowerHexDigit(h[j]);
    }
    DropSemicolon(u);
    assert Lower("\\" + u) == Lower("\\") + Lower(u);
    assert Lower("\\") == "\\";
    LowerUpperHex(cp);
  }

  /** Removing the first `;` of `\` + `u` + `;` drops the final one when `u` has none. */
  lemma DropSemicolon(u: string)
    requires ';' !in u
    ensures ReplaceFirst("\\" + u + ";", ";", "") == "\\" + u
  {
    var s1 := "\\" + u + ";";
    assert OccursAt(s1, ";", |u| + 1) by {
      assert s1[|u| + 1..|u| + 2] == ";";
    }
    forall j | 0 <= j < |u| + 1
      ensures !OccursAt(s1, ";", j)
    {
      assert s1[j..j + 1] == [s1[j]];
    }
    IndexOfIsFirst(s1, ";", |u| + 1);
    assert s1[..|u| + 1] == "\\" + u;
    assert s1[|u| + 2..] == [];
  }

  // ---------------------------------------------------------------- for…in

  /**
   * A canonical array index: the decimal numeral, without leading zeros, of
   * an integer below 2^32 - 1. An array holds such keys as elements.
   */
  predicate IsArrayIndex(key: string) {
    && |key| >= 1
    && (forall k :: 0 <= k < |key| ==> IsDecimalDigit(key[k]))
    && (key[0] != '0' || |key| == 1)
    && DecimalValue(key) < 0xFFFF_FFFF
  }

  /** The array-index keys, in insertion order. */
  function IndexKeys(keys: seq<string>): seq<string> {
    if |keys| == 0 then []
    else (if IsArrayIndex(keys[0]) then [keys[0]] else []) + IndexKeys(keys[1..])
  }

  /** The other keys, in insertion order. */
  function OtherKeys(keys: seq<string>): seq<string> {
    if |keys| == 0 then []
    else (if IsArrayIndex(keys[0]) then [] else [keys[0]]) + OtherKeys(keys[1..])
  }

  /** The first group holds only array indices, the second none. */
  lemma {:induction false} KeyGroups(keys: seq<string>)
    ensures forall k :: 0 <= k < |IndexKeys(keys)| ==> IsArrayIndex(IndexKeys(keys)[k])
    ensures forall k :: 0 <= k < |OtherKeys(keys)| ==> !IsArrayIndex(OtherKeys(keys)[k])
  {
    if |keys| > 0 {
      KeyGroups(keys[1..]);
    }
  }

  predicate AscendingIndices(keys: seq<string>) {
    forall k, l :: 0 <= k < l < |keys| ==> DecimalValue(keys[k]) <= DecimalValue(keys[l])
  }

  /** Inserts an index key before the first key with a larger or equal value. */
  function InsertIndex(key: string, sorted: seq<string>): (r: seq<string>)
    ensures multiset(r) == multiset(sorted) + multiset{key}
  {
    if |sorted| == 0 then [key]
    else if DecimalValue(key) <= DecimalValue(sorted[0]) then [key] + sorted
    else
      assert sorted == [sorted[0]] + sorted[1..];
      [sorted[0]] + InsertIndex(key, sorted[1..])
  }

  /** A value below the key and below every key of the list is below every key of the result. */
  lemma {:induction false} InsertIndexBound(key: string, sorted: seq<string>, bound: nat)
    requires bound <= DecimalValue(key)
    requires forall k :: 0 <= k < |sorted| ==> bound <= DecimalValue(sorted[k])
    ensures forall k :: 0 <= k < |InsertIndex(key, sorted)| ==> bound <= DecimalValue(InsertIndex(key, sorted)[k])
  {
    if |sorted| > 0 && DecimalValue(key) > DecimalValue(sorted[0]) {
      InsertIndexBound(key, sorted[1..], bound);
    }
  }

  /** Insertion keeps the list in ascending order. */
  lemma {:induction false} InsertIndexAscending(key: string, sorted: seq<string>)
    requires AscendingIndices(sorted)
    ensures AscendingIndices(InsertIndex(key, sorted))
  {
    if |sorted| > 0 && DecimalValue(key) > DecimalValue(sorted[0]) {
      InsertIndexAscending(key, sorted[1..]);
      InsertIndexBound(key, sorted[1..], DecimalValue(sorted[0]));
    }
  }

  /** The index keys in ascending numeric order. */
  function SortIndices(keys: seq<string>): (r: seq<string>)
    ensures multiset(r) == multiset(keys)
  {
    if |keys| == 0 then []
    else
      assert keys == [keys[0]] + keys[1..];
      InsertIndex(keys[0], SortIndices(keys[1..]))
  }

  lemma {:induction false} SortIndicesAscending(keys: seq<string>)
    ensures AscendingIndices(SortIndices(keys))
  {
    if |keys| > 0 {
      SortIndicesAscending(keys[1..]);
      InsertIndexAscending(keys[0], SortIndices(keys[1..]));
    }
  }

  /**
   * The order of `for (slug in unicodeHexBySlug)`: array indices first, in
   * ascending numeric order, then the other keys in the order they were added.
   */
  function ForInOrder(keys: seq<string>): (r: seq<string>)
    ensures multiset(r) == multiset(keys)
  {
    SplitKeys(keys);
    SortIndices(IndexKeys(keys)) + OtherKeys(keys)
  }

  lemma {:induction false} SplitKeys(keys: seq<string>)
    ensures multiset(IndexKeys(keys)) + multiset(OtherKeys(keys)) == multiset(keys)
  {
    if |keys| > 0 {
      var head, tail := keys[0], keys[1..];
      SplitKeys(tail);
      assert keys == [head] + tail;
      if IsArrayIndex(head) {
        assert IndexKeys(keys) == [head] + IndexKeys(tail);
        assert OtherKeys(keys) == OtherKeys(tail);
      } else {
        assert IndexKeys(keys) == IndexKeys(tail);
        assert OtherKeys(keys) == [head] + OtherKeys(tail);
      }
    }
  }

  /** Index keys come first, in ascending numeric order; the other keys follow. */
  lemma ForInIndicesFirst(keys: seq<string>)
    ensures var order, n := ForInOrder(keys), |IndexKeys(keys)|;
      && (forall k :: 0 <= k < n ==> IsArrayIndex(order[k]))
      && (forall k :: n <= k < |order| ==> !IsArrayIndex(order[k]))
      && AscendingIndices(order[..n])
  {
    var sorted := SortIndices(IndexKeys(keys));
    KeyGroups(keys);
    SortIndicesAscending(IndexKeys(keys));
    assert |sorted| == |IndexKeys(keys)| by {
      assert |multiset(sorted)| == |multiset(IndexKeys(keys))|;
    }
    forall k | 0 <= k < |sorted|
      ensures IsArrayIndex(sorted[k])
    {
      assert sorted[k] in multiset(IndexKeys(keys));
    }
    assert ForInOrder(keys)[..|sorted|] == sorted;
  }

  /** Without index keys, `for…in` follows insertion order. */
  lemma {:induction false} ForInInsertionOrder(keys: seq<string>)
    requires forall k :: 0 <= k < |keys| ==> !IsArrayIndex(keys[k])
    ensures ForInOrder(keys) == keys
  {
    NoIndexKeys(keys);
  }

  lemma {:induction false} NoIndexKeys(keys: seq<string>)
    requires forall k :: 0 <= k < |keys| ==> !IsArrayIndex(keys[k])
    ensures IndexKeys(keys) == [] && OtherKeys(keys) == keys
  {
    if |keys| > 0 {
      NoIndexKeys(keys[1..]);
    }
  }

  /** `42` is a canonical array index. */
  lemma FortyTwoIsIndex()
    ensures IsArrayIndex("42")
  {
    assert DecimalValue("42") == 42 by {
      assert "42"[..1] == "4";
    }
  }

  /** `github` is not. */
  lemma GithubIsNotIndex()
    ensures !IsArrayIndex("github")
  {
    assert !IsDecimalDigit("github"[0]);
  }

  /** The slug `42` is an array index, so it is visited before a slug added earlier. */
  lemma IndexSlugVisitedFirst()
    ensures ForInOrder(["github", "42"]) == ["42", "github"]
  {
    var keys: seq<string> := ["github", "42"];
    FortyTwoIsIndex();
    GithubIsNotIndex();
    assert keys[1..] == ["42"] && keys[1..][1..] == [];
    assert IndexKeys(keys) == ["42"];
    assert OtherKeys(keys) == ["github"];
    assert SortIndices(["42"]) == InsertIndex("42", []) == ["42"];
  }

  // ---------------------------------------------------------------- rules

  /** `s` is exactly one line: it starts with a line break and holds no other. */
  predicate OneLine(s: string) {
    |s| >= 1 && s[0] == '\n' && '\n' !in s[1..]
  }

  /** `.si-<slug>::before { content: "<escape>"; }` on a line of its own. */
  function ContentRule(slug: string, escape: string): (r: string)
    ensures '\n' !in slug && '\n' !in escape ==> OneLine(r)
  {
    "\n.si-" + slug + "::before { content: \"" + escape + "\"; }"
  }

  /** `.si-<slug>.si--color::before { color: #<hex>; }` on a line of its own. */
  function ColorRule(slug: string, hex: string): (r: string)
    ensures '\n' !in slug && '\n' !in hex ==> OneLine(r)
  {
    "\n.si-" + slug + ".si--color::before { color: #" + hex + "; }"
  }

  /** The text appended for one slug of the table: two lines, the content rule and then the colour rule. */
  function RuleBlock(slug: string, e: Entry): (r: string)
    ensures '\n' !in slug && '\n' !in CssDecodeUnicode(e.unicode) && '\n' !in e.hex ==>
      exists m :: 0 < m < |r| && OneLine(r[..m]) && OneLine(r[m..])
  {
    var content, color := ContentRule(slug, CssDecodeUnicode(e.unicode)), ColorRule(slug, e.hex);
    assert (content + color)[..|content|] == content && (content + color)[|content|..] == color;
    content + color
  }

  /** Regrouping an append, stated once so that the loop proofs stay small. */
  lemma AppendAssociative(a: string, b: string, c: string)
    ensures (a + b) + c == a + (b + c)
  {
  }

  /** Every key `for…in` visits has an entry. */
  predicate Covered(order: seq<string>, entries: map<string, Entry>) {
    forall k :: 0 <= k < |order| ==> order[k] in entries
  }

  /** The blocks of `order`, one after the other. */
  function Rules(order: seq<string>, entries: map<string, Entry>): string
    requires Covered(order, entries)
  {
    if |order| == 0 then ""
    else
      var last := order[|order| - 1];
      Rules(order[..|order| - 1], entries) + RuleBlock(last, entries[last])
  }

  lemma RulesStep(order: seq<string>, entries: map<string, Entry>, i: nat)
    requires i < |order| && Covered(order, entries)
    ensures Covered(order[..i], entries) && Covered(order[..i + 1], entries)
    ensures Rules(order[..i + 1], entries) == Rules(order[..i], entries) + RuleBlock(order[i], entries[order[i]])
  {
    assert order[..i + 1][..i] == order[..i];
  }

  /** The keys of a table all have entries, in any order `for…in` visits them. */
  lemma ForInCovered(table: SlugTable)
    requires forall s :: s in table.keys ==> s in table.entries
    ensures Covered(ForInOrder(table.keys), table.entries)
  {
    var order := ForInOrder(table.keys);
    forall k | 0 <= k < |order|
      ensures order[k] in table.entries
    {
      assert order[k] in multiset(table.keys);
    }
  }

  /**
   * `buildSimpleIconsCssFile` without its file I/O and minification: the
   * base stylesheet followed by the two rules of every slug, in `for…in`
   * order.
   */
  method BuildCss(base: string, table: SlugTable) returns (css: string)
    requires forall s :: s in table.keys ==> s in table.entries
    ensures Covered(ForInOrder(table.keys), table.entries)
    ensures css == base + Rules(ForInOrder(table.keys), table.entries)
  {
    var order := ForInOrder(table.keys);
    ForInCovered(table);
    css := base;
    for i := 0 to |order|
      invariant Covered(order[..i], table.entries)
      invariant css == base + Rules(order[..i], table.entries)
    {
      var slug := order[i];
      var icon := table.entries[slug];
      RulesStep(order, table.entries, i);
      AppendAssociative(base, Rules(order[..i], table.entries), RuleBlock(slug, icon));
      css := css + RuleBlock(slug, icon);
    }
    assert order[..|order|] == order;
  }
}
