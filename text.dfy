/**
 * The string operations of the JavaScript runtime that the build relies on:
 * ASCII case mapping, `indexOf`, first-occurrence `replace`, `split`, and
 * `Number.prototype.toString(16)` with its read-back.
 */
module Text {

  // ---------------------------------------------------------------- case

  predicate IsAsciiLower(c: char) { 'a' <= c <= 'z' }
  predicate IsAsciiUpper(c: char) { 'A' <= c <= 'Z' }

  function UpperChar(c: char): char {
    if IsAsciiLower(c) then (c as int - 32) as char else c
  }

  function LowerChar(c: char): char {
    if IsAsciiUpper(c) then (c as int + 32) as char else c
  }

  /** `String.prototype.toUpperCase` on ASCII text. */
  function Upper(s: string): string {
    seq(|s|, i requires 0 <= i < |s| => UpperChar(s[i]))
  }

  /** `String.prototype.toLowerCase` on ASCII text. */
  function Lower(s: string): string {
    seq(|s|, i requires 0 <= i < |s| => LowerChar(s[i]))
  }

  // ---------------------------------------------------------------- search

  predicate OccursAt<T(==)>(s: seq<T>, pat: seq<T>, j: int) {
    0 <= j && j + |pat| <= |s| && s[j..j + |pat|] == pat
  }

  /** `indexOf`: the first position where `pat` occurs in `s`, or -1. */
  function IndexOf<T(==)>(s: seq<T>, pat: seq<T>): (r: int)
    ensures -1 <= r <= |s|
    ensures r >= 0 ==> OccursAt(s, pat, r)
    ensures forall j :: 0 <= j && (r < 0 || j < r) ==> !OccursAt(s, pat, j)
    decreases |s|
  {
    if |s| < |pat| then -1
    else if s[..|pat|] == pat then 0
    else
      var r := IndexOf(s[1..], pat);
      assert forall j :: 1 <= j ==> (OccursAt(s, pat, j) <==> OccursAt(s[1..], pat, j - 1)) by {
        forall j | 1 <= j
          ensures OccursAt(s, pat, j) <==> OccursAt(s[1..], pat, j - 1)
        {
          if j + |pat| <= |s| {
            var here, there := s[j..j + |pat|], s[1..][j - 1..j - 1 + |pat|];
            assert forall m :: 0 <= m < |pat| ==> here[m] == there[m];
            assert here == there;
          }
        }
      }
      if r < 0 then -1 else r + 1
  }

  /** `s.replace(pat, rep)` with a string pattern: only the first occurrence is replaced. */
  function ReplaceFirst<T(==)>(s: seq<T>, pat: seq<T>, rep: seq<T>): (r: seq<T>)
    ensures IndexOf(s, pat) < 0 ==> r == s
    ensures IndexOf(s, pat) >= 0 ==>
      r == s[..IndexOf(s, pat)] + rep + s[IndexOf(s, pat) + |pat|..]
  {
    var i := IndexOf(s, pat);
    if i < 0 then s else s[..i] + rep + s[i + |pat|..]
  }

  /** When `pat` occurs at `at` and nowhere before, `IndexOf` finds `at`. */
  lemma IndexOfIsFirst<T>(s: seq<T>, pat: seq<T>, at: nat)
    requires OccursAt(s, pat, at)
    requires forall j :: 0 <= j < at ==> !OccursAt(s, pat, j)
    ensures IndexOf(s, pat) == at
  {
  }

  // ---------------------------------------------------------------- split

  /** `xs.join(sep)` for a one-character separator. */
  function Join(xs: seq<string>, sep: char): string {
    if |xs| == 0 then ""
    else if |xs| == 1 then xs[0]
    else xs[0] + [sep] + Join(xs[1..], sep)
  }

  /**
   * `s.split(sep)`: the pieces between separators, empty pieces included;
   * joining them back gives `s`, and no piece contains the separator.
   */
  function Split(s: string, sep: char): (r: seq<string>)
    ensures |r| >= 1
    ensures Join(r, sep) == s
    ensures forall k :: 0 <= k < |r| ==> sep !in r[k]
    decreases |s|
  {
    var i := IndexOf(s, [sep]);
    FirstSeparator(s, sep);
    if i < 0 then [s]
    else
      var rest := Split(s[i + 1..], sep);
      assert s == s[..i] + [sep] + s[i + 1..];
      [s[..i]] + rest
  }

  /** The first separator `indexOf` finds has no separator before it. */
  lemma FirstSeparator(s: string, sep: char)
    ensures var i := IndexOf(s, [sep]);
      && (i < 0 ==> sep !in s)
      && (i >= 0 ==> i < |s| && s[i] == sep && sep !in s[..i])
  {
    var i := IndexOf(s, [sep]);
    forall j | 0 <= j < |s| ensures s[j..j + 1] == [s[j]] { }
    if i < 0 {
      forall j | 0 <= j < |s| ensures s[j] != sep {
        assert !OccursAt(s, [sep], j);
      }
    } else {
      forall j | 0 <= j < i ensures s[..i][j] != sep {
        assert !OccursAt(s, [sep], j);
      }
    }
  }

  lemma SplitWithoutSeparator(s: string, sep: char)
    requires sep !in s
    ensures Split(s, sep) == [s]
  {
    forall j | 0 <= j < |s| ensures !OccursAt(s, [sep], j) {
      assert s[j..j + 1] == [s[j]];
    }
  }

  lemma SplitAtFirstSeparator(head: string, sep: char, tail: string)
    requires sep !in head
    ensures Split(head + [sep] + tail, sep) == [head] + Split(tail, sep)
  {
    var s := head + [sep] + tail;
    forall j | 0 <= j < |head| ensures !OccursAt(s, [sep], j) {
      assert s[j..j + 1] == [head[j]];
    }
    assert s[|head|..|head| + 1] == [sep];
    IndexOfIsFirst(s, [sep], |head|);
    assert s[..|head|] == head;
    assert s[|head| + 1..] == tail;
  }

  /** Splitting a joined list of separator-free pieces gives the pieces back. */
  lemma {:induction false} SplitJoin(xs: seq<string>, sep: char)
    requires |xs| >= 1
    requires forall k :: 0 <= k < |xs| ==> sep !in xs[k]
    ensures Split(Join(xs, sep), sep) == xs
  {
    if |xs| == 1 {
      SplitWithoutSeparator(xs[0], sep);
    } else {
      SplitAtFirstSeparator(xs[0], sep, Join(xs[1..], sep));
      SplitJoin(xs[1..], sep);
      assert xs == [xs[0]] + xs[1..];
    }
  }

  // ---------------------------------------------------------------- hex

  predicate IsLowerHexDigit(c: char) { '0' <= c <= '9' || 'a' <= c <= 'f' }

  function HexDigit(d: nat): (c: char)
    requires d < 16
    ensures IsLowerHexDigit(c) && DigitValue(c) == d
  {
    if d < 10 then ('0' as int + d) as char else ('a' as int + d - 10) as char
  }

  /** The value of a hexadecimal digit in either case (0 for anything else). */
  function DigitValue(c: char): nat {
    if '0' <= c <= '9' then c as nat - '0' as nat
    else if 'a' <= c <= 'f' then c as nat - 'a' as nat + 10
    else if 'A' <= c <= 'F' then c as nat - 'A' as nat + 10
    else 0
  }

  /** `parseInt(s, 16)` on a string of hexadecimal digits. */
  function ParseHex(s: string): nat {
    if |s| == 0 then 0 else ParseHex(s[..|s| - 1]) * 16 + DigitValue(s[|s| - 1])
  }

  /** `n.toString(16)`: lower-case digits without leading zeros. */
  function ToHexString(n: nat): (r: string)
    ensures |r| >= 1
    ensures forall k :: 0 <= k < |r| ==> IsLowerHexDigit(r[k])
    ensures r[0] == '0' <==> n == 0
    decreases n
  {
    if n < 16 then [HexDigit(n)] else ToHexString(n / 16) + [HexDigit(n % 16)]
  }

  /** `parseInt(n.toString(16), 16) == n`. */
  lemma {:induction false} HexReadBack(n: nat)
    ensures ParseHex(ToHexString(n)) == n
    decreases n
  {
    var r := ToHexString(n);
    if n < 16 {
      assert ParseHex(r) == ParseHex(r[..0]) * 16 + DigitValue(r[0]);
    } else {
      HexReadBack(n / 16);
      assert r[..|r| - 1] == ToHexString(n / 16);
    }
  }

  lemma {:induction false} ParseHexUpper(s: string)
    ensures ParseHex(Upper(s)) == ParseHex(s)
  {
    if |s| > 0 {
      assert Upper(s)[..|s| - 1] == Upper(s[..|s| - 1]);
      ParseHexUpper(s[..|s| - 1]);
    }
  }

  /** Lower-casing undoes upper-casing on lower-case hexadecimal digits. */
  lemma LowerUpperHex(n: nat)
    ensures Lower(Upper(ToHexString(n))) == ToHexString(n)
  {
    var h := ToHexString(n);
    assert forall k :: 0 <= k < |h| ==> LowerChar(UpperChar(h[k])) == h[k] by {
      forall k | 0 <= k < |h| ensures LowerChar(UpperChar(h[k])) == h[k] {
        assert IsLowerHexDigit(h[k]);
      }
    }
  }

  // ---------------------------------------------------------------- decimal

  predicate IsDecimalDigit(c: char) { '0' <= c <= '9' }

  /** The value of a string of decimal digits. */
  function DecimalValue(s: string): nat {
    if |s| == 0 then 0 else DecimalValue(s[..|s| - 1]) * 10 + DigitValue(s[|s| - 1])
  }
}
