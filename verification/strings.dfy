/**
 * The two functions of Go's `strings` package that the driver uses on a move
 * line: `TrimSpace` and `Split`.  Strings are sequences of runes.
 */
module Strings {

  /** Go's `unicode.IsSpace`: the Latin-1 spaces plus the Unicode White_Space runes. */
  predicate IsSpace(c: char) {
    c == '\t' || c == '\n' || c == '\U{000B}' || c == '\U{000C}' || c == '\r' || c == ' '
    || c == '\U{0085}' || c == '\U{00A0}' || c == '\U{1680}'
    || ('\U{2000}' <= c <= '\U{200A}')
    || c == '\U{2028}' || c == '\U{2029}' || c == '\U{202F}' || c == '\U{205F}' || c == '\U{3000}'
  }

  predicate AllSpace(s: string) {
    forall i :: 0 <= i < |s| ==> IsSpace(s[i])
  }

  /** A string that has no space at either end, i.e. one that trimming leaves alone. */
  predicate Trimmed(s: string) {
    s == [] || (!IsSpace(s[0]) && !IsSpace(s[|s| - 1]))
  }

  /** Drops the leading spaces. */
  function TrimLeft(s: string): (r: string)
    ensures |r| <= |s|
  {
    if s != [] && IsSpace(s[0]) then TrimLeft(s[1..]) else s
  }

  /** TrimLeft returns the suffix that starts at the first non-space. */
  lemma {:induction false} TrimLeftSpec(s: string)
    ensures var r := TrimLeft(s);
      && r == s[|s| - |r|..] && AllSpace(s[..|s| - |r|]) && (r == [] || !IsSpace(r[0]))
  {
    if s != [] && IsSpace(s[0]) {
      TrimLeftSpec(s[1..]);
      var r := TrimLeft(s);
      assert s[..|s| - |r|] == [s[0]] + s[1..][..|s| - 1 - |r|];
    }
  }

  /** Drops the trailing spaces. */
  function TrimRight(s: string): (r: string)
    ensures |r| <= |s|
  {
    if s != [] && IsSpace(s[|s| - 1]) then TrimRight(s[..|s| - 1]) else s
  }

  /** TrimRight returns the prefix that ends at the last non-space. */
  lemma {:induction false} TrimRightSpec(s: string)
    ensures var r := TrimRight(s);
      && r == s[..|r|] && AllSpace(s[|r|..]) && (r == [] || !IsSpace(r[|r| - 1]))
  {
    if s != [] && IsSpace(s[|s| - 1]) {
      TrimRightSpec(s[..|s| - 1]);
      var r := TrimRight(s);
      assert s[|r|..] == s[..|s| - 1][|r|..] + [s[|s| - 1]];
    }
  }

  /** `strings.TrimSpace`: right-trim of the left-trim. */
  function TrimSpace(s: string): (r: string) {
    TrimRight(TrimLeft(s))
  }

  /** TrimSpace leaves no space at either end. */
  lemma TrimSpaceTrimmed(s: string)
    ensures Trimmed(TrimSpace(s))
  {
    var t := TrimLeft(s);
    var r := TrimRight(t);
    TrimLeftSpec(s);
    TrimRightSpec(t);
    assert r != [] ==> r[0] == t[0];
  }

  lemma {:induction false} TrimLeftOfPadded(a: string, t: string)
    requires AllSpace(a)
    requires t == [] || !IsSpace(t[0])
    ensures TrimLeft(a + t) == t
  {
    if a != [] {
      assert (a + t)[0] == a[0];
      assert (a + t)[1..] == a[1..] + t;
      TrimLeftOfPadded(a[1..], t);
    } else {
      assert a + t == t;
    }
  }

  lemma {:induction false} TrimRightOfPadded(t: string, b: string)
    requires AllSpace(b)
    requires t == [] || !IsSpace(t[|t| - 1])
    ensures TrimRight(t + b) == t
  {
    if b != [] {
      var s := t + b;
      assert s[|s| - 1] == b[|b| - 1];
      assert s[..|s| - 1] == t + b[..|b| - 1];
      TrimRightOfPadded(t, b[..|b| - 1]);
    } else {
      assert t + b == t;
    }
  }

  /**
   * TrimSpace removes exactly the spaces around the text and nothing inside:
   * whatever spaces surround a trimmed text, trimming gives that text back.
   */
  lemma TrimSpaceOfPadded(a: string, m: string, b: string)
    requires AllSpace(a) && AllSpace(b) && Trimmed(m)
    ensures TrimSpace(a + m + b) == m
  {
    if m == [] {
      assert a + m + b == a + b;
      TrimLeftOfPadded(a + b, []);
      assert a + b + [] == a + b;
      assert AllSpace(a + b);
    } else {
      assert a + m + b == a + (m + b);
      TrimLeftOfPadded(a, m + b);
      TrimRightOfPadded(m, b);
    }
  }

  /** Number of occurrences of `c` in `s`. */
  function Count(s: string, c: char): (n: nat) {
    if s == [] then 0 else (if s[0] == c then 1 else 0) + Count(s[1..], c)
  }

  lemma {:induction false} CountZero(s: string, c: char)
    ensures Count(s, c) == 0 <==> c !in s
  {
    if s != [] {
      CountZero(s[1..], c);
      assert s == [s[0]] + s[1..];
    }
  }

  lemma {:induction false} CountAppend(s: string, t: string, c: char)
    ensures Count(s + t, c) == Count(s, c) + Count(t, c)
  {
    if s == [] {
      assert s + t == t;
    } else {
      assert (s + t)[1..] == s[1..] + t;
      CountAppend(s[1..], t, c);
    }
  }

  /** Position of the first `c` in `s`, or `|s|` when there is none. */
  function IndexOf(s: string, c: char): (i: nat)
    ensures i <= |s|
  {
    if s == [] then 0
    else if s[0] == c then 0
    else IndexOf(s[1..], c) + 1
  }

  /** IndexOf finds the first `c`: there is none before it. */
  lemma {:induction false} IndexOfSpec(s: string, c: char)
    ensures var i := IndexOf(s, c);
      (i < |s| ==> s[i] == c) && c !in s[..i]
  {
    if s != [] && s[0] != c {
      IndexOfSpec(s[1..], c);
      var j := IndexOf(s[1..], c);
      assert s[..j + 1] == [s[0]] + s[1..][..j];
    }
  }

  /** The first `c` of `p + [c] + t` is the one after `p` when `p` has none. */
  lemma {:induction false} IndexOfAfter(p: string, t: string, c: char)
    requires c !in p
    ensures IndexOf(p + [c] + t, c) == |p|
  {
    if p != [] {
      assert (p + [c] + t)[1..] == p[1..] + [c] + t;
      IndexOfAfter(p[1..], t, c);
    }
  }

  /** The inverse of `Split`: the parts with `sep` between consecutive ones. */
  function Join(parts: seq<string>, sep: char): (s: string)
    requires |parts| >= 1
  {
    if |parts| == 1 then parts[0] else parts[0] + [sep] + Join(parts[1..], sep)
  }

  /**
   * `strings.Split(s, sep)` for a one-rune separator: the maximal pieces of `s`
   * between separators.  It never returns an empty list: `Split("", sep) == [""]`.
   */
  function Split(s: string, sep: char): (parts: seq<string>)
    ensures |parts| >= 1
    decreases |s|
  {
    var i := IndexOf(s, sep);
    if i == |s| then [s] else [s[..i]] + Split(s[i + 1..], sep)
  }

  /** Split cuts exactly at the separators: joining the pieces gives the text back, and no piece holds a separator. */
  lemma {:induction false} SplitSpec(s: string, sep: char)
    ensures Join(Split(s, sep), sep) == s
    ensures forall k :: 0 <= k < |Split(s, sep)| ==> sep !in Split(s, sep)[k]
    decreases |s|
  {
    var i := IndexOf(s, sep);
    IndexOfSpec(s, sep);
    if i == |s| {
      assert s[..i] == s;
    } else {
      var parts := Split(s, sep);
      SplitSpec(s[i + 1..], sep);
      assert s == s[..i] + [sep] + s[i + 1..];
      assert parts[1..] == Split(s[i + 1..], sep);
      forall k | 0 <= k < |parts| ensures sep !in parts[k] {
        if k > 0 {
          assert parts[k] == Split(s[i + 1..], sep)[k - 1];
        }
      }
    }
  }

  /** The number of pieces is one more than the number of separators. */
  lemma {:induction false} SplitLength(s: string, sep: char)
    ensures |Split(s, sep)| == Count(s, sep) + 1
    decreases |s|
  {
    var i := IndexOf(s, sep);
    IndexOfSpec(s, sep);
    assert s == s[..i] + s[i..];
    CountAppend(s[..i], s[i..], sep);
    CountZero(s[..i], sep);
    if i == |s| {
      assert s[i..] == [];
    } else {
      assert s[i..] == [sep] + s[i + 1..];
      CountAppend([sep], s[i + 1..], sep);
      SplitLength(s[i + 1..], sep);
    }
  }

  /** Splitting a join of separator-free parts gives the parts back. */
  lemma {:induction false} SplitJoin(parts: seq<string>, sep: char)
    requires |parts| >= 1
    requires forall k :: 0 <= k < |parts| ==> sep !in parts[k]
    ensures Split(Join(parts, sep), sep) == parts
  {
    var s := Join(parts, sep);
    if |parts| == 1 {
      IndexOfSpec(s, sep);
    } else {
      var p := parts[0];
      var t := Join(parts[1..], sep);
      assert s == p + [sep] + t;
      IndexOfAfter(p, t, sep);
      var i := IndexOf(s, sep);
      assert s[..i] == p;
      assert s[i + 1..] == t;
      SplitJoin(parts[1..], sep);
      assert parts == [p] + parts[1..];
    }
  }

  /** A text with one separator splits into the two pieces around it. */
  lemma SplitPair(a: string, b: string, sep: char)
    requires sep !in a && sep !in b
    ensures Split(a + [sep] + b, sep) == [a, b]
  {
    assert [a, b][1..] == [b];
    assert Join([a, b], sep) == a + [sep] + b;
    SplitJoin([a, b], sep);
  }
}
