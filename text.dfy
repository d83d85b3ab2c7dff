/**
 * The string operations of Python's standard library that the application
 * leans on: `str.strip`, `str.startswith`, `str.replace`, `str.join`,
 * `str(int)`, and the character classes `\s` and `\w` of the `re` module.
 * Characters are restricted to their ASCII meaning (see the README).
 */
module Text {

  /** `\s` and `str.isspace` on ASCII: blank, tab .. carriage return, and the
      four separator controls 0x1C .. 0x1F. */
  predicate IsSpace(c: char) {
    c == ' ' || (9 <= c as int <= 13) || (28 <= c as int <= 31)
  }

  /** `\w` on ASCII: letters, digits and the underscore. */
  predicate IsWordChar(c: char) {
    ('a' <= c <= 'z') || ('A' <= c <= 'Z') || ('0' <= c <= '9') || c == '_'
  }

  predicate AllSpace(s: string) {
    forall i :: 0 <= i < |s| ==> IsSpace(s[i])
  }

  /** `s.startswith(p)`. */
  predicate StartsWith(s: string, p: string) {
    |p| <= |s| && s[..|p|] == p
  }

  /** A prefix and what follows it make up the whole string. */
  lemma PrefixSplit(s: string, p: string)
    requires |p| <= |s| && p == s[..|p|]
    ensures s == p + s[|p|..]
  {
  }

  lemma StartsWithSplit(s: string, p: string)
    requires StartsWith(s, p)
    ensures s == p + s[|p|..]
  {
    PrefixSplit(s, p);
  }

  lemma StartsWithAppend(x: string, y: string)
    ensures StartsWith(x + y, x)
  {
    assert (x + y)[..|x|] == x;
  }

  /** What follows a prefix is the rest of the text. */
  lemma StartsWithRest(x: string, y: string)
    ensures StartsWith(x + y, x) && (x + y)[|x|..] == y
  {
    StartsWithAppend(x, y);
  }

  lemma ConcatAssoc(a: string, b: string, c: string)
    ensures a + b + c == a + (b + c)
  {
  }

  lemma ConcatAssoc4(a: string, b: string, c: string, d: string)
    ensures a + (b + (c + d)) == a + b + c + d
  {
  }

  /** A text that starts with `w` after its first character starts with
      the rest of `w`. */
  lemma StartsWithTail(c: char, rest: string, w: string)
    requires w != [] && StartsWith([c] + rest, w)
    ensures StartsWith(rest, w[1..])
  {
    assert ([c] + rest)[..|w|][1..] == rest[..|w| - 1];
  }

  /** A non-empty text followed by more text is its first character
      followed by the rest. */
  lemma SplitFirst(a: string, x: string)
    requires a != []
    ensures a + x == [a[0]] + (a[1..] + x)
  {
    assert a == [a[0]] + a[1..];
  }

  /** A text that differs from `p` at some position within `p` does not
      start with it. */
  lemma NotStartsWithAt(s: string, p: string, i: nat)
    requires i < |p| && (i >= |s| || s[i] != p[i])
    ensures !StartsWith(s, p)
  {
    if |p| <= |s| {
      assert s[..|p|][i] == s[i];
    }
  }

  /** Two texts that put a separator character after a part free of it
      agree on the part and on the rest. */
  lemma SplitAtFirst(a1: string, b1: string, a2: string, b2: string, c: char)
    requires c !in a1 && c !in a2
    requires a1 + [c] + b1 == a2 + [c] + b2
    ensures a1 == a2 && b1 == b2
  {
    var s := a1 + [c] + b1;
    assert s[|a1|] == c && s[|a2|] == c;
    assert forall k :: 0 <= k < |a1| ==> s[k] == a1[k];
    assert forall k :: 0 <= k < |a2| ==> s[k] == a2[k];
    assert |a1| == |a2|;
    assert a1 == s[..|a1|] && a2 == s[..|a2|];
    assert b1 == s[|a1| + 1..] && b2 == s[|a2| + 1..];
  }

  /** `p in s`: some suffix of `s` starts with `p`. */
  predicate Contains(s: string, p: string)
    decreases |s|
  {
    StartsWith(s, p) || (|s| > 0 && Contains(s[1..], p))
  }

  /** `s.lstrip()`: removes the leading whitespace and nothing else. */
  function TrimStart(s: string): (r: string)
    ensures |r| <= |s| && r == s[|s| - |r|..]
    ensures AllSpace(s[..|s| - |r|])
    ensures r == [] || !IsSpace(r[0])
    decreases |s|
  {
    if |s| > 0 && IsSpace(s[0]) then
      var r := TrimStart(s[1..]);
      assert s[..|s| - |r|] == [s[0]] + s[1..][..|s| - 1 - |r|];
      r
    else s
  }

  /** A text is its leading whitespace followed by what `lstrip` keeps. */
  lemma TrimStartSplit(t: string)
    ensures t == t[..|t| - |TrimStart(t)|] + TrimStart(t)
  {
    var u := TrimStart(t);
    assert t == t[..|t| - |u|] + t[|t| - |u|..];
  }

  /** Whitespace in front of a text that starts with something else is removed. */
  lemma TrimStartSpacePrefix(w: string, b: string)
    requires AllSpace(w) && (b == [] || !IsSpace(b[0]))
    ensures TrimStart(w + b) == b
    decreases |w|
  {
    if w != [] {
      assert (w + b)[1..] == w[1..] + b;
      TrimStartSpacePrefix(w[1..], b);
    } else {
      assert w + b == b;
    }
  }

  /** `s.rstrip()`: removes the trailing whitespace and nothing else. */
  function TrimEnd(s: string): (r: string)
    ensures |r| <= |s| && r == s[..|r|]
    ensures AllSpace(s[|r|..])
    ensures r == [] || !IsSpace(r[|r| - 1])
    decreases |s|
  {
    if |s| > 0 && IsSpace(s[|s| - 1]) then
      var r := TrimEnd(s[..|s| - 1]);
      assert s[|r|..] == s[..|s| - 1][|r|..] + [s[|s| - 1]];
      r
    else s
  }

  /** Whitespace after a text that ends in something else is removed. */
  lemma {:induction false} TrimEndSpaceSuffix(b: string, w: string)
    requires AllSpace(w) && (b == [] || !IsSpace(b[|b| - 1]))
    ensures TrimEnd(b + w) == b
    decreases |w|
  {
    if w != [] {
      assert (b + w)[..|b + w| - 1] == b + w[..|w| - 1];
      TrimEndSpaceSuffix(b, w[..|w| - 1]);
    } else {
      assert b + w == b;
    }
  }

  /** A string that `strip` leaves alone: no whitespace at either end. */
  predicate IsStripped(s: string) {
    s == [] || (!IsSpace(s[0]) && !IsSpace(s[|s| - 1]))
  }

  /** `s.strip()`: the longest infix without whitespace at either end, cut out
      of `s` by removing whitespace only. */
  function Strip(s: string): (r: string)
    ensures IsStripped(r)
    ensures |r| <= |s|
  {
    TrimEnd(TrimStart(s))
  }

  /** What `strip` removes is whitespace at the two ends and nothing else. */
  lemma StripCutsSpace(s: string)
    ensures exists i :: 0 <= i <= |s| - |Strip(s)| && Strip(s) == s[i..i + |Strip(s)|]
                        && AllSpace(s[..i]) && AllSpace(s[i + |Strip(s)|..])
  {
    var t := TrimStart(s);
    var r := TrimEnd(t);
    var i := |s| - |t|;
    assert Strip(s) == r;
    SliceOfSuffix(s, i, |r|);
    assert AllSpace(s[..i]);
    assert AllSpace(s[i + |r|..]);
  }

  lemma SliceOfSuffix(s: string, i: nat, n: nat)
    requires i + n <= |s|
    ensures s[i..][..n] == s[i..i + n]
    ensures s[i..][n..] == s[i + n..]
  {
  }

  /** Stripping a stripped text changes nothing, so `strip` is idempotent. */
  lemma StripStripped(s: string)
    requires IsStripped(s)
    ensures Strip(s) == s
  {
  }

  /** Whitespace around a stripped text is exactly what `strip` removes. */
  lemma StripAround(w1: string, b: string, w2: string)
    requires AllSpace(w1) && AllSpace(w2) && b != [] && IsStripped(b)
    ensures Strip(w1 + b + w2) == b
  {
    var t := b + w2;
    StripAroundFront(w1, b, w2, t);
    TrimEndSpaceSuffix(b, w2);
    StripTrimmed(w1 + b + w2, t, b);
  }

  lemma StripAroundFront(w1: string, b: string, w2: string, t: string)
    requires AllSpace(w1) && b != [] && !IsSpace(b[0]) && t == b + w2
    ensures TrimStart(w1 + b + w2) == t
  {
    assert t[0] == b[0];
    TrimStartSpacePrefix(w1, t);
    assert w1 + b + w2 == w1 + t;
  }

  lemma StripTrimmed(s: string, t: string, b: string)
    requires TrimStart(s) == t && TrimEnd(t) == b
    ensures Strip(s) == b
  {
  }

  lemma StripIdempotent(s: string)
    ensures Strip(Strip(s)) == Strip(s)
  {
    StripStripped(Strip(s));
  }

  /** A text shorter than `p` does not contain it. */
  lemma {:induction false} ContainsTooShort(s: string, p: string)
    requires |s| < |p|
    ensures !Contains(s, p)
    decreases |s|
  {
    if |s| > 0 {
      ContainsTooShort(s[1..], p);
    }
  }

  /** `p` occurs in any text that has it between two parts. */
  lemma {:induction false} ContainsInfix(a: string, p: string, b: string)
    ensures Contains(a + p + b, p)
    decreases |a|
  {
    if a == [] {
      assert a + p + b == p + b;
      StartsWithAppend(p, b);
    } else {
      assert (a + p + b)[1..] == a[1..] + p + b;
      ContainsInfix(a[1..], p, b);
    }
  }

  /** A prefix in which `p` cannot start does not matter to `p in s`. */
  lemma {:induction false} ContainsInertPrefix(a: string, b: string, p: string)
    requires |p| > 0 && p[0] !in a
    ensures Contains(a + b, p) <==> Contains(b, p)
    decreases |a|
  {
    if a == [] {
      assert a + b == b;
    } else {
      assert (a + b)[1..] == a[1..] + b;
      assert !StartsWith(a + b, p) by {
        if |p| <= |a + b| {
          assert (a + b)[..|p|][0] == a[0];
        }
      }
      ContainsInertPrefix(a[1..], b, p);
    }
  }

  /** A text lacking one of the characters of `p` does not contain `p`. */
  lemma {:induction false} ContainsNeedsChar(s: string, p: string, i: nat)
    requires i < |p| && p[i] !in s
    ensures !Contains(s, p)
    decreases |s|
  {
    if |p| <= |s| {
      assert s[..|p|][i] == s[i];
    }
    if |s| > 0 {
      assert forall c :: c in s[1..] ==> c in s;
      ContainsNeedsChar(s[1..], p, i);
    }
  }

  /** `s.replace(p, q)`: every occurrence of `p`, taken left to right without
      overlapping, is replaced by `q`. */
  function ReplaceAll(s: string, p: string, q: string): string
    requires |p| > 0
    decreases |s|
  {
    if |s| < |p| then s
    else if s[..|p|] == p then q + ReplaceAll(s[|p|..], p, q)
    else [s[0]] + ReplaceAll(s[1..], p, q)
  }

  /** A text in which `p` cannot start anywhere is left as it is. */
  lemma {:induction false} ReplaceAllAbsent(s: string, p: string, q: string)
    requires |p| > 0 && p[0] !in s
    ensures ReplaceAll(s, p, q) == s
    decreases |s|
  {
    if |s| >= |p| {
      assert s[0] != p[0];
      ReplaceAllAbsent(s[1..], p, q);
    }
  }

  /** A prefix in which `p` cannot start passes through unchanged. */
  lemma {:induction false} ReplaceAllInertPrefix(a: string, b: string, p: string, q: string)
    requires |p| > 0 && p[0] !in a
    ensures ReplaceAll(a + b, p, q) == a + ReplaceAll(b, p, q)
    decreases |a|
  {
    if a != [] {
      var s := a + b;
      assert s[0] == a[0] && s[1..] == a[1..] + b;
      ReplaceAllInertPrefix(a[1..], b, p, q);
      if |s| < |p| {
        ReplaceAllAbsent(a, p, q);
        ReplaceAllShort(b, p, q);
      } else {
        assert s[..|p|][0] != p[0];
        assert ReplaceAll(s, p, q) == [a[0]] + (a[1..] + ReplaceAll(b, p, q));
        assert a == [a[0]] + a[1..];
      }
    } else {
      assert a + b == b;
    }
  }

  /** An occurrence of `p` at the front is replaced. */
  lemma ReplaceAllAtMatch(b: string, p: string, q: string)
    requires |p| > 0
    ensures ReplaceAll(p + b, p, q) == q + ReplaceAll(b, p, q)
  {
    assert (p + b)[..|p|] == p && (p + b)[|p|..] == b;
  }

  /** A character that does not start `p` is copied and the scan moves on. */
  lemma ReplaceAllSkip(c: char, b: string, p: string, q: string)
    requires |p| > 0 && !StartsWith([c] + b, p)
    ensures ReplaceAll([c] + b, p, q) == [c] + ReplaceAll(b, p, q)
  {
    var s := [c] + b;
    assert s[1..] == b;
    if |s| < |p| {
      assert !StartsWith(b, p);
      ReplaceAllShort(b, p, q);
    }
  }

  lemma ReplaceAllShort(s: string, p: string, q: string)
    requires |p| > 0 && |s| < |p|
    ensures ReplaceAll(s, p, q) == s
  {
  }

  /** The first character of a replacement's result: the first character of
      `q` or of `s`, depending on whether `s` starts with `p`. */
  lemma ReplaceAllHead(s: string, p: string, q: string)
    requires |p| > 0 && |q| > 0 && |s| > 0
    ensures |ReplaceAll(s, p, q)| > 0
    ensures ReplaceAll(s, p, q)[0] == (if StartsWith(s, p) then q[0] else s[0])
  {
  }

  /** `sep.join(parts)`. */
  function Join(parts: seq<string>, sep: string): string
    decreases |parts|
  {
    if |parts| == 0 then ""
    else if |parts| == 1 then parts[0]
    else parts[0] + sep + Join(parts[1..], sep)
  }

  function TotalLength(parts: seq<string>): nat
    decreases |parts|
  {
    if |parts| == 0 then 0 else |parts[0]| + TotalLength(parts[1..])
  }

  /** A join holds every part and one separator between each neighbouring pair. */
  lemma {:induction false} JoinLength(parts: seq<string>, sep: string)
    ensures |Join(parts, sep)| == TotalLength(parts) + (if |parts| == 0 then 0 else (|parts| - 1) * |sep|)
    decreases |parts|
  {
    if |parts| > 1 {
      JoinLength(parts[1..], sep);
    }
  }

  /** The join of parts that contain no `c`, with a separator that contains
      none, contains none. */
  lemma {:induction false} JoinAvoids(parts: seq<string>, sep: string, c: char)
    requires forall i :: 0 <= i < |parts| ==> c !in parts[i]
    requires c !in sep
    ensures c !in Join(parts, sep)
    decreases |parts|
  {
    if |parts| > 1 {
      JoinAvoids(parts[1..], sep, c);
    }
  }

  /** Every part of a join stands in it between some text and some text. */
  lemma {:induction false} JoinHasPart(parts: seq<string>, sep: string, i: nat)
    requires i < |parts|
    ensures exists a, b :: Join(parts, sep) == a + parts[i] + b
    decreases |parts|
  {
    if |parts| == 1 {
      assert Join(parts, sep) == [] + parts[0] + [];
    } else if i == 0 {
      assert Join(parts, sep) == [] + parts[0] + (sep + Join(parts[1..], sep));
    } else {
      JoinHasPart(parts[1..], sep, i - 1);
      var a, b :| Join(parts[1..], sep) == a + parts[1..][i - 1] + b;
      assert Join(parts, sep) == (parts[0] + sep + a) + parts[i] + b;
    }
  }

  /** The number of occurrences of `c` in `s`: `s.count(c)`. */
  function CountChar(s: string, c: char): nat
    decreases |s|
  {
    if s == [] then 0 else (if s[0] == c then 1 else 0) + CountChar(s[1..], c)
  }

  lemma {:induction false} CountCharAppend(a: string, b: string, c: char)
    ensures CountChar(a + b, c) == CountChar(a, c) + CountChar(b, c)
    decreases |a|
  {
    if a != [] {
      assert (a + b)[0] == a[0] && (a + b)[1..] == a[1..] + b;
      CountCharAppend(a[1..], b, c);
    } else {
      assert a + b == b;
    }
  }

  lemma {:induction false} CountCharAbsent(s: string, c: char)
    ensures CountChar(s, c) == 0 <==> c !in s
    decreases |s|
  {
    if s != [] {
      CountCharAbsent(s[1..], c);
      assert s == [s[0]] + s[1..];
    }
  }

  /** Decimal digits. */
  function DigitChar(d: nat): char
    requires d < 10
  {
    ('0' as int + d) as char
  }

  predicate IsDigit(c: char) { '0' <= c <= '9' }

  /** `str(n)` for a non-negative integer: its decimal digits. */
  function NatToString(n: nat): string
    decreases n
  {
    if n < 10 then [DigitChar(n)] else NatToString(n / 10) + [DigitChar(n % 10)]
  }

  /** The number a string of decimal digits denotes. */
  function DecimalValue(s: string): nat
    requires forall i :: 0 <= i < |s| ==> IsDigit(s[i])
    decreases |s|
  {
    if s == [] then 0
    else
      assert IsDigit(s[|s| - 1]);
      DecimalValue(s[..|s| - 1]) * 10 + (s[|s| - 1] as int - '0' as int)
  }

  /** `str(n)` prints digits only, without leading zeros, and reading them
      back gives `n`. */
  lemma {:induction false} NatToStringRoundTrip(n: nat)
    ensures var d := NatToString(n);
      |d| > 0 && (forall i :: 0 <= i < |d| ==> IsDigit(d[i]))
      && (d[0] == '0' ==> n == 0)
      && DecimalValue(d) == n
    decreases n
  {
    if n >= 10 {
      NatToStringRoundTrip(n / 10);
      var d := NatToString(n);
      assert d[..|d| - 1] == NatToString(n / 10);
    }
  }
}
