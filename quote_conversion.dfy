/**
 * Step 3 of `clean_json_response` (cyber_query_ai/helpers.py): Python-style
 * single-quoted strings become JSON double-quoted ones.  Escaped quotes are
 * first hidden behind sentinel words, the single quotes are paired by a
 * regular expression, and the sentinels are put back.
 */
module QuoteConversion {
  import opened Text

  const BackslashSingle: string := "\\'"
  const BackslashDouble: string := "\\\""
  const SingleSentinel: string := "__ESCAPED_" + "SINGLE" + "_QUOTE__"
  const DoubleSentinel: string := "__ESCAPED_" + "DOUBLE" + "_QUOTE__"

  /** The two `replace` calls that hide escaped quotes. */
  function Protect(s: string): string {
    ReplaceAll(ReplaceAll(s, BackslashSingle, SingleSentinel), BackslashDouble, DoubleSentinel)
  }

  function RestoreSingle(s: string): string {
    ReplaceAll(s, SingleSentinel, BackslashSingle)
  }

  function RestoreDouble(s: string): string {
    ReplaceAll(s, DoubleSentinel, BackslashDouble)
  }

  /** The two `replace` calls that bring them back. */
  function Restore(s: string): string {
    RestoreDouble(RestoreSingle(s))
  }

  function IndexOf(s: string, c: char): (i: nat)
    requires c in s
    ensures i < |s| && s[i] == c && c !in s[..i]
    decreases |s|
  {
    if s[0] == c then 0
    else
      assert s == [s[0]] + s[1..];
      1 + IndexOf(s[1..], c)
  }

  /** `re.sub(r"'([^']*)'", r'"\1"', s)`: a single quote that has another one
      after it opens a string closed by the next single quote, and both become
      double quotes; scanning resumes after the closing quote. */
  function SingleToDouble(s: string): string
    decreases |s|
  {
    if s == [] then []
    else if s[0] == '\'' && '\'' in s[1..] then
      var j := IndexOf(s[1..], '\'') + 1;
      "\"" + s[1..j] + "\"" + SingleToDouble(s[j + 1..])
    else [s[0]] + SingleToDouble(s[1..])
  }

  /** Step 3 as a whole. */
  function QuoteStep(s: string): string {
    Restore(SingleToDouble(Protect(s)))
  }

  // ---------------------------------------------------------------------
  // What the pairing regex does, stated without the regex.

  /** The first `n` single quotes of `s` turned into double quotes. */
  function ConvertFirst(s: string, n: nat): string
    decreases |s|
  {
    if s == [] then []
    else if s[0] == '\'' && n > 0 then "\"" + ConvertFirst(s[1..], n - 1)
    else [s[0]] + ConvertFirst(s[1..], n)
  }

  lemma {:induction false} ConvertFirstInert(a: string, b: string, n: nat)
    requires '\'' !in a
    ensures ConvertFirst(a + b, n) == a + ConvertFirst(b, n)
    decreases |a|
  {
    if a == [] {
      assert a + b == b;
    } else {
      ConvertFirstInert(a[1..], b, n);
      ConvertFirstCons(a[0], a[1..], b, n);
      SplitFirst(a, b);
      SplitFirst(a, ConvertFirst(b, n));
    }
  }

  lemma ConvertFirstCons(c: char, r: string, b: string, n: nat)
    requires c != '\''
    requires ConvertFirst(r + b, n) == r + ConvertFirst(b, n)
    ensures ConvertFirst([c] + (r + b), n) == [c] + (r + ConvertFirst(b, n))
  {
    var s := [c] + (r + b);
    assert s[0] == c && s[1..] == r + b;
  }

  lemma {:induction false} ConvertFirstZero(s: string)
    ensures ConvertFirst(s, 0) == s
    decreases |s|
  {
    if s != [] {
      ConvertFirstZero(s[1..]);
    }
  }

  lemma {:induction false} SingleToDoubleAbsent(s: string)
    requires '\'' !in s
    ensures SingleToDouble(s) == s
    decreases |s|
  {
    if s != [] {
      SingleToDoubleAbsent(s[1..]);
    }
  }

  /** The regex pairs quotes left to right, so it converts every quote except
      the last one when their number is odd. */
  lemma {:induction false} SingleToDoublePairs(s: string)
    ensures SingleToDouble(s) == ConvertFirst(s, 2 * (CountChar(s, '\'') / 2))
    decreases |s|
  {
    if s == [] {
    } else if s[0] == '\'' && '\'' in s[1..] {
      var j := IndexOf(s[1..], '\'') + 1;
      var mid := s[1..j];
      var rest := s[j + 1..];
      assert mid == s[1..][..j - 1];
      assert s == "'" + mid + ("'" + rest);
      SingleToDoublePairs(rest);
      PairedString(mid, rest);
    } else if s[0] == '\'' {
      SingleToDoubleAbsent(s[1..]);
      assert s == [s[0]] + s[1..];
      CountCharAbsent(s[1..], '\'');
      ConvertFirstZero(s);
    } else {
      SingleToDoublePairs(s[1..]);
    }
  }

  /** One quoted string: both of its quotes are converted, and the count of
      the rest decides the rest. */
  lemma PairedString(mid: string, rest: string)
    requires '\'' !in mid
    ensures var s := "'" + mid + ("'" + rest);
      ConvertFirst(s, 2 * (CountChar(s, '\'') / 2))
      == "\"" + mid + "\"" + ConvertFirst(rest, 2 * (CountChar(rest, '\'') / 2))
  {
    var k := CountChar(rest, '\'');
    var n := 2 * (k / 2);
    QuotedCount(mid, rest);
    assert 2 * ((k + 2) / 2) == n + 2;
    ConcatAssoc("'", mid, "'" + rest);
    ConvertFirstQuote(mid + ("'" + rest), n + 1);
    ConvertFirstInert(mid, "'" + rest, n + 1);
    ConvertFirstQuote(rest, n);
    ConcatAssoc4("\"", mid, "\"", ConvertFirst(rest, n));
  }

  /** A quoted string around a quote-free text holds two quotes more than
      what follows it. */
  lemma QuotedCount(mid: string, rest: string)
    requires '\'' !in mid
    ensures CountChar("'" + mid + ("'" + rest), '\'') == CountChar(rest, '\'') + 2
  {
    CountCharAppend("'" + mid, "'" + rest, '\'');
    CountCharAppend("'", mid, '\'');
    CountCharAppend("'", rest, '\'');
    CountCharAbsent(mid, '\'');
    assert CountChar("'", '\'') == 1 by {
      assert "'"[1..] == [];
    }
  }

  /** A leading quote that may still be converted is. */
  lemma ConvertFirstQuote(t: string, n: nat)
    ensures ConvertFirst("'" + t, n + 1) == "\"" + ConvertFirst(t, n)
  {
    var s := "'" + t;
    assert s[0] == '\'' && s[1..] == t;
  }

  /** Counting the quotes of a prefix one character at a time. */
  lemma CountPrefixStep(s: string, i: nat, c: char)
    requires 0 < i <= |s|
    ensures CountChar(s[..i], c) == (if s[0] == c then 1 else 0) + CountChar(s[1..][..i - 1], c)
  {
    assert s[..i][1..] == s[1..][..i - 1];
  }

  /** Position by position: a character that is not a single quote is kept;
      the quote with `k` quotes before it becomes a double quote exactly when
      `k < n`. */
  lemma {:induction false} ConvertFirstAt(s: string, n: nat)
    ensures |ConvertFirst(s, n)| == |s|
    ensures forall i :: 0 <= i < |s| ==>
      ConvertFirst(s, n)[i] == (if s[i] == '\'' && CountChar(s[..i], '\'') < n then '"' else s[i])
    decreases |s|
  {
    if s != [] {
      var n' := if s[0] == '\'' && n > 0 then n - 1 else n;
      ConvertFirstAt(s[1..], n');
      forall i | 1 <= i < |s|
        ensures ConvertFirst(s, n)[i] ==
          (if s[i] == '\'' && CountChar(s[..i], '\'') < n then '"' else s[i])
      {
        CountPrefixStep(s, i, '\'');
        assert s[1..][i - 1] == s[i];
      }
    }
  }

  /** The pairing regex, position by position: only single quotes change,
      and each becomes a double quote unless it is the last of an odd
      number of them. */
  lemma SingleToDoubleSpec(s: string)
    ensures |SingleToDouble(s)| == |s|
    ensures forall i :: 0 <= i < |s| && s[i] != '\'' ==> SingleToDouble(s)[i] == s[i]
    ensures forall i :: 0 <= i < |s| && s[i] == '\'' ==>
      SingleToDouble(s)[i] == (if CountChar(s[..i], '\'') < 2 * (CountChar(s, '\'') / 2)
                               then '"' else '\'')
  {
    SingleToDoublePairs(s);
    ConvertFirstAt(s, 2 * (CountChar(s, '\'') / 2));
  }

  /** Converting the first `n` quotes leaves the others. */
  lemma {:induction false} ConvertFirstCount(s: string, n: nat)
    requires n <= CountChar(s, '\'')
    ensures CountChar(ConvertFirst(s, n), '\'') == CountChar(s, '\'') - n
    decreases |s|
  {
    if s != [] {
      if s[0] == '\'' && n > 0 {
        ConvertFirstCount(s[1..], n - 1);
        assert ("\"" + ConvertFirst(s[1..], n - 1))[1..] == ConvertFirst(s[1..], n - 1);
      } else {
        ConvertFirstCount(s[1..], n);
        assert ([s[0]] + ConvertFirst(s[1..], n))[1..] == ConvertFirst(s[1..], n);
      }
    }
  }

  /** At most one single quote is left unpaired: the last one, when their
      number is odd. */
  lemma SingleToDoubleLeftover(s: string)
    ensures CountChar(SingleToDouble(s), '\'') == CountChar(s, '\'') % 2
  {
    SingleToDoublePairs(s);
    ConvertFirstCount(s, 2 * (CountChar(s, '\'') / 2));
  }

  // ---------------------------------------------------------------------
  // The sentinels, read as tokens.

  /** The text seen as escaped quotes and other characters. */
  datatype Piece = EscSingle | EscDouble | Plain(c: char)

  function Tokenize(s: string): seq<Piece>
    decreases |s|
  {
    if StartsWith(s, BackslashSingle) then [EscSingle] + Tokenize(s[2..])
    else if StartsWith(s, BackslashDouble) then [EscDouble] + Tokenize(s[2..])
    else if s == [] then []
    else [Plain(s[0])] + Tokenize(s[1..])
  }

  /** A token written as in the source text. */
  function Render(ps: seq<Piece>): string
    decreases |ps|
  {
    if ps == [] then ""
    else
      (match ps[0]
        case EscSingle => BackslashSingle
        case EscDouble => BackslashDouble
        case Plain(c) => [c])
      + Render(ps[1..])
  }

  /** A token written with escaped quotes hidden behind sentinels. */
  function RenderProtected(ps: seq<Piece>): string
    decreases |ps|
  {
    if ps == [] then ""
    else
      (match ps[0]
        case EscSingle => SingleSentinel
        case EscDouble => DoubleSentinel
        case Plain(c) => [c])
      + RenderProtected(ps[1..])
  }

  /** Halfway through the restore: escaped single quotes are back, escaped
      double quotes still hidden. */
  function RenderHalf(ps: seq<Piece>): string
    decreases |ps|
  {
    if ps == [] then ""
    else
      (match ps[0]
        case EscSingle => BackslashSingle
        case EscDouble => DoubleSentinel
        case Plain(c) => [c])
      + RenderHalf(ps[1..])
  }

  predicate NoPlainUnderscore(ps: seq<Piece>) {
    forall i :: 0 <= i < |ps| ==> ps[i] != Plain('_')
  }

  function PlainQuotes(ps: seq<Piece>): nat
    decreases |ps|
  {
    if ps == [] then 0 else (if ps[0] == Plain('\'') then 1 else 0) + PlainQuotes(ps[1..])
  }

  /** The first `n` unescaped single quotes turned into double quotes. */
  function PairPieces(ps: seq<Piece>, n: nat): seq<Piece>
    decreases |ps|
  {
    if ps == [] then []
    else if ps[0] == Plain('\'') && n > 0 then [Plain('"')] + PairPieces(ps[1..], n - 1)
    else [ps[0]] + PairPieces(ps[1..], n)
  }

  /** Reading a text as tokens and writing them back gives the text. */
  lemma {:induction false} TokenizeRender(s: string)
    ensures Render(Tokenize(s)) == s
    decreases |s|
  {
    if StartsWith(s, BackslashSingle) || StartsWith(s, BackslashDouble) {
      TokenizeRender(s[2..]);
      assert s == s[..2] + s[2..];
    } else if s != [] {
      TokenizeRender(s[1..]);
    }
  }

  lemma {:induction false} TokenizeNoUnderscore(s: string)
    requires '_' !in s
    ensures NoPlainUnderscore(Tokenize(s))
    decreases |s|
  {
    if StartsWith(s, BackslashSingle) || StartsWith(s, BackslashDouble) {
      assert forall c :: c in s[2..] ==> c in s;
      TokenizeNoUnderscore(s[2..]);
    } else if s != [] {
      assert forall c :: c in s[1..] ==> c in s;
      TokenizeNoUnderscore(s[1..]);
    }
  }

  lemma {:induction false} PairPiecesNoUnderscore(ps: seq<Piece>, n: nat)
    requires NoPlainUnderscore(ps)
    ensures NoPlainUnderscore(PairPieces(ps, n))
    decreases |ps|
  {
    if ps != [] {
      PairPiecesNoUnderscore(ps[1..], if ps[0] == Plain('\'') && n > 0 then n - 1 else n);
    }
  }

  lemma SentinelFacts()
    ensures '\\' !in SingleSentinel && '\\' !in DoubleSentinel
    ensures '\'' !in SingleSentinel && '\'' !in DoubleSentinel
    ensures SingleSentinel[0] == '_' && SingleSentinel[1] == '_'
    ensures DoubleSentinel[0] == '_' && DoubleSentinel[1] == '_'
    ensures '_' !in BackslashSingle
  {
  }

  /** Hiding the escaped quotes writes every token with its sentinel. */
  lemma {:induction false} ProtectRendersSentinels(s: string)
    ensures Protect(s) == RenderProtected(Tokenize(s))
    decreases |s|
  {
    if StartsWith(s, BackslashSingle) {
      ProtectRendersSentinels(s[2..]);
      ProtectEscSingle(s[2..]);
      assert s == BackslashSingle + s[2..];
    } else if StartsWith(s, BackslashDouble) {
      ProtectRendersSentinels(s[2..]);
      ProtectEscDouble(s[2..]);
      assert s == BackslashDouble + s[2..];
    } else if s != [] {
      ProtectRendersSentinels(s[1..]);
      ProtectPlain(s);
    }
  }

  lemma ProtectEscSingle(t: string)
    ensures Protect(BackslashSingle + t) == SingleSentinel + Protect(t)
  {
    SentinelFacts();
    ReplaceAllAtMatch(t, BackslashSingle, SingleSentinel);
    ReplaceAllInertPrefix(SingleSentinel, ReplaceAll(t, BackslashSingle, SingleSentinel),
                          BackslashDouble, DoubleSentinel);
  }

  lemma ProtectEscDouble(t: string)
    ensures Protect(BackslashDouble + t) == DoubleSentinel + Protect(t)
  {
    var s := BackslashDouble + t;
    assert s == ['\\'] + (['"'] + t);
    ReplaceAllSkip('\\', ['"'] + t, BackslashSingle, SingleSentinel);
    ReplaceAllSkip('"', t, BackslashSingle, SingleSentinel);
    var y := ReplaceAll(t, BackslashSingle, SingleSentinel);
    assert ReplaceAll(s, BackslashSingle, SingleSentinel) == BackslashDouble + y;
    ReplaceAllAtMatch(y, BackslashDouble, DoubleSentinel);
  }

  lemma ProtectPlain(s: string)
    requires s != [] && !StartsWith(s, BackslashSingle) && !StartsWith(s, BackslashDouble)
    ensures Protect(s) == [s[0]] + Protect(s[1..])
  {
    SentinelFacts();
    assert s == [s[0]] + s[1..];
    ReplaceAllSkip(s[0], s[1..], BackslashSingle, SingleSentinel);
    var y := ReplaceAll(s[1..], BackslashSingle, SingleSentinel);
    if s[0] == '\\' && y != [] {
      ReplaceAllHead(s[1..], BackslashSingle, SingleSentinel);
      assert y[0] != '"';
    }
    assert !StartsWith([s[0]] + y, BackslashDouble);
    ReplaceAllSkip(s[0], y, BackslashDouble, DoubleSentinel);
  }

  lemma {:induction false} ProtectedQuoteCount(ps: seq<Piece>)
    ensures CountChar(RenderProtected(ps), '\'') == PlainQuotes(ps)
    decreases |ps|
  {
    SentinelFacts();
    if ps != [] {
      ProtectedQuoteCount(ps[1..]);
      var head := match ps[0]
        case EscSingle => SingleSentinel
        case EscDouble => DoubleSentinel
        case Plain(c) => [c];
      CountCharAppend(head, RenderProtected(ps[1..]), '\'');
      CountCharAbsent(SingleSentinel, '\'');
      CountCharAbsent(DoubleSentinel, '\'');
    }
  }

  lemma {:induction false} ProtectedConvert(ps: seq<Piece>, n: nat)
    ensures ConvertFirst(RenderProtected(ps), n) == RenderProtected(PairPieces(ps, n))
    decreases |ps|
  {
    SentinelFacts();
    if ps != [] {
      var rest := RenderProtected(ps[1..]);
      match ps[0]
      case EscSingle =>
        ProtectedConvert(ps[1..], n);
        ConvertFirstInert(SingleSentinel, rest, n);
      case EscDouble =>
        ProtectedConvert(ps[1..], n);
        ConvertFirstInert(DoubleSentinel, rest, n);
      case Plain(c) =>
        var n' := if c == '\'' && n > 0 then n - 1 else n;
        ProtectedConvert(ps[1..], n');
        assert ([c] + rest)[1..] == rest;
    }
  }

  // ---------------------------------------------------------------------
  // Putting the sentinels back.

  /** An underscore at the front of a protected text opens a sentinel, so a
      second underscore follows it. */
  predicate UnderscorePaired(y: string) {
    |y| > 0 && y[0] == '_' ==> |y| > 1 && y[1] == '_'
  }

  lemma ProtectedUnderscore(ps: seq<Piece>)
    requires NoPlainUnderscore(ps)
    ensures UnderscorePaired(RenderProtected(ps))
  {
    SentinelFacts();
    if ps != [] {
      var rest := RenderProtected(ps[1..]);
      match ps[0]
      case EscSingle => assert (SingleSentinel + rest)[..2] == SingleSentinel[..2];
      case EscDouble => assert (DoubleSentinel + rest)[..2] == DoubleSentinel[..2];
      case Plain(c) => assert ps[0] == ps[0];
    }
  }

  /** A protected text that starts with underscore-free characters starts
      with that many plain tokens. */
  lemma {:induction false} ProtectedPlainPrefix(ps: seq<Piece>, w: string)
    requires NoPlainUnderscore(ps) && '_' !in w && StartsWith(RenderProtected(ps), w)
    ensures |w| <= |ps| && RenderProtected(ps)[|w|..] == RenderProtected(ps[|w|..])
    ensures NoPlainUnderscore(ps[|w|..])
    decreases |w|
  {
    if w != [] {
      ProtectedPlainHead(ps, w);
      var rest := RenderProtected(ps[1..]);
      StartsWithTail(ps[0].c, rest, w);
      ProtectedPlainPrefix(ps[1..], w[1..]);
      ProtectedPlainStep(ps, ps[0].c, rest, |w| - 1);
    }
  }

  /** A protected text that starts with a character other than an
      underscore starts with a plain token. */
  lemma ProtectedPlainHead(ps: seq<Piece>, w: string)
    requires '_' !in w && w != [] && StartsWith(RenderProtected(ps), w)
    ensures ps != [] && ps[0].Plain? && ps[0].c == w[0]
    ensures RenderProtected(ps) == [ps[0].c] + RenderProtected(ps[1..])
    ensures '_' !in w[1..]
  {
    var y := RenderProtected(ps);
    assert y[0] == w[0] && w[0] in w;
    ProtectedHead(ps);
    assert forall x :: x in w[1..] ==> x in w;
  }

  /** Dropping one plain token and then `k` more pieces. */
  lemma ProtectedPlainStep(ps: seq<Piece>, c: char, rest: string, k: nat)
    requires ps != [] && RenderProtected(ps) == [c] + rest && rest == RenderProtected(ps[1..])
    requires k <= |ps[1..]| && k <= |rest| && rest[k..] == RenderProtected(ps[1..][k..])
    requires NoPlainUnderscore(ps[1..][k..])
    ensures k + 1 <= |ps| && RenderProtected(ps)[k + 1..] == RenderProtected(ps[k + 1..])
    ensures NoPlainUnderscore(ps[k + 1..])
  {
    assert ps[1..][k..] == ps[k + 1..];
    assert ([c] + rest)[k + 1..] == rest[k..];
  }

  /** The first character of a protected text: a plain token's character,
      or the underscore of a sentinel. */
  lemma ProtectedHead(ps: seq<Piece>)
    requires ps != [] && |RenderProtected(ps)| > 0
    ensures RenderProtected(ps)[0] == (if ps[0].Plain? then ps[0].c else '_')
  {
    SentinelFacts();
  }

  const EscapedWord: string := "ESCAPED"

  /** A protected text never starts with the middle of a single-quote
      sentinel. */
  lemma ProtectedNoSentinelMiddle(ps: seq<Piece>)
    requires NoPlainUnderscore(ps)
    ensures !StartsWith(RenderProtected(ps), EscapedWord + "_S")
  {
    var y := RenderProtected(ps);
    if StartsWith(y, EscapedWord) {
      ProtectedPlainPrefix(ps, EscapedWord);
      ProtectedUnderscore(ps[7..]);
      if |y| >= 9 {
        assert y[7..][0] == y[7] && y[7..][1] == y[8];
        assert y[7] != '_' || y[8] != 'S';
      }
    } else if |y| >= 9 {
      assert y[..9][..7] == y[..7];
    }
  }

  /** Restoring single quotes leaves a double-quote sentinel alone, provided
      what follows it does not begin the rest of a single-quote sentinel. */
  lemma PassDoubleSentinel(y: string)
    requires UnderscorePaired(y) && !StartsWith(y, EscapedWord + "_S")
    ensures RestoreSingle(DoubleSentinel + y) == DoubleSentinel + RestoreSingle(y)
  {
    var t7 := "QUOTE" + ("__" + y);
    var t5 := "DOUBLE" + ("_" + t7);
    var t3 := EscapedWord + ("_" + t5);
    ClosingUnderscores(y);
    InertWord("QUOTE", "__" + y);
    UnderscoreBeforeLetter(t7);
    InertWord("DOUBLE", "_" + t7);
    UnderscoreBeforeLetter(t5);
    InertWord(EscapedWord, "_" + t5);
    UnderscoreBeforeLetter(t3);
    assert t3[8] == 'D';
    OpeningUnderscore(t3);
    DoubleSentinelWords(y);
    DoubleSentinelWords(RestoreSingle(y));
  }

  lemma DoubleSentinelWords(y: string)
    ensures DoubleSentinel + y
      == "_" + ("_" + (EscapedWord + ("_" + ("DOUBLE" + ("_" + ("QUOTE" + ("__" + y)))))))
  {
    assert DoubleSentinel == "_" + "_" + EscapedWord + "_" + "DOUBLE" + "_" + "QUOTE" + "__";
  }

  lemma InertWord(w: string, b: string)
    requires '_' !in w
    ensures RestoreSingle(w + b) == w + RestoreSingle(b)
  {
    SentinelFacts();
    ReplaceAllInertPrefix(w, b, SingleSentinel, BackslashSingle);
  }

  /** An underscore followed by another character is not a sentinel start. */
  lemma UnderscoreBeforeLetter(b: string)
    requires b != [] && b[0] != '_'
    ensures RestoreSingle("_" + b) == "_" + RestoreSingle(b)
  {
    SentinelFacts();
    assert ("_" + b)[1] == b[0];
    ReplaceAllSkip('_', b, SingleSentinel, BackslashSingle);
  }

  lemma ClosingUnderscores(y: string)
    requires UnderscorePaired(y) && !StartsWith(y, EscapedWord + "_S")
    ensures RestoreSingle("__" + y) == "__" + RestoreSingle(y)
  {
    SentinelFacts();
    var S := SingleSentinel;
    assert S[2] == 'E';
    assert |y| >= 2 ==> (y[0] != '_' || y[1] != 'E');
    assert ("_" + y)[1..] == y;
    ReplaceAllSkip('_', y, S, BackslashSingle);
    assert S[2..11] == EscapedWord + "_S";
    assert |y| >= 22 ==> ("__" + y)[..24][2..11] == y[..9];
    assert "__" + y == "_" + ("_" + y);
    ReplaceAllSkip('_', "_" + y, S, BackslashSingle);
  }

  /** The opening underscores of a double-quote sentinel: the word after
      them is `ESCAPED_D`, not `ESCAPED_S`. */
  lemma OpeningUnderscore(t3: string)
    requires |t3| > 8 && t3[8] == 'D'
    ensures RestoreSingle("_" + ("_" + t3)) == "_" + RestoreSingle("_" + t3)
  {
    SentinelFacts();
    assert SingleSentinel[10] == 'S';
    assert ("_" + ("_" + t3))[10] == 'D';
    ReplaceAllSkip('_', "_" + t3, SingleSentinel, BackslashSingle);
  }

  lemma {:induction false} RestoreSingleProtected(ps: seq<Piece>)
    requires NoPlainUnderscore(ps)
    ensures RestoreSingle(RenderProtected(ps)) == RenderHalf(ps)
    decreases |ps|
  {
    SentinelFacts();
    if ps != [] {
      var rest := RenderProtected(ps[1..]);
      RestoreSingleProtected(ps[1..]);
      match ps[0]
      case EscSingle =>
        ReplaceAllAtMatch(rest, SingleSentinel, BackslashSingle);
      case EscDouble =>
        ProtectedUnderscore(ps[1..]);
        ProtectedNoSentinelMiddle(ps[1..]);
        PassDoubleSentinel(rest);
      case Plain(c) =>
        assert ps[0] in ps;
        ReplaceAllInertPrefix([c], rest, SingleSentinel, BackslashSingle);
    }
  }

  lemma {:induction false} RestoreDoubleHalf(ps: seq<Piece>)
    requires NoPlainUnderscore(ps)
    ensures RestoreDouble(RenderHalf(ps)) == Render(ps)
    decreases |ps|
  {
    SentinelFacts();
    if ps != [] {
      var rest := RenderHalf(ps[1..]);
      RestoreDoubleHalf(ps[1..]);
      match ps[0]
      case EscSingle =>
        ReplaceAllInertPrefix(BackslashSingle, rest, DoubleSentinel, BackslashDouble);
      case EscDouble =>
        ReplaceAllAtMatch(rest, DoubleSentinel, BackslashDouble);
      case Plain(c) =>
        assert ps[0] in ps;
        ReplaceAllInertPrefix([c], rest, DoubleSentinel, BackslashDouble);
    }
  }

  /** Step 3 on a text without underscores: escaped quotes come back exactly
      as they were, and the unescaped single quotes are paired into double
      quotes as if the escaped ones were not there. */
  lemma QuoteStepTokens(s: string)
    requires '_' !in s
    ensures var ps := Tokenize(s);
      QuoteStep(s) == Render(PairPieces(ps, 2 * (PlainQuotes(ps) / 2)))
  {
    var ps := Tokenize(s);
    var n := 2 * (PlainQuotes(ps) / 2);
    ProtectRendersSentinels(s);
    ProtectedQuoteCount(ps);
    SingleToDoublePairs(RenderProtected(ps));
    ProtectedConvert(ps, n);
    TokenizeNoUnderscore(s);
    PairPiecesNoUnderscore(ps, n);
    RestoreSingleProtected(PairPieces(ps, n));
    RestoreDoubleHalf(PairPieces(ps, n));
  }

  lemma {:induction false} PairPiecesZero(ps: seq<Piece>)
    ensures PairPieces(ps, 0) == ps
    decreases |ps|
  {
    if ps != [] {
      PairPiecesZero(ps[1..]);
    }
  }

  /** With fewer than two unescaped single quotes there is nothing to pair,
      and step 3 gives back its input. */
  lemma QuoteStepNothingToPair(s: string)
    requires '_' !in s && PlainQuotes(Tokenize(s)) < 2
    ensures QuoteStep(s) == s
  {
    var ps := Tokenize(s);
    QuoteStepTokens(s);
    assert 2 * (PlainQuotes(ps) / 2) == 0;
    PairPiecesZero(ps);
    TokenizeRender(s);
  }

  /** Text with no backslash, underscore or single quote passes unchanged. */
  lemma QuoteStepPlain(s: string)
    requires '\\' !in s && '_' !in s && '\'' !in s
    ensures QuoteStep(s) == s
  {
    assert BackslashSingle[0] == '\\' && BackslashDouble[0] == '\\';
    ReplaceAllAbsent(s, BackslashSingle, SingleSentinel);
    ReplaceAllAbsent(s, BackslashDouble, DoubleSentinel);
    SingleToDoubleAbsent(s);
    assert SingleSentinel[0] == '_' && DoubleSentinel[0] == '_';
    ReplaceAllAbsent(s, SingleSentinel, BackslashSingle);
    ReplaceAllAbsent(s, DoubleSentinel, BackslashDouble);
  }

  /** Keeping clear of whole sentinels is not enough: a text that ends with
      the first 23 characters of a sentinel and an escaped single quote comes
      back with the escape moved to the front. */
  const SentinelFragment: string := "__ESCAPED_" + "SINGLE" + "_QUOTE_"
  const ShiftedFragment: string := "_ESCAPED_" + "SINGLE" + "_QUOTE__"

  lemma SentinelFragmentBreaks()
    ensures !Contains(SentinelFragment + BackslashSingle, SingleSentinel)
    ensures !Contains(SentinelFragment + BackslashSingle, DoubleSentinel)
    ensures QuoteStep(SentinelFragment + BackslashSingle) == BackslashSingle + ShiftedFragment
    ensures QuoteStep(SentinelFragment + BackslashSingle) != SentinelFragment + BackslashSingle
  {
    FragmentHasNoSentinel();
    FragmentProtected();
    var p := SingleSentinel + ShiftedFragment;
    SentinelFacts();
    assert '\'' !in p;
    SingleToDoubleAbsent(p);
    ShiftedRestored();
    assert (SentinelFragment + BackslashSingle)[0] == '_';
  }

  lemma FragmentHasNoSentinel()
    ensures !Contains(SentinelFragment + BackslashSingle, SingleSentinel)
    ensures !Contains(SentinelFragment + BackslashSingle, DoubleSentinel)
  {
    SentinelFacts();
    var s := SentinelFragment + BackslashSingle;
    assert s[..24][23] == '\\' && SingleSentinel[23] == '_';
    assert s[1..][..24][23] == '\'';
    assert s[1..][1..] == s[2..];
    ContainsTooShort(s[2..], SingleSentinel);
    assert 'B' !in s && DoubleSentinel[13] == 'B';
    ContainsNeedsChar(s, DoubleSentinel, 13);
  }

  lemma FragmentProtected()
    ensures Protect(SentinelFragment + BackslashSingle) == SingleSentinel + ShiftedFragment
  {
    FragmentFirstPass();
    var p := SentinelFragment + SingleSentinel;
    FragmentNoBackslash();
    ReplaceAllAbsent(p, BackslashDouble, DoubleSentinel);
    FragmentShift();
  }

  lemma FragmentFirstPass()
    ensures ReplaceAll(SentinelFragment + BackslashSingle, BackslashSingle, SingleSentinel)
            == SentinelFragment + SingleSentinel
  {
    assert '\\' !in SentinelFragment;
    ReplaceAllInertPrefix(SentinelFragment, BackslashSingle, BackslashSingle, SingleSentinel);
    ReplaceAllAtMatch([], BackslashSingle, SingleSentinel);
    assert BackslashSingle + [] == BackslashSingle && SingleSentinel + [] == SingleSentinel;
  }

  lemma FragmentNoBackslash()
    ensures '\\' !in SentinelFragment + SingleSentinel
  {
    SentinelFacts();
  }

  lemma FragmentShift()
    ensures SentinelFragment + SingleSentinel == SingleSentinel + ShiftedFragment
  {
    assert "_QUOTE_" + "__ESCAPED_" == "_QUOTE__" + "_ESCAPED_";
  }

  lemma ShiftedRestored()
    ensures Restore(SingleSentinel + ShiftedFragment) == BackslashSingle + ShiftedFragment
  {
    SentinelFacts();
    ReplaceAllAtMatch(ShiftedFragment, SingleSentinel, BackslashSingle);
    ReplaceAllShort(ShiftedFragment, SingleSentinel, BackslashSingle);
    ReplaceAllInertPrefix(BackslashSingle, ShiftedFragment, DoubleSentinel, BackslashDouble);
    ReplaceAllShort(ShiftedFragment, DoubleSentinel, BackslashDouble);
  }
}
