/**
 * `clean_json_response` of cyber_query_ai/helpers.py: the chain of textual
 * repairs applied to an LLM reply before it is parsed as JSON.  Every `re.sub`
 * and `str.replace` of the chain is one function here, scanning left to
 * right and never re-reading text it has produced, as Python's do.
 */
module JsonRepair {
  import opened Wrappers
  import opened Text
  import opened QuoteConversion

  const JsonFence: string := "```json"
  const Fence: string := "```"

  // ---------------------------------------------------------------------
  // Markdown fences around the whole reply.

  /** `re.sub(r"```json\s*", "", s)`: every opening fence goes, together with
      the whitespace after it. */
  function StripJsonFences(s: string): string
    decreases |s|
  {
    if StartsWith(s, JsonFence) then StripJsonFences(TrimStart(s[|JsonFence|..]))
    else if s == [] then [] else [s[0]] + StripJsonFences(s[1..])
  }

  /** Text without an opening fence is left as it is. */
  lemma {:induction false} StripJsonFencesAbsent(s: string)
    requires !Contains(s, JsonFence)
    ensures StripJsonFences(s) == s
    decreases |s|
  {
    if s != [] {
      StripJsonFencesAbsent(s[1..]);
    }
  }

  /** A prefix without backticks is kept as it is. */
  lemma {:induction false} StripJsonFencesInert(a: string, b: string)
    requires '`' !in a
    ensures StripJsonFences(a + b) == a + StripJsonFences(b)
    decreases |a|
  {
    if a == [] {
      assert a + b == b;
    } else {
      StripJsonFencesInert(a[1..], b);
      StripJsonFencesCons(a[0], a[1..], b);
      SplitFirst(a, b);
      SplitFirst(a, StripJsonFences(b));
    }
  }

  lemma StripJsonFencesCons(c: char, r: string, b: string)
    requires c != '`'
    requires StripJsonFences(r + b) == r + StripJsonFences(b)
    ensures StripJsonFences([c] + (r + b)) == [c] + (r + StripJsonFences(b))
  {
    StripJsonFencesStep(c, r + b);
  }

  /** A character other than a backtick is copied. */
  lemma StripJsonFencesStep(c: char, t: string)
    requires c != '`'
    ensures StripJsonFences([c] + t) == [c] + StripJsonFences(t)
  {
    var s := [c] + t;
    assert s[0] == c && s[1..] == t;
    assert !StartsWith(s, JsonFence) by {
      assert JsonFence[0] == '`';
    }
  }

  /** An opening fence and the whitespace after it are dropped. */
  lemma StripJsonFencesOpening(w: string, b: string)
    requires AllSpace(w) && (b == [] || !IsSpace(b[0]))
    ensures StripJsonFences(JsonFence + w + b) == StripJsonFences(b)
  {
    var s := JsonFence + w + b;
    assert s[..|JsonFence|] == JsonFence && s[|JsonFence|..] == w + b;
    TrimStartSpacePrefix(w, b);
  }

  /** The rest of a text after a closing fence: only whitespace follows it, so
      that `\s*$` can match. */
  predicate IsFenceTail(t: string) {
    StartsWith(t, Fence) && AllSpace(t[|Fence|..])
  }

  /** `re.sub(r"```\s*$", "", s)`: the text is cut at the leftmost fence that
      only whitespace follows, or kept whole when there is none. */
  function StripClosingFence(s: string): (r: string)
    ensures |r| <= |s| && r == s[..|r|]
    ensures |r| < |s| ==> IsFenceTail(s[|r|..])
    ensures forall p :: 0 <= p < |r| ==> !IsFenceTail(s[p..])
    decreases |s|
  {
    if IsFenceTail(s) || s == [] then []
    else
      var r' := StripClosingFence(s[1..]);
      StripClosingFenceExtend(s, r');
      [s[0]] + r'
  }

  /** The cut point of `s[1..]` is the cut point of `s`, one further on. */
  lemma StripClosingFenceExtend(s: string, r': string)
    requires |s| > 0 && !IsFenceTail(s)
    requires |r'| <= |s| - 1 && r' == s[1..][..|r'|]
    requires |r'| < |s| - 1 ==> IsFenceTail(s[1..][|r'|..])
    requires forall p :: 0 <= p < |r'| ==> !IsFenceTail(s[1..][p..])
    ensures |[s[0]] + r'| <= |s| && [s[0]] + r' == s[..|r'| + 1]
    ensures |r'| + 1 < |s| ==> IsFenceTail(s[|r'| + 1..])
    ensures forall p :: 0 <= p < |r'| + 1 ==> !IsFenceTail(s[p..])
  {
    assert s[1..][..|r'|] == s[1..|r'| + 1];
    assert s[|r'| + 1..] == s[1..][|r'|..];
    forall p | 1 <= p < |r'| + 1
      ensures !IsFenceTail(s[p..])
    {
      assert s[p..] == s[1..][p - 1..];
    }
  }

  /** A closing fence after backtick-free text is cut off with the whitespace
      behind it. */
  lemma StripClosingFenceAt(b: string, w: string)
    requires '`' !in b && AllSpace(w)
    ensures StripClosingFence(b + Fence + w) == b
  {
    FenceTail(w);
    assert StripClosingFence(Fence + w) == [];
    StripClosingFenceInert(b, Fence + w);
    assert b + Fence + w == b + (Fence + w);
    assert b + [] == b;
  }

  /** A backtick-free prefix is never where the cut happens. */
  lemma {:induction false} StripClosingFenceInert(a: string, b: string)
    requires '`' !in a
    ensures StripClosingFence(a + b) == a + StripClosingFence(b)
    decreases |a|
  {
    if a == [] {
      assert a + b == b;
    } else {
      StripClosingFenceInert(a[1..], b);
      StripClosingFenceCons(a[0], a[1..], b);
      SplitFirst(a, b);
      SplitFirst(a, StripClosingFence(b));
    }
  }

  lemma StripClosingFenceCons(c: char, r: string, b: string)
    requires c != '`'
    requires StripClosingFence(r + b) == r + StripClosingFence(b)
    ensures StripClosingFence([c] + (r + b)) == [c] + (r + StripClosingFence(b))
  {
    StripClosingFenceStep(c, r + b);
  }

  /** A character other than a backtick is kept. */
  lemma StripClosingFenceStep(c: char, t: string)
    requires c != '`'
    ensures StripClosingFence([c] + t) == [c] + StripClosingFence(t)
  {
    var s := [c] + t;
    assert s[0] == c && s[1..] == t;
    assert !StartsWith(s, Fence) by {
      assert Fence[0] == '`';
    }
  }

  lemma FenceTail(w: string)
    requires AllSpace(w)
    ensures IsFenceTail(Fence + w)
  {
    assert (Fence + w)[..|Fence|] == Fence && (Fence + w)[|Fence|..] == w;
  }

  /** Backtick-free text has no closing fence to cut. */
  lemma StripClosingFenceAbsent(s: string)
    requires '`' !in s
    ensures StripClosingFence(s) == s
  {
    assert forall p :: 0 <= p < |s| ==> s[p..][0] == s[p];
  }

  /** Both fence substitutions, in source order. */
  function StripFences(s: string): string {
    StripClosingFence(StripJsonFences(s))
  }

  /** A reply wrapped in a ```json block is unwrapped to its body. */
  lemma StripFencesBlock(w1: string, body: string, w2: string)
    requires AllSpace(w1) && AllSpace(w2) && '`' !in body
    requires body == [] || !IsSpace(body[0])
    ensures StripFences(JsonFence + w1 + body + Fence + w2) == body
  {
    var closing := Fence + w2;
    var tail := body + closing;
    BlockParts(JsonFence + w1, body, Fence, w2);
    assert Fence[0] == '`';
    HeadOfAppend(body, closing);
    StripJsonFencesOpening(w1, tail);
    StripJsonFencesInert(body, closing);
    StripJsonFencesClosing(w2);
    ConcatAssoc(body, Fence, w2);
    StripClosingFenceAt(body, w2);
  }

  lemma BlockParts(a: string, b: string, c: string, d: string)
    ensures a + b + c + d == a + (b + (c + d))
  {
  }

  lemma HeadOfAppend(a: string, b: string)
    requires b != []
    ensures (a + b)[0] == (if a == [] then b[0] else a[0])
  {
  }

  /** A closing fence is not an opening one. */
  lemma StripJsonFencesClosing(w: string)
    requires AllSpace(w)
    ensures StripJsonFences(Fence + w) == Fence + w
  {
    assert forall i :: 0 <= i < |w| ==> w[i] != 'j';
    assert 'j' !in Fence + w;
    assert JsonFence[3] == 'j';
    ContainsNeedsChar(Fence + w, JsonFence, 3);
    StripJsonFencesAbsent(Fence + w);
  }

  // ---------------------------------------------------------------------
  // Step 1: backticks inside string values.

  const PythonFence: string := "```python"
  const EscapedPythonFence: string := "```\\npython"

  /** The two `str.replace` calls of step 1. */
  function RemoveBackticks(s: string): (r: string)
    ensures !Contains(r, Fence)
  {
    var t := ReplaceAll(s, PythonFence, EscapedPythonFence);
    NoFenceAfterRemoval(t);
    ReplaceAll(t, Fence, "")
  }

  /** Deleting every triple backtick left to right leaves no triple backtick:
      each run of backticks keeps only its length modulo three. */
  lemma {:induction false} NoFenceAfterRemoval(s: string)
    ensures !Contains(ReplaceAll(s, Fence, ""), Fence)
    decreases |s|
  {
    var r := ReplaceAll(s, Fence, "");
    if |s| < |Fence| {
      ContainsTooShort(s, Fence);
    } else if s[..|Fence|] == Fence {
      NoFenceAfterRemoval(s[|Fence|..]);
      assert r == ReplaceAll(s[|Fence|..], Fence, "");
    } else {
      var y := ReplaceAll(s[1..], Fence, "");
      assert r == [s[0]] + y;
      NoFenceAfterRemoval(s[1..]);
      assert r[1..] == y;
      assert s[..3] == [s[0], s[1], s[2]];
      if s[0] == '`' {
        assert s[1..] == [s[1]] + s[2..];
        if s[1] != '`' {
          ReplaceAllSkip(s[1], s[2..], Fence, "");
          assert y[0] != '`';
        } else {
          assert s[2] != '`';
          assert |s| >= 4 ==> s[1..][..3][1] == s[2];
          ReplaceAllSkip(s[1], s[2..], Fence, "");
          assert s[2..] == [s[2]] + s[3..];
          assert |s| >= 5 ==> s[2..][..3][0] == s[2];
          ReplaceAllSkip(s[2], s[3..], Fence, "");
          assert y[1] != '`';
        }
      }
      assert !StartsWith(r, Fence);
    }
  }

  // ---------------------------------------------------------------------
  // Step 2: escaped double quotes the model meant as apostrophes.

  /** A backslash followed by a double quote. */
  const EscapedQuote: string := "\\\""

  /** `r` is `s` with some escaped double quotes turned into apostrophes and
      everything else kept: the only edit step 2 makes. */
  predicate QuoteEdited(s: string, r: string)
    decreases |s|
  {
    if s == [] then r == []
    else if r == [] then false
    else
      (r[0] == s[0] && QuoteEdited(s[1..], r[1..]))
      || (StartsWith(s, EscapedQuote) && r[0] == '\'' && QuoteEdited(s[2..], r[1..]))
  }

  lemma {:induction false} QuoteEditedRefl(s: string)
    ensures QuoteEdited(s, s)
    decreases |s|
  {
    if s != [] {
      QuoteEditedRefl(s[1..]);
    }
  }

  /** A common prefix may be kept. */
  lemma {:induction false} QuoteEditedKeep(x: string, s: string, r: string)
    requires QuoteEdited(s, r)
    ensures QuoteEdited(x + s, x + r)
    decreases |x|
  {
    if x == [] {
      assert x + s == s && x + r == r;
    } else {
      assert (x + s)[1..] == x[1..] + s && (x + r)[1..] == x[1..] + r;
      QuoteEditedKeep(x[1..], s, r);
    }
  }

  /** An escaped quote may become an apostrophe. */
  lemma QuoteEditedApostrophe(s: string, r: string)
    requires QuoteEdited(s, r)
    ensures QuoteEdited(EscapedQuote + s, "'" + r)
  {
    var s' := EscapedQuote + s;
    assert s'[..2] == EscapedQuote && s'[2..] == s && ("'" + r)[1..] == r;
  }

  /** Edits compose: two rounds of step-2 edits are one round. */
  lemma {:induction false} QuoteEditedTrans(a: string, b: string, c: string)
    requires QuoteEdited(a, b) && QuoteEdited(b, c)
    ensures QuoteEdited(a, c)
    decreases |a|
  {
    if a != [] {
      if b[0] == a[0] && QuoteEdited(a[1..], b[1..]) {
        if c[0] == b[0] && QuoteEdited(b[1..], c[1..]) {
          QuoteEditedTrans(a[1..], b[1..], c[1..]);
        } else {
          assert StartsWith(b, EscapedQuote) && QuoteEdited(b[2..], c[1..]);
          assert b[1] == '"';
          assert a[1..] != [] && b[1..][0] == '"';
          assert StartsWith(a, EscapedQuote) by {
            assert a[1..][0] == '"';
          }
          assert QuoteEdited(a[2..], b[2..]) by {
            assert a[1..][1..] == a[2..] && b[1..][1..] == b[2..];
          }
          QuoteEditedTrans(a[2..], b[2..], c[1..]);
        }
      } else {
        assert StartsWith(a, EscapedQuote) && b[0] == '\'' && QuoteEdited(a[2..], b[1..]);
        assert c[0] == b[0] && QuoteEdited(b[1..], c[1..]);
        QuoteEditedTrans(a[2..], b[1..], c[1..]);
      }
    }
  }

  const ClientEscaped: string := "client" + EscapedQuote + "s"
  const ClientApostrophe: string := "client" + "'" + "s"

  /** `re.sub(r'client\\"s', "client's", s)`. */
  function FixClientQuote(s: string): (r: string)
    ensures QuoteEdited(s, r)
  {
    ClientQuoteEdited(s);
    ReplaceAll(s, ClientEscaped, ClientApostrophe)
  }

  lemma {:induction false} ClientQuoteEdited(s: string)
    ensures QuoteEdited(s, ReplaceAll(s, ClientEscaped, ClientApostrophe))
    decreases |s|
  {
    var n := |ClientEscaped|;
    if |s| < n {
      QuoteEditedRefl(s);
    } else if s[..n] == ClientEscaped {
      var rest := s[n..];
      ClientQuoteEdited(rest);
      var rr := ReplaceAll(rest, ClientEscaped, ClientApostrophe);
      assert ReplaceAll(s, ClientEscaped, ClientApostrophe) == ClientApostrophe + rr;
      assert s == ClientEscaped + rest;
      ClientMatchEdited(rest, rr);
    } else {
      ClientQuoteEdited(s[1..]);
      QuoteEditedKeep([s[0]], s[1..], ReplaceAll(s[1..], ClientEscaped, ClientApostrophe));
      assert s == [s[0]] + s[1..];
    }
  }

  lemma ClientMatchEdited(rest: string, rr: string)
    requires QuoteEdited(rest, rr)
    ensures QuoteEdited(ClientEscaped + rest, ClientApostrophe + rr)
  {
    QuoteEditedKeep("s", rest, rr);
    QuoteEditedApostrophe("s" + rest, "s" + rr);
    QuoteEditedKeep("client", EscapedQuote + ("s" + rest), "'" + ("s" + rr));
    assert ClientEscaped + rest == "client" + (EscapedQuote + ("s" + rest));
    assert ClientApostrophe + rr == "client" + ("'" + ("s" + rr));
  }

  /** A word character, an escaped quote and a word character: the text
      `(\w)\\"(\w)` matches. */
  predicate ContractionAt(s: string) {
    |s| >= 4 && IsWordChar(s[0]) && s[1] == '\\' && s[2] == '"' && IsWordChar(s[3])
  }

  /** `re.sub(r'(\w)\\"(\w)', r"\1'\2", s)`: `don\"t` becomes `don't`. */
  function FixContractions(s: string): (r: string)
    ensures QuoteEdited(s, r)
    decreases |s|
  {
    if ContractionAt(s) then
      var rest := FixContractions(s[4..]);
      QuoteEditedKeep([s[3]], s[4..], rest);
      QuoteEditedApostrophe([s[3]] + s[4..], [s[3]] + rest);
      QuoteEditedKeep([s[0]], EscapedQuote + ([s[3]] + s[4..]), "'" + ([s[3]] + rest));
      assert s == [s[0]] + (EscapedQuote + ([s[3]] + s[4..]));
      [s[0], '\'', s[3]] + rest
    else if s == [] then []
    else
      var rest := FixContractions(s[1..]);
      QuoteEditedKeep([s[0]], s[1..], rest);
      assert s == [s[0]] + s[1..];
      [s[0]] + rest
  }

  /** An escaped quote in front of a word character: `\\"(\w)` matches. */
  predicate QuoteBeforeWordAt(s: string) {
    |s| >= 3 && s[0] == '\\' && s[1] == '"' && IsWordChar(s[2])
  }

  predicate NoQuoteBeforeWord(s: string) {
    forall i :: 0 <= i < |s| ==> !QuoteBeforeWordAt(s[i..])
  }

  /** `re.sub(r'\\"(\w)', r"'\1", s)`: `\"Hello` becomes `'Hello`, and no
      escaped quote is left in front of a word character. */
  function QuoteBeforeWord(s: string): (r: string)
    ensures QuoteEdited(s, r)
    ensures NoQuoteBeforeWord(r)
    ensures |r| == 0 <==> |s| == 0
    ensures |s| > 0 ==> r[0] == (if QuoteBeforeWordAt(s) then '\'' else s[0])
    decreases |s|
  {
    if QuoteBeforeWordAt(s) then
      var rest := QuoteBeforeWord(s[3..]);
      QuoteEditedKeep([s[2]], s[3..], rest);
      QuoteEditedApostrophe([s[2]] + s[3..], [s[2]] + rest);
      assert s == EscapedQuote + ([s[2]] + s[3..]);
      var r := ['\'', s[2]] + rest;
      assert forall i :: 2 <= i < |r| ==> r[i..] == rest[i - 2..];
      r
    else if s == [] then []
    else
      var rest := QuoteBeforeWord(s[1..]);
      QuoteEditedKeep([s[0]], s[1..], rest);
      assert s == [s[0]] + s[1..];
      var r := [s[0]] + rest;
      assert forall i :: 1 <= i < |r| ==> r[i..] == rest[i - 1..];
      assert !QuoteBeforeWordAt(r) by {
        if s[0] == '\\' && |rest| >= 2 && rest[0] == '"' {
          assert !QuoteBeforeWordAt(s[1..]) && s[1] == '"';
          assert s[1..][1..] == s[2..];
          assert rest == [s[1]] + QuoteBeforeWord(s[2..]);
          assert rest[1] == (if QuoteBeforeWordAt(s[2..]) then '\'' else s[2]);
        }
      }
      r
  }

  /** Without a backslash there is nothing for step 2 to edit. */
  lemma {:induction false} QuoteEditedPlain(s: string, r: string)
    requires QuoteEdited(s, r) && '\\' !in s
    ensures r == s
    decreases |s|
  {
    if s != [] {
      assert !StartsWith(s, EscapedQuote) by {
        if |s| >= 2 {
          assert s[..2][0] == s[0];
        }
      }
      assert '\\' !in s[1..] by {
        assert forall i :: 0 <= i < |s| - 1 ==> s[1..][i] == s[i + 1];
      }
      QuoteEditedPlain(s[1..], r[1..]);
      assert r == [r[0]] + r[1..] && s == [s[0]] + s[1..];
    }
  }

  /** The three substitutions of step 2, in source order: they only turn
      escaped quotes into apostrophes, and leave none in front of a word. */
  function FixQuoteArtifacts(s: string): (r: string)
    ensures QuoteEdited(s, r)
    ensures NoQuoteBeforeWord(r)
  {
    var a := FixClientQuote(s);
    var b := FixContractions(a);
    var r := QuoteBeforeWord(b);
    QuoteEditedTrans(s, a, b);
    QuoteEditedTrans(s, b, r);
    r
  }

  // ---------------------------------------------------------------------
  // Step 4: trailing commas.

  predicate IsCloser(c: char) { c == '}' || c == ']' }

  /** `\s*[}\]]` matches at the front of `t`. */
  predicate ClosesAfterSpace(t: string) {
    var u := TrimStart(t);
    u != [] && IsCloser(u[0])
  }

  /** A comma that `,(\s*[}\]])` matches. */
  predicate TrailingCommaAt(s: string) {
    |s| > 0 && s[0] == ',' && ClosesAfterSpace(s[1..])
  }

  function DropCommas(s: string): string
    decreases |s|
  {
    if s == [] then [] else (if s[0] == ',' then [] else [s[0]]) + DropCommas(s[1..])
  }

  /** How many commas of `s` are trailing ones. */
  function TrailingCommas(s: string): nat
    decreases |s|
  {
    if s == [] then 0 else (if TrailingCommaAt(s) then 1 else 0) + TrailingCommas(s[1..])
  }

  /** `re.sub(r",(\s*[}\]])", r"\1", s)`: a comma is dropped when only
      whitespace separates it from a closing bracket.  The regex resumes
      after the bracket it matched; resuming right after the comma instead
      gives the same text, since whitespace and brackets cannot start a
      match. */
  function RemoveTrailingCommas(s: string): (r: string)
    ensures DropCommas(r) == DropCommas(s)
    ensures CountChar(r, ',') + TrailingCommas(s) == CountChar(s, ',')
    decreases |s|
  {
    if s == [] then []
    else if TrailingCommaAt(s) then RemoveTrailingCommas(s[1..])
    else
      var rest := RemoveTrailingCommas(s[1..]);
      assert ([s[0]] + rest)[1..] == rest;
      [s[0]] + rest
  }

  /** A comma-free prefix passes through. */
  lemma {:induction false} RemoveTrailingCommasInert(a: string, b: string)
    requires ',' !in a
    ensures RemoveTrailingCommas(a + b) == a + RemoveTrailingCommas(b)
    decreases |a|
  {
    if a == [] {
      assert a + b == b;
    } else {
      RemoveTrailingCommasInert(a[1..], b);
      RemoveTrailingCommasCons(a[0], a[1..], b);
      SplitFirst(a, b);
      SplitFirst(a, RemoveTrailingCommas(b));
    }
  }

  lemma RemoveTrailingCommasCons(c: char, r: string, b: string)
    requires c != ','
    requires RemoveTrailingCommas(r + b) == r + RemoveTrailingCommas(b)
    ensures RemoveTrailingCommas([c] + (r + b)) == [c] + (r + RemoveTrailingCommas(b))
  {
    RemoveTrailingCommasStep(c, r + b);
  }

  /** A character other than a comma is copied. */
  lemma RemoveTrailingCommasStep(c: char, t: string)
    requires c != ','
    ensures RemoveTrailingCommas([c] + t) == [c] + RemoveTrailingCommas(t)
  {
    var s := [c] + t;
    assert s[0] == c && s[1..] == t;
  }

  /** Every position moved one place on. */
  function Shifted(idx: seq<nat>): (t: seq<nat>)
    ensures |t| == |idx|
    ensures forall j :: 0 <= j < |idx| ==> t[j] == idx[j] + 1
  {
    seq(|idx|, j requires 0 <= j < |idx| => idx[j] + 1)
  }

  /** `idx` lists, in increasing order, the positions of `s` that `out`
      copies, and they are the positions `i` where `drop(s[i..])` fails. */
  ghost predicate KeepsExactly(s: string, out: string, idx: seq<nat>, drop: string -> bool) {
    && |idx| == |out|
    && (forall j :: 0 <= j < |idx| ==> idx[j] < |s| && out[j] == s[idx[j]])
    && (forall j, k :: 0 <= j < k < |idx| ==> idx[j] < idx[k])
    && (forall i :: 0 <= i < |s| ==> (i in idx <==> !drop(s[i..])))
  }

  /** Which characters `RemoveTrailingCommas` keeps: the positions of `s`
      it copies, in order, are exactly those that do not hold a trailing
      comma. */
  function KeptPositions(s: string): (idx: seq<nat>)
    ensures KeepsExactly(s, RemoveTrailingCommas(s), idx, TrailingCommaAt)
    decreases |s|
  {
    if s == [] then []
    else
      var rest := KeptPositions(s[1..]);
      var sh := Shifted(rest);
      var out := RemoveTrailingCommas(s);
      var tail := RemoveTrailingCommas(s[1..]);
      if TrailingCommaAt(s) then
        assert out == tail;
        KeptDropped(s, tail, rest, sh, TrailingCommaAt);
        sh
      else
        assert out == [s[0]] + tail;
        KeptCopied(s, tail, rest, sh, TrailingCommaAt);
        [0] + sh
  }

  /** The tail's kept positions, moved on by one, seen from the whole
      text. */
  lemma KeptShifted(s: string, tail: string, rest: seq<nat>, sh: seq<nat>, drop: string -> bool)
    requires s != [] && KeepsExactly(s[1..], tail, rest, drop)
    requires |sh| == |rest| && forall j :: 0 <= j < |rest| ==> sh[j] == rest[j] + 1
    ensures forall j :: 0 <= j < |sh| ==> 0 < sh[j] < |s| && tail[j] == s[sh[j]]
    ensures forall j, k :: 0 <= j < k < |sh| ==> sh[j] < sh[k]
    ensures forall i :: 0 < i < |s| ==> (i in sh <==> !drop(s[i..]))
    ensures 0 !in sh
  {
    forall i | 0 < i < |s|
      ensures i in sh <==> !drop(s[i..])
    {
      assert s[1..][i - 1..] == s[i..];
      if i in sh {
        var j :| 0 <= j < |sh| && sh[j] == i;
        assert rest[j] == i - 1;
      }
      if i - 1 in rest {
        var j :| 0 <= j < |rest| && rest[j] == i - 1;
        assert sh[j] == i;
      }
    }
  }

  /** A dropped first character leaves the tail's positions, moved on. */
  lemma KeptDropped(s: string, tail: string, rest: seq<nat>, sh: seq<nat>, drop: string -> bool)
    requires s != [] && drop(s) && KeepsExactly(s[1..], tail, rest, drop)
    requires |sh| == |rest| && forall j :: 0 <= j < |rest| ==> sh[j] == rest[j] + 1
    ensures KeepsExactly(s, tail, sh, drop)
  {
    KeptShifted(s, tail, rest, sh, drop);
    assert s[0..] == s;
  }

  /** A copied first character puts position 0 in front. */
  lemma KeptCopied(s: string, tail: string, rest: seq<nat>, sh: seq<nat>, drop: string -> bool)
    requires s != [] && !drop(s) && KeepsExactly(s[1..], tail, rest, drop)
    requires |sh| == |rest| && forall j :: 0 <= j < |rest| ==> sh[j] == rest[j] + 1
    ensures KeepsExactly(s, [s[0]] + tail, [0] + sh, drop)
  {
    KeptShifted(s, tail, rest, sh, drop);
    assert s[0..] == s;
    var idx := [0] + sh;
    var out := [s[0]] + tail;
    forall j | 0 < j < |idx|
      ensures idx[j] == sh[j - 1] && out[j] == tail[j - 1]
    {
    }
  }

  /** Text without a trailing comma is kept as it is. */
  lemma {:induction false} RemoveTrailingCommasNone(s: string)
    requires TrailingCommas(s) == 0
    ensures RemoveTrailingCommas(s) == s
    decreases |s|
  {
    if s != [] {
      RemoveTrailingCommasNone(s[1..]);
    }
  }

  /** No comma is followed, after whitespace, by another comma. */
  predicate NoDoubledComma(s: string) {
    forall i :: 0 <= i < |s| && s[i] == ',' ==> !StartsWith(TrimStart(s[i + 1..]), ",")
  }

  predicate NoTrailingComma(s: string) {
    forall i :: 0 <= i < |s| ==> !TrailingCommaAt(s[i..])
  }

  /** Without doubled commas one pass removes every trailing comma. */
  lemma {:induction false} RemoveTrailingCommasComplete(s: string)
    requires NoDoubledComma(s)
    ensures NoTrailingComma(RemoveTrailingCommas(s))
    decreases |s|
  {
    if s != [] {
      assert forall i :: 1 <= i <= |s| ==> s[i..] == s[1..][i - 1..];
      assert NoDoubledComma(s[1..]) by {
        forall i | 0 <= i < |s[1..]| && s[1..][i] == ','
          ensures !StartsWith(TrimStart(s[1..][i + 1..]), ",")
        {
          assert s[1..][i + 1..] == s[i + 2..];
        }
      }
      RemoveTrailingCommasComplete(s[1..]);
      var rest := RemoveTrailingCommas(s[1..]);
      if !TrailingCommaAt(s) {
        var r := [s[0]] + rest;
        assert forall i :: 1 <= i < |r| ==> r[i..] == rest[i - 1..];
        if s[0] == ',' {
          CommaNotTrailingAfter(s[1..]);
          assert r[1..] == rest;
        }
      }
    }
  }

  /** A comma that is neither trailing nor followed by another comma stays
      non-trailing once the rest is cleaned. */
  lemma CommaNotTrailingAfter(t: string)
    requires !ClosesAfterSpace(t) && !StartsWith(TrimStart(t), ",")
    ensures !ClosesAfterSpace(RemoveTrailingCommas(t))
  {
    var u := TrimStart(t);
    TrimStartSplit(t);
    if u != [] {
      assert u[0] != ',' by {
        assert u[..1] == [u[0]];
      }
    }
    CommaNotTrailingParts(t[..|t| - |u|], u);
  }

  /** The same, for the text cut at the end of its leading whitespace. */
  lemma CommaNotTrailingParts(w: string, u: string)
    requires AllSpace(w)
    requires u == [] || (u[0] != ',' && !IsSpace(u[0]) && !IsCloser(u[0]))
    ensures !ClosesAfterSpace(RemoveTrailingCommas(w + u))
  {
    SpaceHasNoComma(w);
    RemoveTrailingCommasInert(w, u);
    if u != [] {
      RemoveTrailingCommasHead(u);
      TrimStartSpacePrefix(w, RemoveTrailingCommas(u));
    } else {
      TrimStartSpacePrefix(w, []);
      assert w + [] == w;
    }
  }

  /** A text that does not start with a comma keeps its first character. */
  lemma RemoveTrailingCommasHead(u: string)
    requires u != [] && u[0] != ','
    ensures RemoveTrailingCommas(u) != [] && RemoveTrailingCommas(u)[0] == u[0]
  {
    assert u == [u[0]] + u[1..];
    RemoveTrailingCommasStep(u[0], u[1..]);
  }

  lemma SpaceHasNoComma(w: string)
    requires AllSpace(w)
    ensures ',' !in w
  {
    assert forall i :: 0 <= i < |w| ==> w[i] != ',';
  }

  /** The regex makes a single pass: of two commas before a bracket only the
      second goes. */
  lemma RemoveTrailingCommasSinglePass()
    ensures RemoveTrailingCommas(",,]") == ",]"
  {
    assert ",,]"[1..] == ",]" && ",]"[1..] == "]" && "]"[1..] == [];
    assert TrimStart(",]") == ",]" && TrimStart("]") == "]";
    assert !TrailingCommaAt(",,]") && TrailingCommaAt(",]");
  }

  // ---------------------------------------------------------------------
  // Step 5: an explanation key that slipped into the commands array.

  /** One match of the pattern
      `(\["[^"]*"\s*),\s*"(explanation?)":\s*"([^"]*)"(\s*\])`,
      by the parts it reads. */
  datatype NestedKey = NestedKey(
    command: string, beforeComma: string, afterComma: string, key: string,
    afterColon: string, value: string, beforeClose: string)

  /** The text a match covers, read from the back: the value part, the key
      part and the command part. */
  function ValueTail(afterColon: string, value: string, beforeClose: string): string {
    afterColon + ("\"" + (value + ("\"" + (beforeClose + "]"))))
  }

  function KeyTail(afterComma: string, key: string, valueTail: string): string {
    afterComma + ("\"" + (key + ("\":" + valueTail)))
  }

  function CommandTail(command: string, beforeComma: string, keyTail: string): string {
    command + ("\"" + (beforeComma + ("," + keyTail)))
  }

  function Layout(m: NestedKey): string {
    "[\"" + CommandTail(m.command, m.beforeComma,
      KeyTail(m.afterComma, m.key, ValueTail(m.afterColon, m.value, m.beforeClose)))
  }

  /** The replacement `\1], "\2": "\3"`: the array is closed after the
      command and the key follows it; the bracket and blanks the match ended
      with are dropped. */
  function Rewritten(m: NestedKey): string {
    "[\"" + m.command + "\"" + m.beforeComma + "], \"" + m.key + "\": \"" + m.value + "\""
  }

  function ToLower(c: char): char {
    if 'A' <= c <= 'Z' then (c as int + 32) as char else c
  }

  function LowerAll(s: string): (r: string)
    ensures |r| == |s|
    decreases |s|
  {
    if s == [] then [] else [ToLower(s[0])] + LowerAll(s[1..])
  }

  lemma {:induction false} LowerAllAppend(a: string, b: string)
    ensures LowerAll(a + b) == LowerAll(a) + LowerAll(b)
    decreases |a|
  {
    if a == [] {
      assert a + b == b;
    } else {
      assert (a + b)[0] == a[0] && (a + b)[1..] == a[1..] + b;
      LowerAllAppend(a[1..], b);
    }
  }

  /** `explanation?` under IGNORECASE (ASCII letters only). */
  predicate IsExplanationKey(k: string) {
    LowerAll(k) == "explanatio" || LowerAll(k) == "explanation"
  }

  predicate ValueFieldsOk(afterColon: string, value: string, beforeClose: string) {
    AllSpace(afterColon) && '"' !in value && AllSpace(beforeClose)
  }

  predicate WellFormed(m: NestedKey) {
    '"' !in m.command && AllSpace(m.beforeComma) && AllSpace(m.afterComma)
    && IsExplanationKey(m.key) && ValueFieldsOk(m.afterColon, m.value, m.beforeClose)
  }

  /** `\s*`, greedy. */
  function TakeSpace(s: string): (r: string)
    ensures |r| <= |s| && r == s[..|r|] && AllSpace(r)
    ensures |r| < |s| ==> !IsSpace(s[|r|])
  {
    var u := TrimStart(s);
    assert s[|s| - |u|..] == u;
    s[..|s| - |u|]
  }

  /** `[^"]*`, greedy. */
  function TakeNonQuote(s: string): (r: string)
    ensures |r| <= |s| && r == s[..|r|] && '"' !in r
    ensures |r| < |s| ==> s[|r|] == '"'
    decreases |s|
  {
    if s == [] || s[0] == '"' then []
    else
      var r := TakeNonQuote(s[1..]);
      assert [s[0]] + r == s[..1 + |r|];
      [s[0]] + r
  }

  /** `explanation?`, greedy.  Giving the `n` back never leads to a match,
      since the pattern then needs a quote where the `n` is. */
  function TakeKey(s: string): (r: Option<string>)
    ensures r.Some? ==> |r.value| <= |s| && r.value == s[..|r.value|] && IsExplanationKey(r.value)
    ensures r.Some? && |r.value| == 10 ==> |s| == 10 || ToLower(s[10]) != 'n'
  {
    if |s| >= 10 && LowerAll(s[..10]) == "explanatio" then
      if |s| >= 11 && ToLower(s[10]) == 'n' then
        assert s[..11] == s[..10] + [s[10]];
        LowerAllAppend(s[..10], [s[10]]);
        assert "explanatio" + "n" == "explanation";
        Some(s[..11])
      else Some(s[..10])
    else None
  }

  lemma TakeSpaceOf(a: string, b: string)
    requires AllSpace(a) && (b == [] || !IsSpace(b[0]))
    ensures TakeSpace(a + b) == a
  {
    TrimStartSpacePrefix(a, b);
  }

  lemma {:induction false} TakeNonQuoteOf(a: string, b: string)
    requires '"' !in a && b != [] && b[0] == '"'
    ensures TakeNonQuote(a + b) == a
    decreases |a|
  {
    if a == [] {
      assert a + b == b;
    } else {
      assert (a + b)[0] == a[0] && (a + b)[1..] == a[1..] + b;
      TakeNonQuoteOf(a[1..], b);
      assert a == [a[0]] + a[1..];
    }
  }

  lemma TakeKeyOf(k: string, b: string)
    requires IsExplanationKey(k) && b != [] && b[0] == '"'
    ensures TakeKey(k + b) == Some(k)
  {
    var s := k + b;
    if |k| == 11 {
      assert k == k[..10] + [k[10]];
      LowerAllAppend(k[..10], [k[10]]);
      assert "explanatio" + "n" == "explanation";
      var lk := LowerAll(k);
      assert lk == "explanation";
      assert LowerAll(k[..10]) == lk[..10] && lk[..10] == "explanatio";
      assert lk[10] == ToLower(k[10]) && lk[10] == 'n';
      assert s[..10] == k[..10] && s[10] == k[10] && s[..11] == k;
    } else {
      assert s[..10] == k && s[10] == '"';
    }
  }

  /** The layout of the value part, one piece at a time. */
  lemma ValueTailParts(t: string, a: string, t1: string, t2: string, v: string, t3: string,
                       t4: string, b: string, t5: string, rest: string)
    requires t == a + t1 && t1 == "\"" + t2 && t2 == v + t3
    requires t3 == "\"" + t4 && t4 == b + t5 && t5 == "]" + rest
    ensures t == ValueTail(a, v, b) + rest
  {
  }

  lemma KeyTailParts(t: string, a: string, t1: string, t2: string, k: string, t3: string,
                     t4: string, vt: string, rest: string)
    requires t == a + t1 && t1 == "\"" + t2 && t2 == k + t3
    requires t3 == "\":" + t4 && t4 == vt + rest
    ensures t == KeyTail(a, k, vt) + rest
  {
  }

  lemma CommandTailParts(t: string, c: string, t1: string, t2: string, w: string, t3: string,
                         t4: string, kt: string, rest: string)
    requires t == c + t1 && t1 == "\"" + t2 && t2 == w + t3
    requires t3 == "," + t4 && t4 == kt + rest
    ensures t == CommandTail(c, w, kt) + rest
  {
  }

  lemma LayoutParts(s: string, t: string, m: NestedKey, rest: string)
    requires s == "[\"" + t
    requires t == CommandTail(m.command, m.beforeComma,
      KeyTail(m.afterComma, m.key, ValueTail(m.afterColon, m.value, m.beforeClose))) + rest
    ensures s == Layout(m) + rest
  {
  }

  /** `\s*"([^"]*)"\s*\]` at the front of `t`; on a match, the three groups
      and the text after the match. */
  function MatchValue(t: string): (r: Option<(string, string, string, string)>)
    ensures r.Some? ==>
      ValueFieldsOk(r.value.0, r.value.1, r.value.2)
      && t == ValueTail(r.value.0, r.value.1, r.value.2) + r.value.3
  {
    var afterColon := TakeSpace(t);
    var t1 := t[|afterColon|..];
    if !StartsWith(t1, "\"") then None
    else
      var t2 := t1[1..];
      var value := TakeNonQuote(t2);
      var t3 := t2[|value|..];
      if !StartsWith(t3, "\"") then None
      else
        var t4 := t3[1..];
        var beforeClose := TakeSpace(t4);
        var t5 := t4[|beforeClose|..];
        if !StartsWith(t5, "]") then None
        else
          PrefixSplit(t, afterColon);
          StartsWithSplit(t1, "\"");
          PrefixSplit(t2, value);
          StartsWithSplit(t3, "\"");
          PrefixSplit(t4, beforeClose);
          StartsWithSplit(t5, "]");
          ValueTailParts(t, afterColon, t1, t2, value, t3, t4, beforeClose, t5, t5[1..]);
          Some((afterColon, value, beforeClose, t5[1..]))
  }

  /** `\s*"(explanation?)":` followed by the value part. */
  function MatchKey(t: string): (r: Option<(string, string, string, string, string, string)>)
    ensures r.Some? ==>
      AllSpace(r.value.0) && IsExplanationKey(r.value.1)
      && ValueFieldsOk(r.value.2, r.value.3, r.value.4)
      && t == KeyTail(r.value.0, r.value.1, ValueTail(r.value.2, r.value.3, r.value.4)) + r.value.5
  {
    var afterComma := TakeSpace(t);
    var t1 := t[|afterComma|..];
    if !StartsWith(t1, "\"") then None
    else
      var t2 := t1[1..];
      match TakeKey(t2)
      case None => None
      case Some(key) =>
        var t3 := t2[|key|..];
        if !StartsWith(t3, "\":") then None
        else
          var t4 := t3[2..];
          match MatchValue(t4)
          case None => None
          case Some((afterColon, value, beforeClose, rest)) =>
            PrefixSplit(t, afterComma);
            StartsWithSplit(t1, "\"");
            PrefixSplit(t2, key);
            StartsWithSplit(t3, "\":");
            KeyTailParts(t, afterComma, t1, t2, key, t3, t4,
              ValueTail(afterColon, value, beforeClose), rest);
            Some((afterComma, key, afterColon, value, beforeClose, rest))
  }

  /** `[^"]*"\s*,` followed by the key part. */
  function MatchCommand(t: string): (r: Option<(NestedKey, string)>)
    ensures r.Some? ==>
      var m := r.value.0;
      WellFormed(m) && t == CommandTail(m.command, m.beforeComma,
        KeyTail(m.afterComma, m.key, ValueTail(m.afterColon, m.value, m.beforeClose))) + r.value.1
  {
    var command := TakeNonQuote(t);
    var t1 := t[|command|..];
    if !StartsWith(t1, "\"") then None
    else
      var t2 := t1[1..];
      var beforeComma := TakeSpace(t2);
      var t3 := t2[|beforeComma|..];
      if !StartsWith(t3, ",") then None
      else
        var t4 := t3[1..];
        match MatchKey(t4)
        case None => None
        case Some((afterComma, key, afterColon, value, beforeClose, rest)) =>
          PrefixSplit(t, command);
          StartsWithSplit(t1, "\"");
          PrefixSplit(t2, beforeComma);
          StartsWithSplit(t3, ",");
          CommandTailParts(t, command, t1, t2, beforeComma, t3, t4,
            KeyTail(afterComma, key, ValueTail(afterColon, value, beforeClose)), rest);
          Some((NestedKey(command, beforeComma, afterComma, key, afterColon, value, beforeClose), rest))
  }

  /** The pattern at the front of `s`: the match it reads and the text after
      it.  A match is always a well-formed one laid out at the front. */
  function MatchNested(s: string): (r: Option<(NestedKey, string)>)
    ensures r.Some? ==> WellFormed(r.value.0) && s == Layout(r.value.0) + r.value.1
  {
    if !StartsWith(s, "[\"") then None
    else
      match MatchCommand(s[2..])
      case None => None
      case Some((m, rest)) =>
        StartsWithSplit(s, "[\"");
        LayoutParts(s, s[2..], m, rest);
        Some((m, rest))
  }

  lemma MatchValueComplete(a: string, v: string, b: string, rest: string)
    requires ValueFieldsOk(a, v, b)
    ensures MatchValue(ValueTail(a, v, b) + rest) == Some((a, v, b, rest))
  {
    var x5 := "]" + rest;
    var x4 := b + x5;
    var x3 := "\"" + x4;
    var x2 := v + x3;
    var x1 := "\"" + x2;
    var t := a + x1;
    ValueTailParts(t, a, x1, x2, v, x3, x4, b, x5, rest);
    TakeSpaceOf(a, x1);
    StartsWithRest(a, x1);
    StartsWithRest("\"", x2);
    TakeNonQuoteOf(v, x3);
    StartsWithRest(v, x3);
    StartsWithRest("\"", x4);
    TakeSpaceOf(b, x5);
    StartsWithRest(b, x5);
    StartsWithRest("]", rest);
  }

  lemma MatchKeyComplete(a: string, k: string, c: string, v: string, b: string, rest: string)
    requires AllSpace(a) && IsExplanationKey(k) && ValueFieldsOk(c, v, b)
    ensures MatchKey(KeyTail(a, k, ValueTail(c, v, b)) + rest) == Some((a, k, c, v, b, rest))
  {
    var x4 := ValueTail(c, v, b) + rest;
    var x3 := "\":" + x4;
    var x2 := k + x3;
    var x1 := "\"" + x2;
    var t := a + x1;
    assert t == KeyTail(a, k, ValueTail(c, v, b)) + rest by {
      KeyTailParts(t, a, x1, x2, k, x3, x4, ValueTail(c, v, b), rest);
    }
    assert TakeSpace(t) == a && t[|a|..] == x1 by {
      TakeSpaceOf(a, x1);
    }
    StartsWithRest("\"", x2);
    assert TakeKey(x2) == Some(k) && x2[|k|..] == x3 by {
      TakeKeyOf(k, x3);
    }
    StartsWithRest("\":", x4);
    MatchValueComplete(c, v, b, rest);
    MatchKeyReads(t, a, x1, x2, k, x3, x4, (c, v, b, rest));
  }

  /** `MatchKey` reads its parts one after another. */
  lemma MatchKeyReads(t: string, a: string, x1: string, x2: string, k: string, x3: string, x4: string,
                      value: (string, string, string, string))
    requires TakeSpace(t) == a && |a| <= |t| && t[|a|..] == x1
    requires StartsWith(x1, "\"") && x1[1..] == x2
    requires TakeKey(x2) == Some(k) && |k| <= |x2| && x2[|k|..] == x3
    requires StartsWith(x3, "\":") && x3[2..] == x4
    requires MatchValue(x4) == Some(value)
    ensures MatchKey(t) == Some((a, k, value.0, value.1, value.2, value.3))
  {
  }

  lemma MatchCommandComplete(m: NestedKey, rest: string)
    requires WellFormed(m)
    ensures MatchCommand(CommandTail(m.command, m.beforeComma,
      KeyTail(m.afterComma, m.key, ValueTail(m.afterColon, m.value, m.beforeClose))) + rest)
      == Some((m, rest))
  {
    var kt := KeyTail(m.afterComma, m.key, ValueTail(m.afterColon, m.value, m.beforeClose));
    var x4 := kt + rest;
    var x3 := "," + x4;
    var x2 := m.beforeComma + x3;
    var x1 := "\"" + x2;
    var t := m.command + x1;
    CommandTailParts(t, m.command, x1, x2, m.beforeComma, x3, x4, kt, rest);
    TakeNonQuoteOf(m.command, x1);
    StartsWithRest(m.command, x1);
    StartsWithRest("\"", x2);
    TakeSpaceOf(m.beforeComma, x3);
    StartsWithRest(m.beforeComma, x3);
    StartsWithRest(",", x4);
    MatchKeyComplete(m.afterComma, m.key, m.afterColon, m.value, m.beforeClose, rest);
  }

  /** The step-5 pattern matches at the front of `s`, reading `m` and leaving
      `rest`, exactly when `s` is the layout of the well-formed match `m`
      followed by `rest`. */
  lemma MatchNestedSpec(s: string, m: NestedKey, rest: string)
    ensures MatchNested(s) == Some((m, rest)) <==> WellFormed(m) && s == Layout(m) + rest
  {
    if WellFormed(m) && s == Layout(m) + rest {
      var ct := CommandTail(m.command, m.beforeComma,
        KeyTail(m.afterComma, m.key, ValueTail(m.afterColon, m.value, m.beforeClose)));
      assert s == "[\"" + (ct + rest);
      assert StartsWith(s, "[\"") && s[2..] == ct + rest;
      MatchCommandComplete(m, rest);
    }
  }

  /** `re.sub(pattern, r'\1], "\2": "\3"', s, flags=re.IGNORECASE)`: every
      match, left to right, is rewritten. */
  function FixNestedExplanation(s: string): string
    decreases |s|
  {
    match MatchNested(s)
    case Some((m, rest)) => Rewritten(m) + FixNestedExplanation(rest)
    case None =>
      if s == [] then [] else [s[0]] + FixNestedExplanation(s[1..])
  }

  lemma NoMatchWithoutBracket(s: string)
    requires s == [] || s[0] != '['
    ensures MatchNested(s).None?
  {
    if |s| >= 2 {
      assert s[..2][0] == s[0];
    }
  }

  /** Text before the first bracket is kept as it is. */
  lemma {:induction false} FixNestedExplanationInert(a: string, b: string)
    requires '[' !in a
    ensures FixNestedExplanation(a + b) == a + FixNestedExplanation(b)
    decreases |a|
  {
    if a == [] {
      assert a + b == b;
    } else {
      FixNestedExplanationInert(a[1..], b);
      FixNestedExplanationCons(a[0], a[1..], b);
      SplitFirst(a, b);
      SplitFirst(a, FixNestedExplanation(b));
    }
  }

  lemma FixNestedExplanationCons(c: char, r: string, b: string)
    requires c != '['
    requires FixNestedExplanation(r + b) == r + FixNestedExplanation(b)
    ensures FixNestedExplanation([c] + (r + b)) == [c] + (r + FixNestedExplanation(b))
  {
    FixNestedExplanationStep(c, r + b);
  }

  /** A character other than an opening bracket is copied. */
  lemma FixNestedExplanationStep(c: char, t: string)
    requires c != '['
    ensures FixNestedExplanation([c] + t) == [c] + FixNestedExplanation(t)
  {
    var s := [c] + t;
    assert s[0] == c && s[1..] == t;
    NoMatchWithoutBracket(s);
  }

  /** A match is rewritten and the scan resumes after it. */
  lemma FixNestedExplanationAt(m: NestedKey, b: string)
    requires WellFormed(m)
    ensures FixNestedExplanation(Layout(m) + b) == Rewritten(m) + FixNestedExplanation(b)
  {
    MatchNestedSpec(Layout(m) + b, m, b);
  }

  /** Text without a match anywhere is kept as it is. */
  lemma {:induction false} FixNestedExplanationNone(s: string)
    requires forall i :: 0 <= i <= |s| ==> MatchNested(s[i..]).None?
    ensures FixNestedExplanation(s) == s
    decreases |s|
  {
    if s != [] {
      assert MatchNested(s[0..]).None? && s[0..] == s;
      assert forall i :: 0 <= i <= |s| - 1 ==> s[1..][i..] == s[i + 1..];
      FixNestedExplanationNone(s[1..]);
    }
  }

  // ---------------------------------------------------------------------
  // The whole function.

  /** Steps 1 to 5, in source order, before the final strip. */
  function Repair(s: string): string {
    FixNestedExplanation(RemoveTrailingCommas(QuoteStep(FixQuoteArtifacts(RemoveBackticks(s)))))
  }

  /** `clean_json_response`; `validJson(t)` stands for `json.loads(t)`
      raising no `JSONDecodeError`.  The reply is unfenced, returned stripped
      when it already parses, and repaired and stripped otherwise. */
  function CleanJsonResponse(text: string, validJson: string -> bool): (r: string)
    ensures IsStripped(r)
    ensures validJson(Strip(StripFences(text))) ==> r == Strip(StripFences(text))
  {
    var t := StripFences(text);
    if validJson(Strip(t)) then Strip(t) else Strip(Repair(t))
  }

  /** Backtick-free text has no fence to strip. */
  lemma StripFencesPlain(s: string)
    requires '`' !in s
    ensures StripFences(s) == s
  {
    assert JsonFence[0] == '`';
    if Contains(s, JsonFence) {
      ContainsNeedsChar(s, JsonFence, 0);
    }
    StripJsonFencesAbsent(s);
    StripClosingFenceAbsent(s);
  }

  /** Valid JSON without backticks comes back with only its outer whitespace
      removed. */
  lemma CleanValidPlain(text: string, validJson: string -> bool)
    requires '`' !in text && validJson(Strip(text))
    ensures CleanJsonResponse(text, validJson) == Strip(text)
  {
    StripFencesPlain(text);
  }

  /** A ```json block around valid JSON is unwrapped to the JSON. */
  lemma CleanFencedBlock(w1: string, body: string, w2: string, validJson: string -> bool)
    requires AllSpace(w1) && AllSpace(w2) && '`' !in body && IsStripped(body)
    requires validJson(body)
    ensures CleanJsonResponse(JsonFence + w1 + body + Fence + w2, validJson) == body
  {
    StripFencesBlock(w1, body, w2);
    StripStripped(body);
  }

  /** Text without a backtick, backslash, underscore or single quote goes
      through steps 1 to 3 unchanged. */
  lemma RepairPlainPrefix(s: string)
    requires '`' !in s && '\\' !in s && '_' !in s && '\'' !in s
    ensures Repair(s) == FixNestedExplanation(RemoveTrailingCommas(s))
  {
    assert PythonFence[0] == '`' && Fence[0] == '`';
    ReplaceAllAbsent(s, PythonFence, EscapedPythonFence);
    ReplaceAllAbsent(s, Fence, "");
    QuoteEditedPlain(s, FixQuoteArtifacts(s));
    QuoteStepPlain(s);
  }

}
