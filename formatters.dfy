/**
 * `ResponseFormatter`: the structured answers of the code, explanation and
 * exploit endpoints rendered as the markdown a chat shows.
 */
module Formatters {
  import opened Text

  datatype CodeGenerationResponse = CodeGenerationResponse(code: string, explanation: string, language: string)

  datatype CodeExplanationResponse = CodeExplanationResponse(explanation: string)

  datatype Exploit = Exploit(title: string, link: string, severity: string, description: string)

  datatype ExploitSearchResponse = ExploitSearchResponse(exploits: seq<Exploit>, explanation: string)

  /* ---------------------------------------------------------------- */
  /* Code generation                                                   */
  /* ---------------------------------------------------------------- */

  const NoCodePrefix := "I couldn't gener" + "ate code for thi" + "s task. "
  const CommandHeader := "Here's the comma" + "nd you can use:"
  const ScriptPrefix := "I've written a "
  const ExplanationLabel := "\n```\n\n**Explana" + "tion**: "

  function ScriptHeader(language: string): string {
    ScriptPrefix + language + " script for you:"
  }

  /** A multi-line answer is a script, a one-line answer a command. */
  function CodeHeader(r: CodeGenerationResponse): string {
    if '\n' in r.code then ScriptHeader(r.language) else CommandHeader
  }

  /** The code in a fence tagged with its language. */
  function FencedCode(r: CodeGenerationResponse): string {
    "```" + r.language + "\n" + r.code + "\n```"
  }

  /** `format_code_generation`. */
  function FormatCodeGeneration(r: CodeGenerationResponse): string {
    if r.code == [] then NoCodePrefix + r.explanation
    else CodeHeader(r) + "\n\n```" + r.language + "\n" + r.code + ExplanationLabel + r.explanation
  }

  /** The non-empty answer, regrouped around its fence. */
  lemma CodeGenerationParts(r: CodeGenerationResponse)
    requires r.code != []
    ensures FormatCodeGeneration(r) == CodeHeader(r) + "\n\n" + FencedCode(r) + ("\n\n**Explanation**: " + r.explanation)
  {
    assert ExplanationLabel == "\n```" + "\n\n**Explanation**: ";
  }

  /** Every answer ends with the explanation, copied as it is. */
  lemma CodeGenerationEndsWithExplanation(r: CodeGenerationResponse)
    ensures var s := FormatCodeGeneration(r);
      |r.explanation| <= |s| && s[|s| - |r.explanation|..] == r.explanation
  {
  }

  /** Only an answer without code gets the apology. */
  lemma CodeGenerationNoCode(r: CodeGenerationResponse)
    ensures StartsWith(FormatCodeGeneration(r), NoCodePrefix) <==> r.code == []
  {
    var s := FormatCodeGeneration(r);
    if r.code == [] {
      StartsWithAppend(NoCodePrefix, r.explanation);
    } else {
      assert NoCodePrefix[2] == 'c';
      if '\n' in r.code {
        assert s[2] == ScriptPrefix[2] == 'v';
        NotStartsWithAt(s, NoCodePrefix, 2);
      } else {
        assert s[0] == CommandHeader[0] == 'H';
        NotStartsWithAt(s, NoCodePrefix, 0);
      }
    }
  }

  /** The rest of a non-empty answer after its header. */
  function AfterHeader(r: CodeGenerationResponse): string {
    "\n\n" + FencedCode(r) + ("\n\n**Explanation**: " + r.explanation)
  }

  lemma CodeGenerationSplit(r: CodeGenerationResponse)
    requires r.code != []
    ensures FormatCodeGeneration(r) == CodeHeader(r) + AfterHeader(r)
  {
    CodeGenerationParts(r);
  }

  lemma ScriptHeaderStarts(language: string)
    ensures |ScriptHeader(language)| >= 3 && ScriptHeader(language)[0] == 'I' && ScriptHeader(language)[2] == 'v'
  {
  }

  /** The script header is used exactly for code of several lines. */
  lemma CodeGenerationScript(r: CodeGenerationResponse)
    ensures StartsWith(FormatCodeGeneration(r), ScriptHeader(r.language)) <==> r.code != [] && '\n' in r.code
  {
    var s := FormatCodeGeneration(r);
    var h := ScriptHeader(r.language);
    ScriptHeaderStarts(r.language);
    if r.code == [] {
      assert s[2] == NoCodePrefix[2] == 'c';
      NotStartsWithAt(s, h, 2);
    } else if '\n' in r.code {
      CodeGenerationSplit(r);
      StartsWithAppend(h, AfterHeader(r));
    } else {
      CodeGenerationSplit(r);
      assert s[0] == CommandHeader[0] == 'H';
      NotStartsWithAt(s, h, 0);
    }
  }

  /** The command header is used exactly for code of one line. */
  lemma CodeGenerationCommand(r: CodeGenerationResponse)
    ensures StartsWith(FormatCodeGeneration(r), CommandHeader) <==> r.code != [] && '\n' !in r.code
  {
    var s := FormatCodeGeneration(r);
    if r.code == [] {
      assert s[0] == 'I';
      NotStartsWithAt(s, CommandHeader, 0);
    } else if '\n' in r.code {
      assert s[0] == 'I';
      NotStartsWithAt(s, CommandHeader, 0);
    } else {
      CodeGenerationSplit(r);
      StartsWithAppend(CommandHeader, AfterHeader(r));
    }
  }

  /** Code is shown verbatim inside a fence tagged with its language. */
  lemma CodeGenerationFenced(r: CodeGenerationResponse)
    requires r.code != []
    ensures Contains(FormatCodeGeneration(r), FencedCode(r))
  {
    CodeGenerationParts(r);
    ContainsInfix(CodeHeader(r) + "\n\n", FencedCode(r), "\n\n**Explanation**: " + r.explanation);
  }

  /** Without code there is no fence at all, unless the explanation brings one. */
  lemma NoCodeNoFence(r: CodeGenerationResponse)
    requires r.code == [] && '`' !in r.explanation
    ensures '`' !in FormatCodeGeneration(r)
  {
    assert '`' !in "I couldn't gener";
    assert '`' !in "ate code for thi";
    assert '`' !in "s task. ";
  }

  /* ---------------------------------------------------------------- */
  /* Explanation                                                       */
  /* ---------------------------------------------------------------- */

  const DefaultContext := "code"
  const ExplainPrefix := "Let me explain t" + "his "

  /** `format_explanation`; the caller passes `DefaultContext` when it has
      no context of its own. */
  function FormatExplanation(r: CodeExplanationResponse, context: string): string {
    ExplainPrefix + context + ":\n\n" + r.explanation
  }

  /** The rendering can be read back: a context without a colon and the
      explanation are determined by the text. */
  lemma FormatExplanationInjective(r1: CodeExplanationResponse, c1: string, r2: CodeExplanationResponse, c2: string)
    requires ':' !in c1 && ':' !in c2
    requires FormatExplanation(r1, c1) == FormatExplanation(r2, c2)
    ensures c1 == c2 && r1 == r2
  {
    var s := FormatExplanation(r1, c1);
    var n := |ExplainPrefix|;
    assert s == ExplainPrefix + (c1 + [':'] + ("\n\n" + r1.explanation));
    assert s == ExplainPrefix + (c2 + [':'] + ("\n\n" + r2.explanation));
    assert s[n..] == c1 + [':'] + ("\n\n" + r1.explanation);
    assert s[n..] == c2 + [':'] + ("\n\n" + r2.explanation);
    SplitAtFirst(c1, "\n\n" + r1.explanation, c2, "\n\n" + r2.explanation, ':');
    assert r1.explanation == ("\n\n" + r1.explanation)[2..];
    assert r2.explanation == ("\n\n" + r2.explanation)[2..];
  }

  /** Without a context of its own, the explanation is about code. */
  lemma FormatExplanationDefault(r: CodeExplanationResponse)
    ensures FormatExplanation(r, DefaultContext) == "Let me explain t" + "his code:\n\n" + r.explanation
  {
  }

  /* ---------------------------------------------------------------- */
  /* Exploit search                                                    */
  /* ---------------------------------------------------------------- */

  const NoExploitsPrefix := "No exploits foun" + "d. "
  const SummaryLabel := "\n**Summary**: "

  /** One exploit: title and severity, description, link, each on its line. */
  function ExploitBlock(e: Exploit): string {
    "### " + e.title + " (" + e.severity + ")\n" + "**Description**: " + e.description + "\n" + "**Link**: " + e.link + "\n"
  }

  function ExploitBlocks(es: seq<Exploit>): (bs: seq<string>)
    ensures |bs| == |es|
    decreases |es|
  {
    if es == [] then [] else [ExploitBlock(es[0])] + ExploitBlocks(es[1..])
  }

  function Plural(n: nat): string {
    if n == 1 then "vulnerability" else "vulnerabilities"
  }

  /** `format_exploit_search`. */
  function FormatExploitSearch(r: ExploitSearchResponse): string {
    if r.exploits == [] then NoExploitsPrefix + r.explanation
    else
      var n := |r.exploits|;
      "I found " + NatToString(n) + " " + Plural(n) + ":\n\n" + Join(ExploitBlocks(r.exploits), "\n") +
      SummaryLabel + r.explanation
  }

  lemma {:induction false} ExploitBlocksAt(es: seq<Exploit>, i: nat)
    requires i < |es|
    ensures ExploitBlocks(es)[i] == ExploitBlock(es[i])
    decreases |es|
  {
    if i > 0 {
      ExploitBlocksAt(es[1..], i - 1);
    }
  }

  /** "No exploits found" is said exactly when there are none. */
  lemma ExploitSearchNone(r: ExploitSearchResponse)
    ensures StartsWith(FormatExploitSearch(r), NoExploitsPrefix) <==> r.exploits == []
  {
    if r.exploits == [] {
      StartsWithAppend(NoExploitsPrefix, r.explanation);
    } else {
      assert FormatExploitSearch(r)[0] == 'I';
      NotStartsWithAt(FormatExploitSearch(r), NoExploitsPrefix, 0);
    }
  }

  lemma NatToStringLong(n: nat)
    requires n >= 10
    ensures |NatToString(n)| >= 2 && IsDigit(NatToString(n)[1])
  {
    NatToStringRoundTrip(n);
  }

  const SingularLine := "I found 1 vulnera" + "bility:"

  /** What follows the number of exploits. */
  function AfterCount(r: ExploitSearchResponse): string {
    " " + Plural(|r.exploits|) + ":\n\n" + Join(ExploitBlocks(r.exploits), "\n") + SummaryLabel + r.explanation
  }

  lemma ExploitSearchSplit(r: ExploitSearchResponse)
    requires r.exploits != []
    ensures FormatExploitSearch(r) == "I found " + NatToString(|r.exploits|) + AfterCount(r)
  {
  }

  lemma SingularRegroup(rest: string)
    ensures "I found " + "1" + (" " + "vulnerability" + ":" + rest) == SingularLine + rest
  {
  }

  lemma SingularShown(r: ExploitSearchResponse)
    requires |r.exploits| == 1
    ensures StartsWith(FormatExploitSearch(r), SingularLine)
  {
    ExploitSearchSplit(r);
    var rest := "\n\n" + Join(ExploitBlocks(r.exploits), "\n") + SummaryLabel + r.explanation;
    assert NatToString(1) == "1";
    assert AfterCount(r) == " " + "vulnerability" + ":" + rest;
    SingularRegroup(rest);
    StartsWithAppend(SingularLine, rest);
  }

  lemma FewNotSingular(r: ExploitSearchResponse)
    requires 2 <= |r.exploits| < 10
    ensures !StartsWith(FormatExploitSearch(r), SingularLine)
  {
    var n := |r.exploits|;
    ExploitSearchSplit(r);
    assert NatToString(n) == [DigitChar(n)];
    assert FormatExploitSearch(r)[8] == DigitChar(n);
    assert SingularLine[8] == '1';
    NotStartsWithAt(FormatExploitSearch(r), SingularLine, 8);
  }

  lemma ManyNotSingular(r: ExploitSearchResponse)
    requires |r.exploits| >= 10
    ensures !StartsWith(FormatExploitSearch(r), SingularLine)
  {
    var n := |r.exploits|;
    ExploitSearchSplit(r);
    NatToStringLong(n);
    var d := NatToString(n);
    assert FormatExploitSearch(r)[9] == d[1];
    assert SingularLine[9] == ' ';
    NotStartsWithAt(FormatExploitSearch(r), SingularLine, 9);
  }

  /** The count line is singular exactly for one exploit. */
  lemma ExploitSearchSingular(r: ExploitSearchResponse)
    ensures StartsWith(FormatExploitSearch(r), SingularLine) <==> |r.exploits| == 1
  {
    var n := |r.exploits|;
    if n == 0 {
      assert FormatExploitSearch(r)[0] == 'N';
      NotStartsWithAt(FormatExploitSearch(r), SingularLine, 0);
    } else if n == 1 {
      SingularShown(r);
    } else if n < 10 {
      FewNotSingular(r);
    } else {
      ManyNotSingular(r);
    }
  }

  /** The decimal digits `s` starts with. */
  function LeadingDigits(s: string): (d: string)
    ensures |d| <= |s| && d == s[..|d|]
    ensures forall i :: 0 <= i < |d| ==> IsDigit(d[i])
    decreases |s|
  {
    if s != [] && IsDigit(s[0]) then [s[0]] + LeadingDigits(s[1..]) else []
  }

  lemma {:induction false} LeadingDigitsOf(d: string, rest: string)
    requires forall i :: 0 <= i < |d| ==> IsDigit(d[i])
    requires rest == [] || !IsDigit(rest[0])
    ensures LeadingDigits(d + rest) == d
    decreases |d|
  {
    if d == [] {
      assert d + rest == rest;
    } else {
      assert (d + rest)[0] == d[0] && (d + rest)[1..] == d[1..] + rest;
      LeadingDigitsOf(d[1..], rest);
      assert [d[0]] + d[1..] == d;
    }
  }

  const CountPrefix := "I found "

  /** The number a reader takes from a count line. */
  function ShownCount(s: string): nat {
    if StartsWith(s, CountPrefix) then DecimalValue(LeadingDigits(s[|CountPrefix|..])) else 0
  }

  /** The count line states the number of exploits; reading it back gives
      that number. */
  lemma ExploitSearchCount(r: ExploitSearchResponse)
    requires r.exploits != []
    ensures ShownCount(FormatExploitSearch(r)) == |r.exploits|
  {
    var n := |r.exploits|;
    var d := NatToString(n);
    var s := FormatExploitSearch(r);
    assert s == CountPrefix + (d + AfterCount(r)) by {
      ExploitSearchSplit(r);
    }
    StartsWithRest(CountPrefix, d + AfterCount(r));
    NatToStringRoundTrip(n);
    assert AfterCount(r)[0] == ' ';
    LeadingDigitsOf(d, AfterCount(r));
  }

  lemma ExploitSearchAround(r: ExploitSearchResponse)
    requires r.exploits != []
    ensures FormatExploitSearch(r) ==
      ("I found " + NatToString(|r.exploits|) + " " + Plural(|r.exploits|) + ":\n\n") +
      Join(ExploitBlocks(r.exploits), "\n") + (SummaryLabel + r.explanation)
  {
  }

  lemma InfixRegroup(pre: string, a: string, x: string, b: string, post: string)
    ensures pre + (a + x + b) + post == (pre + a) + x + (b + post)
  {
  }

  /** Every exploit is listed, its fields copied unescaped. */
  lemma ExploitSearchLists(r: ExploitSearchResponse, i: nat)
    requires i < |r.exploits|
    ensures Contains(FormatExploitSearch(r), ExploitBlock(r.exploits[i]))
  {
    var n := |r.exploits|;
    var bs := ExploitBlocks(r.exploits);
    JoinHasPart(bs, "\n", i);
    ExploitBlocksAt(r.exploits, i);
    var a, b :| Join(bs, "\n") == a + bs[i] + b;
    var pre := "I found " + NatToString(n) + " " + Plural(n) + ":\n\n";
    var post := SummaryLabel + r.explanation;
    ExploitSearchAround(r);
    InfixRegroup(pre, a, bs[i], b, post);
    ContainsInfix(pre + a, bs[i], b + post);
  }

  /** A search with results ends with the summary line. */
  lemma ExploitSearchSummary(r: ExploitSearchResponse)
    requires r.exploits != []
    ensures var s := FormatExploitSearch(r);
      var tail := SummaryLabel + r.explanation;
      |tail| <= |s| && s[|s| - |tail|..] == tail
  {
    var n := |r.exploits|;
    var pre := "I found " + NatToString(n) + " " + Plural(n) + ":\n\n" + Join(ExploitBlocks(r.exploits), "\n");
    assert FormatExploitSearch(r) == pre + (SummaryLabel + r.explanation);
  }
}
