/**
 * What `clean_json_response` does to whole replies: the reply whose one
 * flaw is an explanation key placed inside the commands array, and the
 * concrete reply of that kind the project's own unit tests use.
 */
module CleanExamples {
  import opened Text
  import opened JsonRepair
  import opened TestReplies

  /** A key that reads `explanation` or `explanatio` in any letter case has
      no comma. */
  lemma {:induction false} LowerAllKeepsComma(k: string)
    ensures ',' in k ==> ',' in LowerAll(k)
    decreases |k|
  {
    if k != [] {
      LowerAllKeepsComma(k[1..]);
      assert k == [k[0]] + k[1..];
      assert LowerAll(k)[0] == ToLower(k[0]) && LowerAll(k)[1..] == LowerAll(k[1..]);
    }
  }

  lemma KeyHasNoComma(k: string)
    requires IsExplanationKey(k)
    ensures ',' !in k
  {
    LowerAllKeepsComma(k);
    assert ',' !in "explanation";
    assert ',' !in "explanatio";
  }

  /** The one comma of a well-formed match is not a trailing one, and the
      trailing-comma pass keeps the whole match. */
  lemma LayoutKeepsCommas(m: NestedKey, pre: string, post: string)
    requires WellFormed(m) && ',' !in pre + post + m.command + m.value
    ensures RemoveTrailingCommas(pre + Layout(m) + post) == pre + Layout(m) + post
  {
    var vt := ValueTail(m.afterColon, m.value, m.beforeClose);
    var q := "\"" + (m.key + ("\":" + vt)) + post;
    var k := m.afterComma + q;
    var a := pre + "[\"" + m.command + "\"" + m.beforeComma;
    assert pre + Layout(m) + post == a + ("," + k);
    assert ',' !in a by {
      SpaceHasNoComma(m.beforeComma);
    }
    assert ',' !in k by {
      SpaceHasNoComma(m.afterComma);
      SpaceHasNoComma(m.afterColon);
      SpaceHasNoComma(m.beforeClose);
      KeyHasNoComma(m.key);
    }
    assert RemoveTrailingCommas(a + ("," + k)) == a + RemoveTrailingCommas("," + k) by {
      RemoveTrailingCommasInert(a, "," + k);
    }
    assert !TrailingCommaAt("," + k) by {
      assert ("," + k)[1..] == k;
      TrimStartSpacePrefix(m.afterComma, q);
    }
    assert RemoveTrailingCommas(k) == k by {
      RemoveTrailingCommasInert(k, []);
      assert k + [] == k;
    }
    assert ("," + k)[1..] == k;
  }

  /** The structural pass rewrites the match and keeps the bracket-free text
      around it. */
  lemma FixNestedAround(m: NestedKey, pre: string, post: string)
    requires WellFormed(m) && '[' !in pre && '[' !in post
    ensures FixNestedExplanation(pre + Layout(m) + post) == pre + Rewritten(m) + post
  {
    var b := Layout(m) + post;
    assert pre + Layout(m) + post == pre + b;
    assert FixNestedExplanation(pre + b) == pre + FixNestedExplanation(b) by {
      FixNestedExplanationInert(pre, b);
    }
    assert FixNestedExplanation(b) == Rewritten(m) + FixNestedExplanation(post) by {
      FixNestedExplanationAt(m, post);
    }
    assert FixNestedExplanation(post) == post by {
      FixNestedExplanationInert(post, []);
      assert post + [] == post;
    }
  }

  /** A reply that fails to parse only because the explanation sits inside
      the commands array comes back with the array closed after the command
      and the explanation as a key of its own. */
  lemma CleanMisplacedKey(m: NestedKey, pre: string, post: string, validJson: string -> bool)
    requires WellFormed(m)
    requires '[' !in pre && '[' !in post && ',' !in pre + post + m.command + m.value
    requires var s := pre + Layout(m) + post;
      '`' !in s && '\\' !in s && '_' !in s && '\'' !in s
    requires pre != [] && !IsSpace(pre[0]) && post != [] && !IsSpace(post[|post| - 1])
    requires !validJson(Strip(pre + Layout(m) + post))
    ensures CleanJsonResponse(pre + Layout(m) + post, validJson) == pre + Rewritten(m) + post
  {
    var s := pre + Layout(m) + post;
    StripFencesPlain(s);
    RepairPlainPrefix(s);
    LayoutKeepsCommas(m, pre, post);
    FixNestedAround(m, pre, post);
    var r := pre + Rewritten(m) + post;
    assert r[0] == pre[0] && r[|r| - 1] == post[|post| - 1];
    StripStripped(r);
  }



  /** The misplaced-key lemma for the test's match, with the match and the
      text around it passed as variables. */
  lemma CleanScanKey(reply: string, m: NestedKey, pre: string, post: string,
                     validJson: string -> bool)
    requires m == ScanKey && pre == CommandsKey && post == "}"
    requires reply == pre + Layout(m) + post && !validJson(Strip(reply))
    requires '`' !in reply && '\\' !in reply && '_' !in reply && '\'' !in reply
    ensures CleanJsonResponse(reply, validJson) == pre + Rewritten(m) + post
  {
    ScanKeyCondition(m);
    ScanTextCommas(m, pre, post);
    ScanTextEnds(pre, post);
    CleanMisplacedKey(m, pre, post, validJson);
  }

  // The preconditions of the misplaced-key lemma for the test's match, one
  // group per lemma: together in one proof they cost the verifier far more
  // than apart.

  lemma ScanKeyCondition(m: NestedKey)
    requires m == ScanKey
    ensures WellFormed(m)
  {
    ScanKeyWellFormed();
  }

  lemma ScanTextCommas(m: NestedKey, pre: string, post: string)
    requires m == ScanKey && pre == CommandsKey && post == "}"
    ensures '[' !in pre && '[' !in post && ',' !in pre + post + m.command + m.value
  {
    ReplyCommas();
  }

  lemma ScanTextEnds(pre: string, post: string)
    requires pre == CommandsKey && post == "}"
    ensures pre != [] && !IsSpace(pre[0]) && post != [] && !IsSpace(post[|post| - 1])
  {
  }


  /** The unit test "fixes structural issues with explanation inside
      commands array", reply and expected result as in the test.  `reply`
      stands for the literal, so that the verifier does not try to evaluate
      the cleaning on the literal itself. */
  lemma CleanStructuralTest(reply: string, validJson: string -> bool)
    requires reply == StructuralReply && !validJson(Strip(reply))
    ensures CleanJsonResponse(reply, validJson) == StructuralRepaired
  {
    ReplyLayout();
    ReplyNoBacktick();
    ReplyNoBackslash();
    ReplyNoUnderscore();
    ReplyNoApostrophe();
    RepairedLayout();
    CleanScanKey(reply, ScanKey, CommandsKey, "}", validJson);
  }

  /** The unit test "strips leading and trailing whitespace": the valid
      reply between blanks comes back without them. */
  lemma CleanWhitespaceTest(reply: string, validJson: string -> bool)
    requires reply == PlainPadding + PlainReply + PlainPadding && validJson(PlainReply)
    ensures CleanJsonResponse(reply, validJson) == PlainReply
  {
    PlainNoBacktick();
    PlainStripped();
    StripAround(PlainPadding, PlainReply, PlainPadding);
    CleanValidPlain(reply, validJson);
  }

  /** The unit test "leaves valid JSON unchanged except for whitespace". */
  lemma CleanValidTest(reply: string, validJson: string -> bool)
    requires reply == PlainReply && validJson(PlainReply)
    ensures CleanJsonResponse(reply, validJson) == PlainReply
  {
    PlainNoBacktick();
    PlainStripped();
    StripStripped(reply);
    CleanValidPlain(reply, validJson);
  }
}
