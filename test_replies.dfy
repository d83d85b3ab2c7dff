/**
 * Replies used by the unit tests of `clean_json_response`, as literals cut
 * in short pieces, with the facts about them the examples need, one fact
 * per lemma.
 */
module TestReplies {
  import opened Text
  import opened JsonRepair

  /** The reply of the unit test "fixes structural issues with explanation
      inside commands array", and what it is cleaned to. */
  const StructuralReply: string :=
    "{\"commands\": " + "[\"nmap -sS " + "target\"" + ", \"explanation" + "\": " + "\"SYN scan\"]}"
  const StructuralRepaired: string :=
    "{\"commands\": " + ("[\"" + "nmap -sS target" + "\"" + "], \"" + "explanation" + "\": \"" + "SYN scan" + "\"") + "}"

  /** The valid reply of the unit tests "strips leading and trailing
      whitespace" and "leaves valid JSON unchanged except for whitespace",
      and the blanks the first of them puts around it. */
  const PlainReply: string :=
    "{\"commands\": " + "[\"ls\"], " + "\"explanation\": " + "\"test\"}"
  const PlainPadding: string := "  \n"

  const ScanKey: NestedKey := NestedKey("nmap -sS target", "", " ", "explanation", " ", "SYN scan", "")

  lemma ExplanationIsKey()
    ensures IsExplanationKey("explanation")
  {
    assert "explanation" == "expl" + ("anat" + "ion");
    LowerAllAppend("expl", "anat" + "ion");
    LowerAllAppend("anat", "ion");
    assert LowerAll("expl") == "expl";
    assert LowerAll("anat") == "anat";
    assert LowerAll("ion") == "ion";
  }

  lemma ScanKeyFields()
    ensures '"' !in "nmap -sS target" && '"' !in "SYN scan"
    ensures AllSpace(" ") && AllSpace("")
  {
  }

  lemma ScanKeyWellFormed()
    ensures WellFormed(ScanKey)
  {
    ExplanationIsKey();
    ScanKeyFields();
  }

  const CommandsKey: string := "{\"commands\": "

  // Facts about the literals, one per lemma, so that each stays small.

  lemma ScanValueTail()
    ensures ValueTail(" ", "SYN scan", "") == " \"SYN scan\"]"
  {
  }

  lemma ScanKeyTail()
    ensures KeyTail(" ", "explanation", " \"SYN scan\"]") == " \"explanation" + "\": \"SYN scan\"]"
  {
  }

  lemma ScanCommandTail()
    ensures CommandTail("nmap -sS target", "", " \"explanation" + "\": \"SYN scan\"]")
      == "nmap -sS " + "target\"" + ", \"explanation" + "\": " + "\"SYN scan\"]"
  {
  }

  lemma ScanKeyLayout()
    ensures Layout(ScanKey) == "[\"nmap -sS " + "target\"" + ", \"explanation" + "\": " + "\"SYN scan\"]"
  {
    ScanValueTail();
    ScanKeyTail();
    ScanCommandTail();
  }

  lemma ReplyLayout()
    ensures StructuralReply == CommandsKey + Layout(ScanKey) + "}"
  {
    ScanKeyLayout();
  }

  lemma RepairedLayout()
    ensures StructuralRepaired == CommandsKey + Rewritten(ScanKey) + "}"
  {
    assert Rewritten(ScanKey)
      == "[\"" + "nmap -sS target" + "\"" + "" + "], \"" + "explanation" + "\": \"" + "SYN scan" + "\"";
    assert "[\"" + "nmap -sS target" + "\"" + "" == "[\"" + "nmap -sS target" + "\"";
  }

  lemma ReplyNoBacktick()
    ensures '`' !in StructuralReply
  {
  }

  lemma PlainNoBacktick()
    ensures '`' !in PlainReply && '`' !in PlainPadding
  {
  }

  lemma PlainStripped()
    ensures PlainReply != [] && IsStripped(PlainReply) && AllSpace(PlainPadding)
  {
  }

  lemma ReplyNoBackslash()
    ensures '\\' !in StructuralReply
  {
  }

  lemma ReplyNoUnderscore()
    ensures '_' !in StructuralReply
  {
  }

  lemma ReplyNoApostrophe()
    ensures '\'' !in StructuralReply
  {
  }

  lemma ReplyCommas()
    ensures '[' !in CommandsKey && ',' !in CommandsKey + "}" + ScanKey.command + ScanKey.value
  {
    var a, c, d := CommandsKey, ScanKey.command, ScanKey.value;
    assert '[' !in a && ',' !in a;
    assert ',' !in c;
    assert ',' !in d;
    assert ',' !in a + "}" + c + d;
  }
}
