/**
 * What the `/api/generate-command` handler does once the model has
 * answered: clean the reply, decode it, check the declared fields, and
 * classify the request as answered, degraded (fields missing) or failed
 * with a 500 whose detail carries the cleaned reply. The model, the JSON
 * decoder, the sanitizer and the texts of exceptions the model cannot
 * see are collaborators passed in.
 */
module Api {
  import opened Wrappers
  import opened Text
  import opened JsonValue
  import opened Models
  import opened Helpers
  import JsonRepair
  import Chatbot

  const InvalidJsonError := "Invalid JSON response from LLM"
  const GenericError := "Failed to generate or parse LLM response"
  const NoResponse := "No response"
  const MissingKeysPrefix := "Missing required keys in LLM response: "

  /** An `HTTPException` and its detail dictionary. */
  datatype HttpError = HttpError(status: nat, error: string, details: string, raw: string)

  /** `get_server_error(error, exception, response_text)`; `details` is
      `str(exception)`. */
  function GetServerError(error: string, details: string, responseText: Option<string>): (e: HttpError)
    ensures e.status == 500 && e.error == error && e.details == details
    ensures responseText.Some? && responseText.value != [] ==> e.raw == responseText.value
    ensures responseText == None || responseText == Some([]) ==> e.raw == NoResponse
  {
    HttpError(500, error, details, if responseText.Some? && responseText.value != [] then responseText.value else NoResponse)
  }

  /** The reply text is recovered from the detail, except for a reply that
      reads `No response` itself. */
  lemma ServerErrorRawFaithful(error: string, details: string, a: Option<string>, b: Option<string>)
    requires a.Some? && a.value != [] && a.value != NoResponse
    requires GetServerError(error, details, a).raw == GetServerError(error, details, b).raw
    ensures b == a
  {
  }

  /** What the model call gives back: a text, or an exception's text. */
  datatype LlmReply = Replied(text: string) | Raised(message: string)

  /** The exceptions whose text comes from code outside this model:
      `AttributeError` when the decoded value has no `keys`, and pydantic's
      `ValidationError`. */
  datatype Problem = NotADict(value: Json) | Rejected(fields: map<string, Json>)

  /** The collaborators of a request: the model, `json.loads`,
      `sanitize_text`, `str()` of the exceptions above, and whether the
      (hash-ordered) set of two missing keys prints `commands` first. */
  datatype Services = Services(
    llm: string -> LlmReply,
    parse: string -> Decoded,
    sanitize: string -> string,
    describe: Problem -> string,
    commandsFirst: bool)

  /** How a request ends: an answer (possibly a degraded one) or a 500. */
  datatype Outcome = Answered(response: CommandGenerationResponse) | Failed(error: HttpError)

  /** The missing keys in the order the set prints them. */
  function KeyOrder(missing: set<string>, commandsFirst: bool): (keys: seq<string>)
    requires missing <= RequiredKeys
    ensures forall k :: k in keys <==> k in missing
    ensures |keys| == |missing|
  {
    if missing == RequiredKeys then
      assert |RequiredKeys| == 2 by {
        assert RequiredKeys == {"commands"} + {"explanation"};
      }
      if commandsFirst then ["commands", "explanation"] else ["explanation", "commands"]
    else if "commands" in missing then
      assert missing == {"commands"};
      ["commands"]
    else if "explanation" in missing then
      assert missing == {"explanation"};
      ["explanation"]
    else
      assert missing == {};
      []
  }

  /** Python's `repr` of a key, which has no quote or backslash in it. */
  function Quoted(keys: seq<string>): (q: seq<string>)
    ensures |q| == |keys|
    ensures forall i :: 0 <= i < |keys| ==> q[i] == "'" + keys[i] + "'"
  {
    seq(|keys|, i requires 0 <= i < |keys| => "'" + keys[i] + "'")
  }

  /** `f"{missing_keys}"`. */
  function SetText(keys: seq<string>): string {
    if keys == [] then "set()" else "{" + Join(Quoted(keys), ", ") + "}"
  }

  /** A set printed as `{...}` shows each of its keys in quotes. */
  lemma SetTextShows(keys: seq<string>, i: nat)
    requires i < |keys|
    ensures Contains(SetText(keys), "'" + keys[i] + "'")
  {
    var q := Quoted(keys);
    JoinHasPart(q, ", ", i);
    var a, b :| Join(q, ", ") == a + q[i] + b;
    Regroup("{", a, q[i], b, "}");
    ContainsInfix("{" + a, q[i], b + "}");
  }

  lemma Regroup(x: string, a: string, p: string, b: string, y: string)
    ensures x + (a + p + b) + y == (x + a) + p + (b + y)
  {
  }

  /** Text after a prefix is still found once the prefix is put back. */
  lemma ContainsAfter(pre: string, s: string, p: string)
    requires Contains(s, p)
    ensures Contains(pre + s, p)
    decreases |pre|
  {
    if pre != [] {
      assert (pre + s)[1..] == pre[1..] + s;
      ContainsAfter(pre[1..], s, p);
    } else {
      assert pre + s == s;
    }
  }

  /** The explanation of a degraded answer names every missing key. */
  function MissingKeysMessage(missing: set<string>, commandsFirst: bool): (m: string)
    requires missing <= RequiredKeys
    ensures StartsWith(m, MissingKeysPrefix)
    ensures forall k :: k in missing ==> Contains(m, "'" + k + "'")
    ensures forall k :: k in RequiredKeys && k !in missing ==> !Contains(m, "'" + k + "'")
    ensures exists keys: seq<string> ::
      (forall k :: k in keys <==> k in missing) && |keys| == |missing| && m == MissingKeysPrefix + SetText(keys)
  {
    var keys := KeyOrder(missing, commandsFirst);
    StartsWithAppend(MissingKeysPrefix, SetText(keys));
    forall k | k in missing
      ensures Contains(MissingKeysPrefix + SetText(keys), "'" + k + "'")
    {
      var i :| 0 <= i < |keys| && keys[i] == k;
      SetTextShows(keys, i);
      ContainsAfter(MissingKeysPrefix, SetText(keys), "'" + k + "'");
    }
    forall k | k in RequiredKeys && k !in missing
      ensures !Contains(MissingKeysPrefix + SetText(keys), "'" + k + "'")
    {
      PresentKeyNotNamed(missing, keys, k);
    }
    MissingKeysPrefix + SetText(keys)
  }

  /** `{'k'}`: a one-key set prints as that key in quotes and braces. */
  lemma SingleKeyText(k: string)
    ensures SetText([k]) == "{'" + k + "'}"
  {
    assert Quoted([k]) == ["'" + k + "'"];
  }

  /** No letter `c` in the message naming only the explanation or no key. */
  lemma NoCommandsLetter()
    ensures 'c' !in MissingKeysPrefix + "{'explanation'}"
    ensures 'c' !in MissingKeysPrefix + "set()"
  {
  }

  /** No letter `x` in the message naming only the commands or no key. */
  lemma NoExplanationLetter()
    ensures 'x' !in MissingKeysPrefix + "{'commands'}"
    ensures 'x' !in MissingKeysPrefix + "set()"
  {
  }

  /** A key the dictionary has is not named in the message. */
  lemma PresentKeyNotNamed(missing: set<string>, keys: seq<string>, k: string)
    requires missing <= RequiredKeys && k in RequiredKeys && k !in missing
    requires (forall j :: j in keys <==> j in missing) && |keys| == |missing|
    ensures !Contains(MissingKeysPrefix + SetText(keys), "'" + k + "'")
  {
    if keys == [] {
      NoKeyNamed(k);
    } else {
      var j := keys[0];
      assert j in missing && j != k;
      assert missing == {j};
      assert keys == [j];
      OtherKeyNotNamed(j, k);
    }
  }

  /** `set()` names no key. */
  lemma NoKeyNamed(k: string)
    requires k in RequiredKeys
    ensures !Contains(MissingKeysPrefix + SetText([]), "'" + k + "'")
  {
    var m := MissingKeysPrefix + SetText([]);
    NoCommandsLetter();
    NoExplanationLetter();
    if k == "commands" {
      ContainsNeedsChar(m, "'" + k + "'", 1);
    } else {
      assert ("'" + k + "'")[2] == 'x';
      ContainsNeedsChar(m, "'" + k + "'", 2);
    }
  }

  /** A message naming one declared field does not name the other. */
  lemma OtherKeyNotNamed(j: string, k: string)
    requires j in RequiredKeys && k in RequiredKeys && j != k
    ensures !Contains(MissingKeysPrefix + SetText([j]), "'" + k + "'")
  {
    SingleKeyText(j);
    var m := MissingKeysPrefix + SetText([j]);
    if k == "commands" {
      assert m == MissingKeysPrefix + "{'explanation'}";
      NoCommandsLetter();
      ContainsNeedsChar(m, "'" + k + "'", 1);
    } else {
      assert m == MissingKeysPrefix + "{'commands'}";
      NoExplanationLetter();
      assert ("'" + k + "'")[2] == 'x';
      ContainsNeedsChar(m, "'" + k + "'", 2);
    }
  }

  /** The prompt sent to the model: the command prompt for the task, through
      the sanitizer. */
  function CommandPrompt(task: string, sanitize: string -> string): (p: string)
    ensures p == sanitize(Chatbot.Profile + Chatbot.Scenarios + Chatbot.TaskText(task) + Chatbot.JsonHint)
  {
    Chatbot.PromptCommandGenerationText(task);
    sanitize(Chatbot.PromptCommandGeneration(task).value)
  }

  /** `clean_json_response` with `json.loads` as the validity test. */
  function Cleaned(reply: string, svc: Services): (t: string)
    ensures IsStripped(t)
  {
    JsonRepair.CleanJsonResponse(reply, s => svc.parse(s).Parsed?)
  }

  /** Everything after the model call, for the cleaned reply `text`. */
  function AnswerFrom(text: string, svc: Services): Outcome {
    match svc.parse(text)
    case DecodeError(m) => Failed(GetServerError(InvalidJsonError, m, Some(text)))
    case Parsed(v) =>
      if !v.JObject? then Failed(GetServerError(GenericError, svc.describe(NotADict(v)), Some(text)))
      else
        var missing := RequiredKeys - v.fields.Keys;
        if missing != {} then Answered(CommandGenerationResponse([], MissingKeysMessage(missing, svc.commandsFirst)))
        else
          var clean := SanitizedDict(v.fields, svc.sanitize);
          match Validate(clean)
          case Some(resp) => Answered(resp)
          case None => Failed(GetServerError(GenericError, svc.describe(Rejected(clean)), Some(text)))
  }

  /** Everything after the prompt is sent: `response_text` stays `None`
      when the model call raises. */
  function Respond(reply: LlmReply, svc: Services): Outcome {
    match reply
    case Raised(m) => Failed(GetServerError(GenericError, m, None))
    case Replied(t) => AnswerFrom(Cleaned(t, svc), svc)
  }

  /** `generate_command(request, prompt)` for the task `prompt.prompt`. */
  function GenerateCommand(task: string, svc: Services): (r: Outcome)
    ensures r == Respond(svc.llm(svc.sanitize(Chatbot.Profile + Chatbot.Scenarios + Chatbot.TaskText(task) + Chatbot.JsonHint)), svc)
  {
    Respond(svc.llm(CommandPrompt(task, svc.sanitize)), svc)
  }

  /** A failing model call is a 500 with no reply to show. */
  lemma LlmFailureHasNoRaw(reply: LlmReply, svc: Services)
    requires reply.Raised?
    ensures Respond(reply, svc) == Failed(HttpError(500, GenericError, reply.message, NoResponse))
  {
  }

  /** Every 500 is raised with the cleaned reply, or with `No response`
      when there is none; a decoding failure is reported as such and only
      then. */
  lemma FailuresCarryCleanedReply(reply: LlmReply, svc: Services)
    ensures var r := Respond(reply, svc);
      r.Failed? ==>
        && r.error.status == 500
        && (r.error.raw == NoResponse || (reply.Replied? && r.error.raw == Cleaned(reply.text, svc)))
        && (r.error.error == InvalidJsonError <==> reply.Replied? && svc.parse(Cleaned(reply.text, svc)).DecodeError?)
  {
    if reply.Replied? {
      AnswerFromFailures(Cleaned(reply.text, svc), svc);
    }
  }

  /** After the model call, a 500 carries the text it was given, and names
      a decoding failure exactly when decoding failed. */
  lemma AnswerFromFailures(text: string, svc: Services)
    ensures var r := AnswerFrom(text, svc);
      r.Failed? ==>
        && r.error.status == 500
        && r.error.raw == (if text == [] then NoResponse else text)
        && (r.error.error == InvalidJsonError <==> svc.parse(text).DecodeError?)
  {
  }

  /** A reply that decodes to a dictionary lacking a declared field gives a
      degraded answer, not an error: no commands, and an explanation naming
      the missing fields. */
  lemma MissingKeysDegrade(text: string, svc: Services)
    requires svc.parse(text).Parsed? && svc.parse(text).value.JObject?
    requires !(RequiredKeys <= svc.parse(text).value.fields.Keys)
    ensures var r := AnswerFrom(text, svc);
      && r.Answered? && r.response.commands == []
      && StartsWith(r.response.explanation, MissingKeysPrefix)
      && (forall k :: k in RequiredKeys ==>
            (Contains(r.response.explanation, "'" + k + "'") <==> k !in svc.parse(text).value.fields))
      && r.response.explanation == MissingKeysMessage(RequiredKeys - svc.parse(text).value.fields.Keys, svc.commandsFirst)
  {
    var missing := RequiredKeys - svc.parse(text).value.fields.Keys;
    assert missing != {} by {
      var k :| k in RequiredKeys && k !in svc.parse(text).value.fields.Keys;
      assert k in missing;
    }
  }

  /** An accepted answer is the sanitized dictionary read as the schema:
      the explanation and every command went through the sanitizer, in
      order, and a dictionary with both fields is accepted exactly when
      the commands are all strings and the explanation is one. */
  lemma AcceptedIsSanitized(text: string, svc: Services)
    requires svc.parse(text).Parsed? && svc.parse(text).value.JObject?
    requires RequiredKeys <= svc.parse(text).value.fields.Keys
    ensures var f := svc.parse(text).value.fields;
      var r := AnswerFrom(text, svc);
      && (r.Answered? <==>
            f["commands"].JArray? && f["explanation"].JString? &&
            forall i :: 0 <= i < |f["commands"].items| ==> f["commands"].items[i].JString?)
      && (r.Answered? ==>
            && r.response.explanation == svc.sanitize(f["explanation"].s)
            && |r.response.commands| == |f["commands"].items|
            && forall i :: 0 <= i < |r.response.commands| ==>
                 r.response.commands[i] == svc.sanitize(f["commands"].items[i].s))
  {
    var f := svc.parse(text).value.fields;
    assert "commands" in RequiredKeys && "explanation" in RequiredKeys;
    NoneMissing(f.Keys);
    var clean := SanitizedDict(f, svc.sanitize);
    assert clean["commands"] == SanitizeValue(f["commands"], svc.sanitize);
    assert clean["explanation"] == SanitizeValue(f["explanation"], svc.sanitize);
    if f["commands"].JArray? {
      forall i | 0 <= i < |f["commands"].items|
        ensures clean["commands"].items[i].JString? <==> f["commands"].items[i].JString?
      {
        assert clean["commands"].items[i] == SanitizeItem(f["commands"].items[i], svc.sanitize);
      }
    }
  }

  /** The request is answered exactly when the model replied with a
      dictionary that lacks a declared field or reads as the schema once
      sanitized. */
  lemma AnsweredIff(reply: LlmReply, svc: Services)
    ensures Respond(reply, svc).Answered? <==>
      reply.Replied? && AnswerableText(Cleaned(reply.text, svc), svc)
  {
    if reply.Replied? {
      AnswerFromAnsweredIff(Cleaned(reply.text, svc), svc);
    }
  }

  /** A text that decodes to a dictionary which lacks a declared field, or
      which reads as the schema once sanitized. */
  predicate AnswerableText(text: string, svc: Services) {
    && svc.parse(text).Parsed?
    && svc.parse(text).value.JObject?
    && var f := svc.parse(text).value.fields;
       (!(RequiredKeys <= f.Keys) || Validate(SanitizedDict(f, svc.sanitize)).Some?)
  }

  lemma AnswerFromAnsweredIff(text: string, svc: Services)
    ensures AnswerFrom(text, svc).Answered? <==> AnswerableText(text, svc)
  {
    if svc.parse(text).Parsed? && svc.parse(text).value.JObject? {
      NoneMissing(svc.parse(text).value.fields.Keys);
    }
  }

  /** No declared field is missing exactly when all of them are there. */
  lemma NoneMissing(keys: set<string>)
    ensures (RequiredKeys - keys == {}) <==> RequiredKeys <= keys
  {
    if RequiredKeys - keys == {} {
      forall k | k in RequiredKeys
        ensures k in keys
      {
        assert k !in RequiredKeys - keys;
      }
    }
  }
}
