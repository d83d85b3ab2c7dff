/**
 * The standalone `main.py` endpoint: its own prompt template (the
 * assistant profile and scenarios of the chatbot, with a different last
 * line), and a handler that decodes the model's reply as it is, treats a
 * missing field as an error and coerces `commands` into a list.
 */
module MainApp {
  import opened Wrappers
  import opened Text
  import opened PromptFormat
  import opened JsonValue
  import opened Models
  import opened Api
  import opened Chatbot

  const FormatHintPrefix := "Respond in this " + "format: "
  const FormatHintTemplate := FormatHintPrefix + "{{" + AnswerFields + "}}"

  /** What the last line of the template reads once formatted. */
  const FormatHint := FormatHintPrefix + "{" + AnswerFields + "}"

  /** `template`: the chatbot's profile and scenarios, the task, and the
      answer format. */
  const MainTemplate := Profile + Scenarios + TaskLine + FormatHintTemplate

  /** `prompt_template`. */
  function MainPromptTemplate(): PromptTemplate {
    PromptTemplate(["task"], MainTemplate)
  }

  lemma FormatHintPrefixBraceFree()
    ensures BraceFree(FormatHintPrefix)
  {
    var c0, c1 := "Respond in this ", "format: ";
    assert BraceFree(c0);
    assert BraceFree(c1);
    BraceFreeAppend(c0, c1);
  }

  /** The doubled braces of the last line stand for single ones. */
  lemma FormatHintFormats(vars: map<string, string>)
    ensures Format(FormatHintTemplate, vars) == Ok(FormatHint)
  {
    FormatHintPrefixBraceFree();
    AnswerFieldsBraceFree();
    FormatBracedLiteral(FormatHintPrefix, AnswerFields, vars);
  }

  /** `prompt_template.format(task=t)` substitutes the task and prints
      the answer format with single braces; without a task it fails. */
  lemma MainTemplateFormats(vars: map<string, string>)
    ensures "task" in vars ==>
      FormatTemplate(MainPromptTemplate(), vars) == Ok(Profile + Scenarios + TaskText(vars["task"]) + FormatHint)
    ensures "task" !in vars ==> FormatTemplate(MainPromptTemplate(), vars) == Err(MissingField("task"))
  {
    PreambleFormats(vars);
    TaskNameField();
    if "task" in vars {
      TaskLineFormats(vars);
      FormatHintFormats(vars);
      FormatThreeOk(Profile + Scenarios, TaskLine, FormatHintTemplate, vars);
    } else {
      FormatMissingAfter(Profile + Scenarios, TaskPrefix, TaskField, "\n\n", FormatHintTemplate, vars);
    }
  }

  /** `prompt_template.format(task=t)`. */
  function FormatMainTemplate(task: string): Result<string, FormatError> {
    FormatTemplate(MainPromptTemplate(), map["task" := task])
  }

  lemma MainPromptText(task: string)
    ensures FormatMainTemplate(task) == Ok(Profile + Scenarios + TaskText(task) + FormatHint)
  {
    MainTemplateFormats(map["task" := task]);
  }

  /** The prompt `generate_command` sends. */
  function MainPrompt(task: string): (p: string)
    ensures p == Profile + Scenarios + TaskText(task) + FormatHint
  {
    MainPromptText(task);
    FormatMainTemplate(task).value
  }

  /** The two endpoints send the same text up to the answer-format line. */
  lemma PromptsShareAllButLastLine(task: string)
    ensures PromptCommandGeneration(task).Ok?
    ensures PromptCommandGeneration(task).value == Profile + Scenarios + TaskText(task) + JsonHint
    ensures MainPrompt(task) == Profile + Scenarios + TaskText(task) + FormatHint
  {
    PromptCommandGenerationText(task);
  }

  /** `commands` made a list: a list is kept, any other truthy value is
      wrapped, a falsy one becomes empty. */
  function CoerceCommands(v: Json): (r: Json)
    ensures r.JArray?
    ensures v.JArray? ==> r == v
    ensures !v.JArray? && Truthy(v) ==> r.items == [v]
    ensures !v.JArray? && !Truthy(v) ==> r.items == []
  {
    if v.JArray? then v else if Truthy(v) then JArray([v]) else JArray([])
  }

  /** Coercing twice is coercing once, and a coerced value keeps every
      element of the list it came from. */
  lemma CoerceCommandsIdempotent(v: Json)
    ensures CoerceCommands(CoerceCommands(v)) == CoerceCommands(v)
    ensures forall x :: x in CoerceCommands(v).items ==> (v.JArray? && x in v.items) || x == v
  {
  }

  /** Everything after the model call, for the reply `text` exactly as the
      model gave it. */
  function MainAnswerFrom(text: string, svc: Services): Outcome {
    match svc.parse(text)
    case DecodeError(m) => Failed(GetServerError(GenericError, m, Some(text)))
    case Parsed(v) =>
      if !v.JObject? then Failed(GetServerError(GenericError, svc.describe(NotADict(v)), Some(text)))
      else
        var missing := RequiredKeys - v.fields.Keys;
        if missing != {} then Failed(GetServerError(GenericError, MissingKeysMessage(missing, svc.commandsFirst), Some(text)))
        else
          assert "commands" !in missing && "explanation" !in missing;
          var fields := map["commands" := CoerceCommands(v.fields["commands"]), "explanation" := v.fields["explanation"]];
          match Validate(fields)
          case Some(resp) => Answered(resp)
          case None => Failed(GetServerError(GenericError, svc.describe(Rejected(fields)), Some(text)))
  }

  function MainRespond(reply: LlmReply, svc: Services): Outcome {
    match reply
    case Raised(m) => Failed(GetServerError(GenericError, m, None))
    case Replied(t) => MainAnswerFrom(t, svc)
  }

  /** `generate_command(request)`: the prompt is not sanitized and the
      reply is not cleaned. */
  function MainGenerateCommand(task: string, svc: Services): Outcome {
    MainRespond(svc.llm(MainPrompt(task)), svc)
  }

  /** Every failure is reported with the same error text and the reply as
      the model gave it (or `No response`); a missing field is one of them,
      with the missing fields as its details. */
  lemma MainFailures(reply: LlmReply, svc: Services)
    ensures var r := MainRespond(reply, svc);
      r.Failed? ==>
        && r.error.status == 500 && r.error.error == GenericError
        && r.error.raw == (if reply.Raised? || reply.text == [] then NoResponse else reply.text)
  {
  }

  /** Here a dictionary without a declared field is an error, where the
      `/api` handler answers with a degraded response. */
  lemma MainMissingKeyFails(text: string, svc: Services)
    requires svc.parse(text).Parsed? && svc.parse(text).value.JObject?
    requires !(RequiredKeys <= svc.parse(text).value.fields.Keys)
    ensures var r := MainAnswerFrom(text, svc);
      && r.Failed?
      && StartsWith(r.error.details, MissingKeysPrefix)
      && (forall k :: k in RequiredKeys ==>
            (Contains(r.error.details, "'" + k + "'") <==> k !in svc.parse(text).value.fields))
      && r.error.details == MissingKeysMessage(RequiredKeys - svc.parse(text).value.fields.Keys, svc.commandsFirst)
    ensures AnswerFrom(text, svc).Answered?
  {
    var missing := RequiredKeys - svc.parse(text).value.fields.Keys;
    assert missing != {} by {
      var k :| k in RequiredKeys && k !in svc.parse(text).value.fields.Keys;
      assert k in missing;
    }
  }

  /** With both fields present, the reply is accepted exactly when the
      explanation is a string and `commands`, made a list, holds only
      strings: a list of strings is kept, a non-empty string is wrapped and
      a falsy value becomes no commands.  The values are not sanitized. */
  lemma MainAccepted(text: string, svc: Services)
    requires svc.parse(text).Parsed? && svc.parse(text).value.JObject?
    requires RequiredKeys <= svc.parse(text).value.fields.Keys
    ensures var f := svc.parse(text).value.fields;
      var r := MainAnswerFrom(text, svc);
      && (f["commands"].JString? && f["commands"].s != [] && f["explanation"].JString? ==>
            r == Answered(CommandGenerationResponse([f["commands"].s], f["explanation"].s)))
      && (!f["commands"].JArray? && !Truthy(f["commands"]) && f["explanation"].JString? ==>
            r == Answered(CommandGenerationResponse([], f["explanation"].s)))
      && (f["commands"].JArray? && f["explanation"].JString? &&
          (forall i :: 0 <= i < |f["commands"].items| ==> f["commands"].items[i].JString?) ==>
            r.Answered? && |r.response.commands| == |f["commands"].items| &&
            forall i :: 0 <= i < |f["commands"].items| ==> r.response.commands[i] == f["commands"].items[i].s)
      && (r.Answered? <==>
            f["explanation"].JString? &&
            (if f["commands"].JArray?
             then forall i :: 0 <= i < |f["commands"].items| ==> f["commands"].items[i].JString?
             else f["commands"].JString? || !Truthy(f["commands"])))
      && (r.Answered? ==> r.response.explanation == f["explanation"].s)
  {
    var f := svc.parse(text).value.fields;
    assert "commands" in RequiredKeys && "explanation" in RequiredKeys;
    NoneMissing(f.Keys);
    var fields := map["commands" := CoerceCommands(f["commands"]), "explanation" := f["explanation"]];
    if f["commands"].JString? && f["commands"].s != [] && f["explanation"].JString? {
      assert fields["commands"].items == [f["commands"]];
      assert Validate(fields).value.commands == [f["commands"].s];
    }
  }
}
