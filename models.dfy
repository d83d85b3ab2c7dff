/**
 * The answer schema of the command endpoint (`CommandGenerationResponse`,
 * and main.py's `CommandResponse`, which declares the same two fields) and
 * what building it from a dictionary of decoded values accepts.
 */
module Models {
  import opened Wrappers
  import opened JsonValue

  datatype CommandGenerationResponse = CommandGenerationResponse(commands: seq<string>, explanation: string)

  /** The declared fields, `CommandGenerationResponse.model_fields`. */
  const RequiredKeys: set<string> := {"commands", "explanation"}

  /** A decoded list read as `list[str]`: every item must be a string. */
  function StringList(items: seq<Json>): (r: Option<seq<string>>)
    ensures r.Some? <==> forall i :: 0 <= i < |items| ==> items[i].JString?
    ensures r.Some? ==> |r.value| == |items| && forall i :: 0 <= i < |items| ==> r.value[i] == items[i].s
    decreases |items|
  {
    if items == [] then Some([])
    else if !items[0].JString? then None
    else
      match StringList(items[1..])
      case None => None
      case Some(rest) => Some([items[0].s] + rest)
  }

  /** `CommandGenerationResponse(**fields)`: pydantic accepts a list of
      strings for `commands` and a string for `explanation`, ignores any
      other key, and raises `ValidationError` otherwise. */
  function Validate(fields: map<string, Json>): (r: Option<CommandGenerationResponse>)
    ensures r.Some? <==>
      && "commands" in fields && fields["commands"].JArray?
      && (forall i :: 0 <= i < |fields["commands"].items| ==> fields["commands"].items[i].JString?)
      && "explanation" in fields && fields["explanation"].JString?
    ensures r.Some? ==>
      && r.value.explanation == fields["explanation"].s
      && |r.value.commands| == |fields["commands"].items|
      && forall i :: 0 <= i < |r.value.commands| ==> r.value.commands[i] == fields["commands"].items[i].s
  {
    if "commands" !in fields || !fields["commands"].JArray? then None
    else if "explanation" !in fields || !fields["explanation"].JString? then None
    else
      match StringList(fields["commands"].items)
      case None => None
      case Some(commands) => Some(CommandGenerationResponse(commands, fields["explanation"].s))
  }
}
