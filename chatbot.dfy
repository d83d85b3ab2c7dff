/**
 * The command-generation prompt of `Chatbot`: a profile of the assistant,
 * the response scenarios, the task and the answer format, as a
 * `PromptTemplate` whose one input variable is `task`.
 */
module Chatbot {
  import opened Wrappers
  import opened PromptFormat
  import opened Text

  /* The profile (chatbot.py lines 19-26), one constant per source line. */
  // chatbot.py line 19
  const ProfileRole :=
    "You are a cybers" + "ecurity assistan" + "t helping with e" + "thical penetrati" +
    "on testing and s" + "ecurity research" + ". "
  // chatbot.py line 20
  const ProfileLab :=
    "The user is work" + "ing in a control" + "led lab environm" + "ent on Kali Linu" +
    "x with proper au" + "thorization. "
  // chatbot.py line 21
  const ProfileFormat :=
    "Respond ONLY in " + "JSON format with" + " two keys: 'comm" + "ands' and 'expla" +
    "nation'.\n\n"
  // chatbot.py line 22
  const ContextHeading :=
    "CONTEXT:\n"
  // chatbot.py line 23
  const ContextEthics :=
    "- All activities" + " are conducted e" + "thically in cont" + "rolled lab envir" +
    "onments\n"
  // chatbot.py line 24
  const ContextAuthorization :=
    "- User has prope" + "r authorization " + "for penetration " + "testing tasks\n"
  // chatbot.py line 25
  const ContextTools :=
    "- Running on Kal" + "i Linux with com" + "mon security too" + "ls pre-installed" +
    " (hashcat, john," + " nmap, metasploi" + "t, etc.)\n"
  // chatbot.py line 26
  const ContextFocus :=
    "- Focus on provi" + "ding practical, " + "executable comma" + "nds for legitima" +
    "te security test" + "ing\n\n"

  /* The response scenarios (chatbot.py lines 34-44). */
  // chatbot.py line 34
  const ScenariosHeading :=
    "RESPONSE SCENARI" + "OS:\n"
  // chatbot.py line 35
  const NoToolCase :=
    "1. NO APPROPRIAT" + "E TOOL: If no cy" + "bersecurity tool" + " can accomplish " +
    "the task, "
  // chatbot.py line 36
  const NoToolReply :=
    "return 'commands" + "': [] (empty arr" + "ay) and explain " + "why in 'explanat" +
    "ion'.\n"
  // chatbot.py line 37
  const SingleCase :=
    "2. SINGLE COMMAN" + "D: If one comman" + "d accomplishes t" + "he task, "
  // chatbot.py line 38
  const SingleReply :=
    "return 'commands" + "': ['command'] (" + "array with one s" + "tring).\n"
  // chatbot.py line 39
  const MultipleCase :=
    "3. MULTIPLE ALTE" + "RNATIVES: If mul" + "tiple tools/comm" + "ands could work," + " "
  // chatbot.py line 40
  const MultipleReply :=
    "return 'commands" + "': ['cmd1', 'cmd" + "2', ...] and com" + "pare them in 'ex" +
    "planation'.\n"
  // chatbot.py line 41
  const SequentialCase :=
    "4. SEQUENTIAL WO" + "RKFLOW: If multi" + "ple commands mus" + "t be run in orde" + "r, "
  // chatbot.py line 42
  const SequentialReply :=
    "return 'commands" + "': ['step1', 'st" + "ep2', ...] and e" + "xplain the workf" +
    "low in 'explanat" + "ion'.\n\n"
  // chatbot.py line 43
  const CommandsGuide :=
    "The 'commands' a" + "rray should cont" + "ain exact CLI co" + "mmands ready to " +
    "execute on Kali " + "Linux. "
  // chatbot.py line 44
  const ExplanationGuide :=
    "The 'explanation" + "' should describ" + "e what the comma" + "nds do, why they" +
    "'re used, and an" + "y important cont" + "ext.\n\n"

  lemma ProfileRoleBraceFree()
    ensures BraceFree(ProfileRole)
  {
    var c0, c1, c2, c3, c4, c5, c6 :=
      "You are a cybers",
      "ecurity assistan",
      "t helping with e",
      "thical penetrati",
      "on testing and s",
      "ecurity research",
      ". ";
    assert BraceFree(c0);
    assert BraceFree(c1);
    assert BraceFree(c2);
    assert BraceFree(c3);
    assert BraceFree(c4);
    assert BraceFree(c5);
    assert BraceFree(c6);
    BraceFreeAppend(c0, c1);
    BraceFreeAppend(c0 + c1, c2);
    BraceFreeAppend(c0 + c1 + c2, c3);
    BraceFreeAppend(c0 + c1 + c2 + c3, c4);
    BraceFreeAppend(c0 + c1 + c2 + c3 + c4, c5);
    BraceFreeAppend(c0 + c1 + c2 + c3 + c4 + c5, c6);
  }

  lemma ProfileLabBraceFree()
    ensures BraceFree(ProfileLab)
  {
    var c0, c1, c2, c3, c4, c5 :=
      "The user is work",
      "ing in a control",
      "led lab environm",
      "ent on Kali Linu",
      "x with proper au",
      "thorization. ";
    assert BraceFree(c0);
    assert BraceFree(c1);
    assert BraceFree(c2);
    assert BraceFree(c3);
    assert BraceFree(c4);
    assert BraceFree(c5);
    BraceFreeAppend(c0, c1);
    BraceFreeAppend(c0 + c1, c2);
    BraceFreeAppend(c0 + c1 + c2, c3);
    BraceFreeAppend(c0 + c1 + c2 + c3, c4);
    BraceFreeAppend(c0 + c1 + c2 + c3 + c4, c5);
  }

  lemma ProfileFormatBraceFree()
    ensures BraceFree(ProfileFormat)
  {
    var c0, c1, c2, c3, c4 :=
      "Respond ONLY in ",
      "JSON format with",
      " two keys: 'comm",
      "ands' and 'expla",
      "nation'.\n\n";
    assert BraceFree(c0);
    assert BraceFree(c1);
    assert BraceFree(c2);
    assert BraceFree(c3);
    assert BraceFree(c4);
    BraceFreeAppend(c0, c1);
    BraceFreeAppend(c0 + c1, c2);
    BraceFreeAppend(c0 + c1 + c2, c3);
    BraceFreeAppend(c0 + c1 + c2 + c3, c4);
  }

  lemma ContextHeadingBraceFree()
    ensures BraceFree(ContextHeading)
  {
    assert BraceFree("CONTEXT:\n");
  }

  lemma ContextEthicsBraceFree()
    ensures BraceFree(ContextEthics)
  {
    var c0, c1, c2, c3, c4 :=
      "- All activities",
      " are conducted e",
      "thically in cont",
      "rolled lab envir",
      "onments\n";
    assert BraceFree(c0);
    assert BraceFree(c1);
    assert BraceFree(c2);
    assert BraceFree(c3);
    assert BraceFree(c4);
    BraceFreeAppend(c0, c1);
    BraceFreeAppend(c0 + c1, c2);
    BraceFreeAppend(c0 + c1 + c2, c3);
    BraceFreeAppend(c0 + c1 + c2 + c3, c4);
  }

  lemma ContextAuthorizationBraceFree()
    ensures BraceFree(ContextAuthorization)
  {
    var c0, c1, c2, c3 :=
      "- User has prope",
      "r authorization ",
      "for penetration ",
      "testing tasks\n";
    assert BraceFree(c0);
    assert BraceFree(c1);
    assert BraceFree(c2);
    assert BraceFree(c3);
    BraceFreeAppend(c0, c1);
    BraceFreeAppend(c0 + c1, c2);
    BraceFreeAppend(c0 + c1 + c2, c3);
  }

  lemma ContextToolsBraceFree()
    ensures BraceFree(ContextTools)
  {
    var c0, c1, c2, c3, c4, c5, c6 :=
      "- Running on Kal",
      "i Linux with com",
      "mon security too",
      "ls pre-installed",
      " (hashcat, john,",
      " nmap, metasploi",
      "t, etc.)\n";
    assert BraceFree(c0);
    assert BraceFree(c1);
    assert BraceFree(c2);
    assert BraceFree(c3);
    assert BraceFree(c4);
    assert BraceFree(c5);
    assert BraceFree(c6);
    BraceFreeAppend(c0, c1);
    BraceFreeAppend(c0 + c1, c2);
    BraceFreeAppend(c0 + c1 + c2, c3);
    BraceFreeAppend(c0 + c1 + c2 + c3, c4);
    BraceFreeAppend(c0 + c1 + c2 + c3 + c4, c5);
    BraceFreeAppend(c0 + c1 + c2 + c3 + c4 + c5, c6);
  }

  lemma ContextFocusBraceFree()
    ensures BraceFree(ContextFocus)
  {
    var c0, c1, c2, c3, c4, c5 :=
      "- Focus on provi",
      "ding practical, ",
      "executable comma",
      "nds for legitima",
      "te security test",
      "ing\n\n";
    assert BraceFree(c0);
    assert BraceFree(c1);
    assert BraceFree(c2);
    assert BraceFree(c3);
    assert BraceFree(c4);
    assert BraceFree(c5);
    BraceFreeAppend(c0, c1);
    BraceFreeAppend(c0 + c1, c2);
    BraceFreeAppend(c0 + c1 + c2, c3);
    BraceFreeAppend(c0 + c1 + c2 + c3, c4);
    BraceFreeAppend(c0 + c1 + c2 + c3 + c4, c5);
  }

  lemma ScenariosHeadingBraceFree()
    ensures BraceFree(ScenariosHeading)
  {
    var c0, c1 :=
      "RESPONSE SCENARI",
      "OS:\n";
    assert BraceFree(c0);
    assert BraceFree(c1);
    BraceFreeAppend(c0, c1);
  }

  lemma NoToolCaseBraceFree()
    ensures BraceFree(NoToolCase)
  {
    var c0, c1, c2, c3, c4 :=
      "1. NO APPROPRIAT",
      "E TOOL: If no cy",
      "bersecurity tool",
      " can accomplish ",
      "the task, ";
    assert BraceFree(c0);
    assert BraceFree(c1);
    assert BraceFree(c2);
    assert BraceFree(c3);
    assert BraceFree(c4);
    BraceFreeAppend(c0, c1);
    BraceFreeAppend(c0 + c1, c2);
    BraceFreeAppend(c0 + c1 + c2, c3);
    BraceFreeAppend(c0 + c1 + c2 + c3, c4);
  }

  lemma NoToolReplyBraceFree()
    ensures BraceFree(NoToolReply)
  {
    var c0, c1, c2, c3, c4 :=
      "return 'commands",
      "': [] (empty arr",
      "ay) and explain ",
      "why in 'explanat",
      "ion'.\n";
    assert BraceFree(c0);
    assert BraceFree(c1);
    assert BraceFree(c2);
    assert BraceFree(c3);
    assert BraceFree(c4);
    BraceFreeAppend(c0, c1);
    BraceFreeAppend(c0 + c1, c2);
    BraceFreeAppend(c0 + c1 + c2, c3);
    BraceFreeAppend(c0 + c1 + c2 + c3, c4);
  }

  lemma SingleCaseBraceFree()
    ensures BraceFree(SingleCase)
  {
    var c0, c1, c2, c3 :=
      "2. SINGLE COMMAN",
      "D: If one comman",
      "d accomplishes t",
      "he task, ";
    assert BraceFree(c0);
    assert BraceFree(c1);
    assert BraceFree(c2);
    assert BraceFree(c3);
    BraceFreeAppend(c0, c1);
    BraceFreeAppend(c0 + c1, c2);
    BraceFreeAppend(c0 + c1 + c2, c3);
  }

  lemma SingleReplyBraceFree()
    ensures BraceFree(SingleReply)
  {
    var c0, c1, c2, c3 :=
      "return 'commands",
      "': ['command'] (",
      "array with one s",
      "tring).\n";
    assert BraceFree(c0);
    assert BraceFree(c1);
    assert BraceFree(c2);
    assert BraceFree(c3);
    BraceFreeAppend(c0, c1);
    BraceFreeAppend(c0 + c1, c2);
    BraceFreeAppend(c0 + c1 + c2, c3);
  }

  lemma MultipleCaseBraceFree()
    ensures BraceFree(MultipleCase)
  {
    var c0, c1, c2, c3, c4 :=
      "3. MULTIPLE ALTE",
      "RNATIVES: If mul",
      "tiple tools/comm",
      "ands could work,",
      " ";
    assert BraceFree(c0);
    assert BraceFree(c1);
    assert BraceFree(c2);
    assert BraceFree(c3);
    assert BraceFree(c4);
    BraceFreeAppend(c0, c1);
    BraceFreeAppend(c0 + c1, c2);
    BraceFreeAppend(c0 + c1 + c2, c3);
    BraceFreeAppend(c0 + c1 + c2 + c3, c4);
  }

  lemma MultipleReplyBraceFree()
    ensures BraceFree(MultipleReply)
  {
    var c0, c1, c2, c3, c4 :=
      "return 'commands",
      "': ['cmd1', 'cmd",
      "2', ...] and com",
      "pare them in 'ex",
      "planation'.\n";
    assert BraceFree(c0);
    assert BraceFree(c1);
    assert BraceFree(c2);
    assert BraceFree(c3);
    assert BraceFree(c4);
    BraceFreeAppend(c0, c1);
    BraceFreeAppend(c0 + c1, c2);
    BraceFreeAppend(c0 + c1 + c2, c3);
    BraceFreeAppend(c0 + c1 + c2 + c3, c4);
  }

  lemma SequentialCaseBraceFree()
    ensures BraceFree(SequentialCase)
  {
    var c0, c1, c2, c3, c4 :=
      "4. SEQUENTIAL WO",
      "RKFLOW: If multi",
      "ple commands mus",
      "t be run in orde",
      "r, ";
    assert BraceFree(c0);
    assert BraceFree(c1);
    assert BraceFree(c2);
    assert BraceFree(c3);
    assert BraceFree(c4);
    BraceFreeAppend(c0, c1);
    BraceFreeAppend(c0 + c1, c2);
    BraceFreeAppend(c0 + c1 + c2, c3);
    BraceFreeAppend(c0 + c1 + c2 + c3, c4);
  }

  lemma SequentialReplyBraceFree()
    ensures BraceFree(SequentialReply)
  {
    var c0, c1, c2, c3, c4, c5 :=
      "return 'commands",
      "': ['step1', 'st",
      "ep2', ...] and e",
      "xplain the workf",
      "low in 'explanat",
      "ion'.\n\n";
    assert BraceFree(c0);
    assert BraceFree(c1);
    assert BraceFree(c2);
    assert BraceFree(c3);
    assert BraceFree(c4);
    assert BraceFree(c5);
    BraceFreeAppend(c0, c1);
    BraceFreeAppend(c0 + c1, c2);
    BraceFreeAppend(c0 + c1 + c2, c3);
    BraceFreeAppend(c0 + c1 + c2 + c3, c4);
    BraceFreeAppend(c0 + c1 + c2 + c3 + c4, c5);
  }

  lemma CommandsGuideBraceFree()
    ensures BraceFree(CommandsGuide)
  {
    var c0, c1, c2, c3, c4, c5 :=
      "The 'commands' a",
      "rray should cont",
      "ain exact CLI co",
      "mmands ready to ",
      "execute on Kali ",
      "Linux. ";
    assert BraceFree(c0);
    assert BraceFree(c1);
    assert BraceFree(c2);
    assert BraceFree(c3);
    assert BraceFree(c4);
    assert BraceFree(c5);
    BraceFreeAppend(c0, c1);
    BraceFreeAppend(c0 + c1, c2);
    BraceFreeAppend(c0 + c1 + c2, c3);
    BraceFreeAppend(c0 + c1 + c2 + c3, c4);
    BraceFreeAppend(c0 + c1 + c2 + c3 + c4, c5);
  }

  lemma ExplanationGuideBraceFree()
    ensures BraceFree(ExplanationGuide)
  {
    var c0, c1, c2, c3, c4, c5, c6 :=
      "The 'explanation",
      "' should describ",
      "e what the comma",
      "nds do, why they",
      "'re used, and an",
      "y important cont",
      "ext.\n\n";
    assert BraceFree(c0);
    assert BraceFree(c1);
    assert BraceFree(c2);
    assert BraceFree(c3);
    assert BraceFree(c4);
    assert BraceFree(c5);
    assert BraceFree(c6);
    BraceFreeAppend(c0, c1);
    BraceFreeAppend(c0 + c1, c2);
    BraceFreeAppend(c0 + c1 + c2, c3);
    BraceFreeAppend(c0 + c1 + c2 + c3, c4);
    BraceFreeAppend(c0 + c1 + c2 + c3 + c4, c5);
    BraceFreeAppend(c0 + c1 + c2 + c3 + c4 + c5, c6);
  }


  const Profile :=
    ProfileRole + ProfileLab + ProfileFormat + ContextHeading + ContextEthics +
    ContextAuthorization + ContextTools + ContextFocus

  const Scenarios :=
    ScenariosHeading + NoToolCase + NoToolReply + SingleCase + SingleReply + MultipleCase +
    MultipleReply + SequentialCase + SequentialReply + CommandsGuide + ExplanationGuide

  const TaskPrefix := "Task: "
  const TaskField := "task"
  const TaskLine := TaskPrefix + "{" + TaskField + "}" + "\n\n"
  const JsonHintPrefix := "Respond in JSON " + "format: "
  /** The answer format, between the doubled braces of the template. */
  const AnswerFields := "'commands': [..." + "], 'explanation'" + ": '...'"
  const JsonHintTemplate := JsonHintPrefix + "{{" + AnswerFields + "}}"

  /** What the answer-format line reads once formatted. */
  const JsonHint := JsonHintPrefix + "{" + AnswerFields + "}"

  /** The template text of `pt_command_generation`. */
  const CommandTemplate := Profile + Scenarios + TaskLine + JsonHintTemplate

  /** A langchain `PromptTemplate`: its declared input variables and its text. */
  datatype PromptTemplate = PromptTemplate(inputVariables: seq<string>, template: string)

  function PtCommandGeneration(): PromptTemplate {
    PromptTemplate(["task"], CommandTemplate)
  }

  /** `PromptTemplate.format(**vars)`. */
  function FormatTemplate(pt: PromptTemplate, vars: map<string, string>): Result<string, FormatError> {
    Format(pt.template, vars)
  }

  /** `prompt_command_generation(task)`. */
  function PromptCommandGeneration(task: string): Result<string, FormatError> {
    FormatTemplate(PtCommandGeneration(), map["task" := task])
  }

  lemma ProfileBraceFree()
    ensures BraceFree(Profile)
  {
    ProfileRoleBraceFree();
    ProfileLabBraceFree();
    ProfileFormatBraceFree();
    ContextHeadingBraceFree();
    ContextEthicsBraceFree();
    ContextAuthorizationBraceFree();
    ContextToolsBraceFree();
    ContextFocusBraceFree();
    BraceFreeAppend(ProfileRole, ProfileLab);
    BraceFreeAppend(ProfileRole + ProfileLab, ProfileFormat);
    BraceFreeAppend(ProfileRole + ProfileLab + ProfileFormat, ContextHeading);
    BraceFreeAppend(ProfileRole + ProfileLab + ProfileFormat + ContextHeading, ContextEthics);
    BraceFreeAppend(ProfileRole + ProfileLab + ProfileFormat + ContextHeading + ContextEthics, ContextAuthorization);
    BraceFreeAppend(ProfileRole + ProfileLab + ProfileFormat + ContextHeading + ContextEthics + ContextAuthorization, ContextTools);
    BraceFreeAppend(ProfileRole + ProfileLab + ProfileFormat + ContextHeading + ContextEthics + ContextAuthorization + ContextTools, ContextFocus);
  }

  lemma ScenariosBraceFree()
    ensures BraceFree(Scenarios)
  {
    ScenariosHeadingBraceFree();
    NoToolCaseBraceFree();
    NoToolReplyBraceFree();
    SingleCaseBraceFree();
    SingleReplyBraceFree();
    MultipleCaseBraceFree();
    MultipleReplyBraceFree();
    SequentialCaseBraceFree();
    SequentialReplyBraceFree();
    CommandsGuideBraceFree();
    ExplanationGuideBraceFree();
    var s := ScenariosHeading;
    BraceFreeAppend(s, NoToolCase);
    s := s + NoToolCase;
    BraceFreeAppend(s, NoToolReply);
    s := s + NoToolReply;
    BraceFreeAppend(s, SingleCase);
    s := s + SingleCase;
    BraceFreeAppend(s, SingleReply);
    s := s + SingleReply;
    BraceFreeAppend(s, MultipleCase);
    s := s + MultipleCase;
    BraceFreeAppend(s, MultipleReply);
    s := s + MultipleReply;
    BraceFreeAppend(s, SequentialCase);
    s := s + SequentialCase;
    BraceFreeAppend(s, SequentialReply);
    s := s + SequentialReply;
    BraceFreeAppend(s, CommandsGuide);
    s := s + CommandsGuide;
    BraceFreeAppend(s, ExplanationGuide);
  }

  /** The fixed text before the task has no field: it is copied as it is. */
  lemma PreambleFormats(vars: map<string, string>)
    ensures Format(Profile + Scenarios, vars) == Ok(Profile + Scenarios)
  {
    ProfileBraceFree();
    ScenariosBraceFree();
    BraceFreeAppend(Profile, Scenarios);
    FormatBraceFree(Profile + Scenarios, vars);
  }

  lemma TaskNameField()
    ensures BraceFree(TaskPrefix) && BraceFree(TaskField) && !IsIndex(TaskField)
  {
    assert !IsDigit(TaskField[0]);
  }

  /** `Task: {task}` takes the task's value, and needs one. */
  lemma TaskLineFormats(vars: map<string, string>)
    ensures "task" in vars ==> Format(TaskLine, vars) == Ok("Task: " + vars["task"] + "\n\n")
    ensures "task" !in vars ==> Format(TaskLine, vars) == Err(MissingField("task"))
  {
    TaskNameField();
    FormatOneField(TaskPrefix, TaskField, "\n\n", vars);
  }

  lemma AnswerFieldsBraceFree()
    ensures BraceFree(AnswerFields)
  {
    var c0, c1, c2 := "'commands': [...", "], 'explanation'", ": '...'";
    assert BraceFree(c0);
    assert BraceFree(c1);
    assert BraceFree(c2);
    BraceFreeAppend(c0, c1);
    BraceFreeAppend(c0 + c1, c2);
  }

  lemma JsonHintPrefixBraceFree()
    ensures BraceFree(JsonHintPrefix)
  {
    var c0, c1 := "Respond in JSON ", "format: ";
    assert BraceFree(c0);
    assert BraceFree(c1);
    BraceFreeAppend(c0, c1);
  }

  /** The doubled braces of the answer-format line stand for single ones. */
  lemma JsonHintFormats(vars: map<string, string>)
    ensures Format(JsonHintTemplate, vars) == Ok(JsonHint)
  {
    JsonHintPrefixBraceFree();
    AnswerFieldsBraceFree();
    FormatBracedLiteral(JsonHintPrefix, AnswerFields, vars);
  }

  /** The task line of a formatted prompt. */
  function TaskText(task: string): string {
    "Task: " + task + "\n\n"
  }

  /** Formatting the template with any values that give `task` yields the
      profile, the scenarios, the task and the answer format; nothing else
      is taken from the values. */
  lemma CommandTemplateFormats(vars: map<string, string>)
    requires "task" in vars
    ensures Format(CommandTemplate, vars) == Ok(Profile + Scenarios + TaskText(vars["task"]) + JsonHint)
  {
    PreambleFormats(vars);
    TaskLineFormats(vars);
    JsonHintFormats(vars);
    FormatThreeOk(Profile + Scenarios, TaskLine, JsonHintTemplate, vars);
  }

  /** Without a value for `task` the template cannot be formatted. */
  lemma CommandTemplateNeedsTask(vars: map<string, string>)
    requires "task" !in vars
    ensures Format(CommandTemplate, vars) == Err(MissingField("task"))
  {
    PreambleFormats(vars);
    TaskNameField();
    FormatMissingAfter(Profile + Scenarios, TaskPrefix, TaskField, "\n\n", JsonHintTemplate, vars);
  }

  /** The declared input variables are the fields the template uses. */
  lemma PtCommandGenerationVariables()
    ensures PtCommandGeneration().inputVariables == ["task"]
    ensures forall vars: map<string, string> ::
      FormatTemplate(PtCommandGeneration(), vars).Ok? <==> "task" in vars
  {
    forall vars: map<string, string>
      ensures FormatTemplate(PtCommandGeneration(), vars).Ok? <==> "task" in vars
    {
      if "task" in vars {
        CommandTemplateFormats(vars);
      } else {
        CommandTemplateNeedsTask(vars);
      }
    }
  }

  /** The prompt for a task: the profile first, verbatim, then the
      scenarios, the task and the answer format with single braces. */
  lemma PromptCommandGenerationText(task: string)
    ensures PromptCommandGeneration(task) == Ok(Profile + Scenarios + TaskText(task) + JsonHint)
  {
    CommandTemplateFormats(map["task" := task]);
  }
}
