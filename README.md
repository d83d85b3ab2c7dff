# cyber_query_ai in Dafny

CyberQueryAI is a FastAPI service. It turns a plain-language security task
into shell commands by asking a local LLM. This project models its request
path, leaving out the web server:

- **Prompt building.** The assistant profile and the command template of
  `Chatbot` (`chatbot.py`) are built, then formatted with langchain's
  `PromptTemplate`. The part of `str.format` the templates use is modelled
  in `PromptFormat`.
- **Retrieval.** The `RAGSystem` (`rag.py`) loads the `.txt` tool manuals
  of `rag_data`, splits them into chunks and keeps them in a vector store.
  It writes the best matches for a template's query into the prompt, with
  the braces escaped. `RAGSystem` is a Dafny `class` whose `vectorStore`
  field the methods update in place. The directory listing, the text
  loader, the splitter, the embedding call and the similarity search are
  gathered in a `Backend` value that the methods take as a parameter.
- **Reply cleaning.** `clean_json_response` (`helpers.py`) is a chain of
  regular-expression repairs applied to the LLM's reply. It removes
  markdown fences, turns escaped quotes into apostrophes, converts
  single-quoted strings, drops trailing commas, and moves an `explanation`
  key that slipped into the commands array. Each `re.sub` and `str.replace`
  of the chain is one function (`JsonRepair`, `QuoteConversion`). Each scans
  left to right and never re-reads text it has produced.
- **The handlers.** `/api/generate-command` (`api.py`, module `Api`):
  sanitize the prompt, call the model, clean the reply, decode it, check
  the declared fields of `CommandGenerationResponse`, and sanitize the
  values. `Api.AnswerFrom` classifies each request as answered, degraded
  (fields missing) or failed with a 500. The standalone `main.py` endpoint
  (module `MainApp`) is a standalone variant. It has its own template, does
  not clean the reply, and coerces `commands` into a list.
- **Helpers and formatters.** `sanitize_dictionary` and `get_static_files`
  (`Helpers`), the pydantic schema (`Models`), and the markdown formatters
  of `ResponseFormatter` (`Formatters`).

The LLM, `json.loads`, `sanitize_text` (bleach), the filesystem and the
vector-store backend are parameters of the model. They are functions in
datatypes (`Api.Services`, `Rag.Backend`, `Helpers.FileSystem`) or function
parameters (`validJson` of `JsonRepair.CleanJsonResponse`).

Notes on what the modelled code does:

- `load_documents` has no metadata catalog. Each document's metadata is
  `source`, `tool` and `type`, derived from the file name.
- A `.txt` file the loader cannot read aborts the load (`Rag.LoadFailsIff`).
  `get_relevant_context` passes that error on. Only `is_available`, and
  through it `get_context_for_template`, absorbs it.
- `clean_json_response` removes every opening fence. It takes off a
  closing fence wherever only whitespace follows it, not only when the
  whole reply is one fenced block. It returns text, and the handler
  decodes that text.
- A degraded answer drops the `commands` the model did send: it answers
  with an empty list (`Api.MissingKeysDegrade`).
- The unit tests of `rag.py` (`tests/test_rag.py`: `TestToolsMetadata`,
  `test_create_class_method`,
  `test_load_documents_with_existing_tools_file`,
  `test_load_documents_with_nonexistent_tools_file`) exercise a newer
  `rag.py` with a `tools.json` catalog and `ToolsMetadata`. That version is
  not part of this model.
- `formatters.py` imports `CodeGenerationResponse`,
  `CodeExplanationResponse` and `ExploitSearchResponse`, and `api.py`
  imports `HealthResponse`. The `models.py` of this version defines none of
  these. The formatter records are built from the fields `formatters.py`
  reads.

## Model

| member | source | states |
|---|---|---|
| Helpers.SanitizeItem | cyber_query_ai/helpers.py:109 | a string item becomes its sanitized text and any other item is kept |
| Helpers.SanitizeValue | cyber_query_ai/helpers.py:105-111 | a string becomes its sanitized text; a list keeps its length, with each string item sanitized and every other item kept; any other value is kept |
| Helpers.SanitizedDict | cyber_query_ai/helpers.py:102-112 | the sanitized dictionary has exactly the input's keys, each holding the sanitized value of that key |
| Helpers.SanitizeDictionary | cyber_query_ai/helpers.py:102-112 | the key-by-key loop produces exactly the input's keys with their sanitized values, i.e. `SanitizedDict` |
| Helpers.SanitizeValueCompose | cyber_query_ai/helpers.py:105-111 | sanitizing with `f` then with `g` equals sanitizing once with `g∘f` |
| Helpers.SanitizedDictIdentity | cyber_query_ai/helpers.py:102-112 | a sanitizer that changes nothing leaves the dictionary equal to the input |
| Helpers.SanitizedDictIdempotent | cyber_query_ai/helpers.py:102-112 | with an idempotent sanitizer, sanitizing the dictionary twice equals sanitizing it once |
| Helpers.SanitizeKeepsShape | cyber_query_ai/helpers.py:105-111 | any two sanitizers produce values of the same shape, with strings in the same places |
| Helpers.JoinPath | cyber_query_ai/helpers.py:24 | `Path(dir) / name`: an empty name leaves the directory, an absolute name replaces it, otherwise a `/` joins them |
| Helpers.GetStaticFiles | cyber_query_ai/helpers.py:17-39 | `api/` routes get `None`; the requested file wins, then the index of the directory it names; failing both, the front end's index is answered exactly when it exists; `None` exactly when none of these applies |
| Helpers.RelativePathInside | cyber_query_ai/helpers.py:24-37 | for a relative path, the path answered begins, as text, with the static directory; a `..` part can still lead outside it |
| Helpers.DotDotLeavesDirectory | cyber_query_ai/helpers.py:24-26 | `../secret` under `static` is answered with `static/../secret` when that file exists: the lookup is not confined to the directory |
| Helpers.AbsolutePathOutside | cyber_query_ai/helpers.py:24-26 | an absolute path that names an existing file is served as it is, wherever it lies |
| JsonRepair.StripJsonFences | cyber_query_ai/helpers.py:45 | definition of `re.sub(r"```json\s*", "", s)`; its properties are stated by `StripJsonFencesAbsent`, `StripJsonFencesInert`, `StripJsonFencesOpening` and `StripJsonFencesClosing` |
| JsonRepair.StripJsonFencesAbsent | cyber_query_ai/helpers.py:45 | a text without "```json" is unchanged by the opening-fence removal |
| JsonRepair.StripJsonFencesInert | cyber_query_ai/helpers.py:45 | text before the first backtick is kept as it is and the rest is processed on its own |
| JsonRepair.StripJsonFencesOpening | cyber_query_ai/helpers.py:45 | an opening fence goes together with all the whitespace after it |
| JsonRepair.StripJsonFencesClosing | cyber_query_ai/helpers.py:45 | a closing fence and the whitespace after it survive the opening-fence removal |
| JsonRepair.StripClosingFence | cyber_query_ai/helpers.py:46 | the result is a prefix of the text; the text is cut exactly at the leftmost position where a fence followed only by whitespace starts, and is kept whole when there is none |
| JsonRepair.StripClosingFenceAt | cyber_query_ai/helpers.py:46 | backtick-free text followed by a fence and whitespace is cut back to that text |
| JsonRepair.StripClosingFenceInert | cyber_query_ai/helpers.py:46 | a backtick-free prefix is kept and does not affect where the cut falls |
| JsonRepair.StripClosingFenceAbsent | cyber_query_ai/helpers.py:46 | a backtick-free text is unchanged |
| JsonRepair.StripFences | cyber_query_ai/helpers.py:45-46 | definition: the opening-fence removal, then the closing-fence cut; its properties are stated by `StripFencesBlock` and `StripFencesPlain` |
| JsonRepair.StripFencesBlock | cyber_query_ai/helpers.py:45-46 | a reply wrapped in a "```json" block gives back exactly the block's body |
| JsonRepair.RemoveBackticks | cyber_query_ai/helpers.py:59-60 | after step 1 the text contains no triple backtick |
| JsonRepair.NoFenceAfterRemoval | cyber_query_ai/helpers.py:60 | deleting every "```" left to right leaves no "```", even where the deletions bring backticks together |
| JsonRepair.FixClientQuote | cyber_query_ai/helpers.py:63 | the `client\"s` rewrite only turns escaped double quotes into apostrophes |
| JsonRepair.ClientQuoteEdited | cyber_query_ai/helpers.py:63 | the same, for the replace-all over the whole text |
| JsonRepair.FixContractions | cyber_query_ai/helpers.py:64 | `don\"t` → `don't`: the rewrite only turns escaped double quotes into apostrophes and keeps everything else |
| JsonRepair.QuoteBeforeWord | cyber_query_ai/helpers.py:65 | only escaped quotes become apostrophes; none is left in front of a word character; the first character is an apostrophe exactly when the text starts with an escaped quote before a word character |
| JsonRepair.FixQuoteArtifacts | cyber_query_ai/helpers.py:63-65 | step 2 as a whole only turns escaped quotes into apostrophes, and leaves no escaped quote in front of a word character |
| JsonRepair.QuoteEditedPlain | cyber_query_ai/helpers.py:63-65 | on text without a backslash, step 2 changes nothing |
| JsonRepair.RemoveTrailingCommas | cyber_query_ai/helpers.py:81 | only commas are removed, and exactly as many as there are trailing commas (whitespace then `}` or `]`) in the input |
| JsonRepair.KeptPositions | cyber_query_ai/helpers.py:81 | which characters are kept: the output copies, in increasing order, exactly the positions of the input that do not hold a trailing comma |
| JsonRepair.RemoveTrailingCommasInert | cyber_query_ai/helpers.py:81 | a comma-free prefix is kept and the rest is processed on its own |
| JsonRepair.RemoveTrailingCommasNone | cyber_query_ai/helpers.py:81 | a text with no trailing comma is unchanged |
| JsonRepair.RemoveTrailingCommasComplete | cyber_query_ai/helpers.py:81 | when no comma is followed (after whitespace) by another comma, no trailing comma is left |
| JsonRepair.CommaNotTrailingAfter | cyber_query_ai/helpers.py:81 | removing trailing commas never creates a closer at the front of a text that had none and does not start with a comma |
| JsonRepair.RemoveTrailingCommasSinglePass | cyber_query_ai/helpers.py:81 | the regex makes one pass: `,,]` becomes `,]`, not `]` |
| JsonRepair.MatchValue | cyber_query_ai/helpers.py:86 | a match of the value part reads blanks, a quote-free value, blanks and `]`, and returns the rest of the text |
| JsonRepair.MatchKey | cyber_query_ai/helpers.py:86 | a match of the key part reads blanks, a quoted `explanation`/`explanatio` in any case, `:` and a value part |
| JsonRepair.MatchCommand | cyber_query_ai/helpers.py:86 | a match of the command part yields a well-formed match followed by the rest of the text |
| JsonRepair.MatchNested | cyber_query_ai/helpers.py:86 | a match at the front is a well-formed layout followed by the rest of the text |
| JsonRepair.MatchValueComplete | cyber_query_ai/helpers.py:86 | every well-formed value part is matched, with those parts |
| JsonRepair.MatchKeyComplete | cyber_query_ai/helpers.py:86 | every well-formed key part is matched, with those parts |
| JsonRepair.MatchCommandComplete | cyber_query_ai/helpers.py:86 | every well-formed command part is matched, with those parts |
| JsonRepair.MatchNestedSpec | cyber_query_ai/helpers.py:85-90 | the pattern matches at the front with parts `m` and rest `rest` if and only if `m` is well formed and the text is `m`'s layout followed by `rest` |
| JsonRepair.NoMatchWithoutBracket | cyber_query_ai/helpers.py:86 | no match starts anywhere but at `[` |
| JsonRepair.FixNestedExplanation | cyber_query_ai/helpers.py:85-90 | definition of the structural `re.sub`, a left-to-right scan over `JsonRepair.MatchNested`; its properties are stated by `FixNestedExplanationInert`, `FixNestedExplanationAt`, `FixNestedExplanationNone` and `NoMatchWithoutBracket` |
| JsonRepair.FixNestedExplanationInert | cyber_query_ai/helpers.py:85-90 | bracket-free text is kept and the rest is processed on its own |
| JsonRepair.FixNestedExplanationAt | cyber_query_ai/helpers.py:85-90 | a match is replaced by `\1], "\2": "\3"` and scanning resumes after it |
| JsonRepair.FixNestedExplanationNone | cyber_query_ai/helpers.py:85-90 | a text in which the pattern matches nowhere is unchanged |
| JsonRepair.Repair | cyber_query_ai/helpers.py:59-90 | definition: steps 1 to 5 applied in order; its properties are stated by `RepairPlainPrefix`, `CleanExamples.CleanMisplacedKey` and the lemmas of each step |
| JsonRepair.CleanJsonResponse | cyber_query_ai/helpers.py:42-93 | the result never has surrounding whitespace; when the unfenced, stripped reply already parses, it is the result, unrepaired |
| JsonRepair.StripFencesPlain | cyber_query_ai/helpers.py:45-46 | backtick-free text passes the fence removal unchanged |
| JsonRepair.CleanValidPlain | cyber_query_ai/helpers.py:49-51 | valid backtick-free JSON comes back only stripped |
| JsonRepair.CleanFencedBlock | cyber_query_ai/helpers.py:45-51 | valid JSON inside one "```json" block comes back as the bare JSON |
| JsonRepair.RepairPlainPrefix | cyber_query_ai/helpers.py:59-78 | on text with no backtick, backslash, underscore or apostrophe, steps 1 to 3 change nothing |
| QuoteConversion.SingleToDouble | cyber_query_ai/helpers.py:74 | definition of `re.sub(r"'([^']*)'", r'"\1"', s)`; its properties are stated by `SingleToDoubleAbsent`, `SingleToDoublePairs`, `PairedString`, `SingleToDoubleSpec` and `SingleToDoubleLeftover` |
| QuoteConversion.Protect | cyber_query_ai/helpers.py:69-70 | definition: the two replacements by the sentinels; its properties are stated by `ProtectRendersSentinels` and `ProtectedConvert` |
| QuoteConversion.Restore | cyber_query_ai/helpers.py:77-78 | definition: the two replacements back; its properties are stated by `RestoreSingleProtected` and `RestoreDoubleHalf` |
| QuoteConversion.QuoteStep | cyber_query_ai/helpers.py:69-78 | definition: protect, convert, restore; its properties are stated by `QuoteStepTokens`, `QuoteStepNothingToPair`, `QuoteStepPlain` and `SentinelFragmentBreaks` |
| QuoteConversion.SingleToDoubleAbsent | cyber_query_ai/helpers.py:74 | text without an apostrophe is unchanged |
| QuoteConversion.SingleToDoublePairs | cyber_query_ai/helpers.py:74 | `'([^']*)'` turns into double quotes the first 2⌊n/2⌋ of the n apostrophes and keeps the rest |
| QuoteConversion.PairedString | cyber_query_ai/helpers.py:74 | `'x'` is rewritten to `"x"` and the conversion goes on after it |
| QuoteConversion.ConvertFirstAt | cyber_query_ai/helpers.py:74 | converting the first n apostrophes keeps the length and changes exactly the apostrophes with fewer than n apostrophes before them |
| QuoteConversion.SingleToDoubleSpec | cyber_query_ai/helpers.py:74 | the conversion keeps the length and every other character; an apostrophe becomes `"` exactly when it belongs to a pair |
| QuoteConversion.ConvertFirstCount | cyber_query_ai/helpers.py:74 | converting n apostrophes leaves the count minus n |
| QuoteConversion.SingleToDoubleLeftover | cyber_query_ai/helpers.py:74 | after the conversion at most one apostrophe is left: the count modulo 2 |
| QuoteConversion.TokenizeRender | cyber_query_ai/helpers.py:69-70 | reading a text as characters and escaped quotes loses nothing: rendering the pieces gives the text back |
| QuoteConversion.ProtectRendersSentinels | cyber_query_ai/helpers.py:69-70 | the two protecting replacements put a sentinel exactly where an escaped quote was |
| QuoteConversion.ProtectedConvert | cyber_query_ai/helpers.py:69-74 | the conversion never reaches inside a sentinel: it works on the unprotected characters |
| QuoteConversion.RestoreSingleProtected | cyber_query_ai/helpers.py:77 | restoring the escaped-single sentinels of an underscore-free text puts back exactly those escaped quotes |
| QuoteConversion.RestoreDoubleHalf | cyber_query_ai/helpers.py:78 | restoring the escaped-double sentinels then gives back the text |
| QuoteConversion.QuoteStepTokens | cyber_query_ai/helpers.py:69-78 | for underscore-free text, step 3 converts the paired unescaped apostrophes and keeps every escaped quote as it was |
| QuoteConversion.QuoteStepNothingToPair | cyber_query_ai/helpers.py:69-78 | with fewer than two unescaped apostrophes, step 3 changes nothing |
| QuoteConversion.QuoteStepPlain | cyber_query_ai/helpers.py:69-78 | text with no backslash, underscore or apostrophe passes step 3 unchanged |
| QuoteConversion.SentinelFragmentBreaks | cyber_query_ai/helpers.py:69-78 | a text that contains no sentinel, but ends in the start of one followed by `\'`, is changed by step 3 |
| Rag.IsTextFile | cyber_query_ai/rag.py:41 | definition of a name `glob("*.txt")` lists; its properties are stated by `StemOfTextFile`, `StemOfNamed`, `LoadFailsIff` and `LoadedExactly` |
| Rag.Stem | cyber_query_ai/rag.py:50 | definition of `Path.stem`; its properties are stated by `StemOfTextFile` and `StemOfNamed` |
| Rag.ToolName | cyber_query_ai/rag.py:50 | definition: the stem with `_man` and then `_help` removed; its properties are stated by `ManualFile` and `HelpFile` |
| Rag.DocType | cyber_query_ai/rag.py:51 | definition; its property is stated by `DocTypeManual` |
| Rag.FileMetadata | cyber_query_ai/rag.py:47-53 | definition of the three metadata entries; its properties are stated by `FileMetadataGet`, `ManualFile` and `HelpFile` |
| Rag.LoadEntries | cyber_query_ai/rag.py:37-57 | definition of the load over the listed entries; its properties are stated by `LoadFailsIff`, `LoadedExactly`, `LoadPrefixError` and by `Rag.RAGSystem.LoadDocuments`, which computes it |
| Rag.StemOfTextFile | cyber_query_ai/rag.py:50 | the stem of a `.txt` name is the name without `.txt` |
| Rag.StemOfNamed | cyber_query_ai/rag.py:41-50 | `stem.txt` is listed by the glob, and its stem is `stem` |
| Rag.DocTypeManual | cyber_query_ai/rag.py:51 | the type is `manual` exactly when the name contains `_man`, and `help` otherwise |
| Rag.ManualFile | cyber_query_ai/rag.py:47-53 | `nmap_man.txt` is a text file of tool `nmap` and type `manual` |
| Rag.HelpFile | cyber_query_ai/rag.py:47-53 | `nmap_help.txt` is a text file of tool `nmap` and type `help` |
| Rag.LoadedDocuments | cyber_query_ai/rag.py:33-57 | definition: a missing directory gives no documents, otherwise `LoadEntries` of its entries; its properties are stated by `BuildStoreMissing`, `BuildStoreContents` and by `Rag.RAGSystem.LoadDocuments`, which computes it |
| Rag.LoadFailsIff | cyber_query_ai/rag.py:41-43 | loading fails if and only if some listed `.txt` file cannot be read |
| Rag.LoadedExactly | cyber_query_ai/rag.py:41-55 | a successful load yields one document per `.txt` file, each built from such a file, and only those |
| Rag.LoadPrefixError | cyber_query_ai/rag.py:41-43 | the first unreadable file decides the error: nothing after it is looked at |
| Rag.SplitDocument | cyber_query_ai/rag.py:64 | definition: the splitter's chunks of one document, each with its metadata and start index; its property is stated by `SplitKeepsMetadata` |
| Rag.SplitAll | cyber_query_ai/rag.py:64 | definition: the chunks of each document in order; its property is stated by `SplitKeepsMetadata` |
| Rag.SplitDocuments | cyber_query_ai/rag.py:59-64 | definition: no documents give no chunks, otherwise the splitter's chunks of each document; its property is stated by `SplitKeepsMetadata` |
| Rag.SplitKeepsMetadata | cyber_query_ai/rag.py:59-64 | every chunk carries the metadata of a loaded document |
| Rag.BuildStore | cyber_query_ai/rag.py:66-88 | definition of a store built from nothing; its properties are stated by `BuildStoreContents`, `BuildStoreMissing` and `BuildStoreFails` |
| Rag.StoreAfter | cyber_query_ai/rag.py:66-88 | definition: the current store, or a newly built one; its properties are stated by `TemplateContextEmptyIff` and by `Rag.RAGSystem.CreateVectorStore`, `GetRelevantContext` and `IsAvailable`, whose contracts use it |
| Rag.BuildStoreContents | cyber_query_ai/rag.py:66-88 | a built store is empty or holds exactly the chunks of the loaded documents; every stored chunk's metadata is that of a listed `.txt` file |
| Rag.BuildStoreMissing | cyber_query_ai/rag.py:72-75 | a missing data directory gives an empty store, not an error |
| Rag.BuildStoreFails | cyber_query_ai/rag.py:41-43 | building fails if and only if a listed `.txt` file cannot be read |
| Rag.SearchOrEmpty | cyber_query_ai/rag.py:103-109 | definition: the documents found, or none when the search raises; its property is stated by `TemplateContextEmptyIff` and `Rag.RAGSystem.GetRelevantContext` |
| Rag.MetaGet | cyber_query_ai/rag.py:118-119 | definition of `.get(key, "unknown")`; its property is stated by `FileMetadataGet` |
| Rag.Block | cyber_query_ai/rag.py:118-122 | a block starts with `[`; what it reads is stated by `LoadedBlock` |
| Rag.ContextText | cyber_query_ai/rag.py:111-124 | definition of the joined context; its properties are stated by `ContextEmptyIff`, `ContextCons` and by `Rag.RAGSystem.FormatContext`, which computes it |
| Rag.ContextEmptyIff | cyber_query_ai/rag.py:111-124 | the context is empty if and only if there are no documents |
| Rag.ContextCons | cyber_query_ai/rag.py:116-124 | the context is each document's block, joined by `\n\n---\n\n` |
| Rag.LoadedBlock | cyber_query_ai/rag.py:118-122 | a loaded file's block reads `[tool] (source):` followed by its stripped text |
| Rag.FileMetadataGet | cyber_query_ai/rag.py:118-119 | the `tool` and `source` lookups of a loaded document give the tool name and the file name, never `unknown` |
| Rag.QueryFor | cyber_query_ai/rag.py:141-149 | definition of the query map lookup; its property is stated by `QueryDefaultIff` |
| Rag.QueryDefaultIff | cyber_query_ai/rag.py:142-149 | the default query is used exactly for template types outside the map |
| Rag.TemplateContext | cyber_query_ai/rag.py:136-155 | definition of a template's context; its property is stated by `TemplateContextEmptyIff` and by `Rag.RAGSystem.GetContextForTemplate`, which returns it |
| Rag.TemplateContextEmptyIff | cyber_query_ai/rag.py:136-155 | a template's context is empty if and only if the store cannot be built or the search finds nothing |
| Rag.EscapeBraces | cyber_query_ai/rag.py:163 | definition of the two replaces; its properties are stated by `EscapeBracesIsEscaped`, `DoubledTwice`, `EscapedFormatsBack` and `EscapedLength` |
| Rag.EscapeBracesIsEscaped | cyber_query_ai/rag.py:163 | the two replaces double every brace of the context, left to right |
| Rag.DoubledTwice | cyber_query_ai/rag.py:163 | doubling `{` and then `}` doubles both kinds, with nothing doubled twice |
| Rag.EscapedFormatsBack | cyber_query_ai/rag.py:162-163 | formatting an escaped context gives back the context, whatever the values |
| Rag.EscapedLength | cyber_query_ai/rag.py:163 | escaping adds one character per brace |
| Rag.EnhancedPrompt | cyber_query_ai/rag.py:161-172 | definition of the enhanced prompt; its property is stated by `EnhancedFormats` and by `Rag.RAGSystem.EnhanceTemplate`, which returns it |
| Rag.EnhancedFormats | cyber_query_ai/rag.py:157-172 | formatting an enhanced template gives the formatted base followed by the documentation section with the context verbatim, or just the formatted base when there is no context |
| Rag.RAGSystem.constructor | cyber_query_ai/rag.py:21-31 | the model names are kept, and there is no store yet |
| Rag.RAGSystem.LoadDocuments | cyber_query_ai/rag.py:33-57 | the loop returns the documents of the listed `.txt` files, or the error of the first unreadable one |
| Rag.RAGSystem.FormatContext | cyber_query_ai/rag.py:111-124 | the loop returns the blocks joined by the separator |
| Rag.RAGSystem.CreateVectorStore | cyber_query_ai/rag.py:66-88 | an existing store is returned as it is; otherwise the store is built and kept; a load error leaves the field as it was |
| Rag.RAGSystem.RecreateVectorStore | cyber_query_ai/rag.py:90-93 | the store is always built afresh; a failed build leaves no store |
| Rag.RAGSystem.GetRelevantContext | cyber_query_ai/rag.py:95-109 | the search runs over the current or newly built store; a failing search gives no documents; a load error is passed on |
| Rag.RAGSystem.IsAvailable | cyber_query_ai/rag.py:126-134 | available exactly when a store exists or can be built |
| Rag.RAGSystem.GetContextForTemplate | cyber_query_ai/rag.py:136-155 | the template's query asks for two documents; a store that cannot be built gives the empty context |
| Rag.RAGSystem.EnhanceTemplate | cyber_query_ai/rag.py:157-172 | the base prompt, with the escaped documentation section added when there is context |
| Rag.CreateRagSystem | cyber_query_ai/rag.py:175-179 | a new system with the default embedding model, whose store is built at once |
| Formatters.FormatCodeGeneration | cyber_query_ai/formatters.py:14-29 | definition; its properties are stated by `CodeGenerationParts`, `CodeGenerationEndsWithExplanation`, `CodeGenerationNoCode`, `CodeGenerationScript`, `CodeGenerationCommand`, `CodeGenerationFenced` and `NoCodeNoFence` |
| Formatters.ScriptHeader | cyber_query_ai/formatters.py:25 | definition; its properties are stated by `ScriptHeaderStarts` and `CodeGenerationScript` |
| Formatters.CodeHeader | cyber_query_ai/formatters.py:22-27 | definition of the header choice; its properties are stated by `CodeGenerationScript` and `CodeGenerationCommand` |
| Formatters.CodeGenerationParts | cyber_query_ai/formatters.py:29 | with code: header, fenced code block, then the explanation |
| Formatters.CodeGenerationEndsWithExplanation | cyber_query_ai/formatters.py:19-29 | every output ends with the explanation |
| Formatters.CodeGenerationNoCode | cyber_query_ai/formatters.py:19-20 | the output starts with the apology exactly when there is no code |
| Formatters.CodeGenerationScript | cyber_query_ai/formatters.py:23-25 | the script header is used exactly for code that has a newline |
| Formatters.CodeGenerationCommand | cyber_query_ai/formatters.py:23-27 | the command header is used exactly for non-empty single-line code |
| Formatters.CodeGenerationFenced | cyber_query_ai/formatters.py:29 | the code appears inside a fence tagged with its language |
| Formatters.NoCodeNoFence | cyber_query_ai/formatters.py:19-20 | without code, no backtick is added |
| Formatters.FormatExplanation | cyber_query_ai/formatters.py:32-34 | definition; its properties are stated by `FormatExplanationInjective` and `FormatExplanationDefault` |
| Formatters.FormatExplanationInjective | cyber_query_ai/formatters.py:32-34 | for contexts without `:`, different explanations or contexts give different texts |
| Formatters.FormatExplanationDefault | cyber_query_ai/formatters.py:32-34 | the default context reads `Let me explain this code:` |
| Formatters.FormatExploitSearch | cyber_query_ai/formatters.py:37-56 | definition; its properties are stated by `ExploitSearchNone`, `ExploitSearchSingular`, `ExploitSearchCount`, `ExploitSearchAround`, `ExploitSearchLists` and `ExploitSearchSummary` |
| Formatters.ExploitBlock | cyber_query_ai/formatters.py:43-45 | definition of one exploit's block; its properties are stated by `ExploitBlocksAt` and `ExploitSearchLists` |
| Formatters.Plural | cyber_query_ai/formatters.py:50 | definition; its properties are stated by `ExploitSearchSingular` and `ExploitSearchAround` |
| Formatters.ExploitBlocksAt | cyber_query_ai/formatters.py:42-47 | the i-th block is the i-th exploit's block |
| Formatters.ExploitSearchNone | cyber_query_ai/formatters.py:39-40 | the output starts with `No exploits found.` exactly when there are none |
| Formatters.ExploitSearchSingular | cyber_query_ai/formatters.py:49-53 | the output starts with `I found 1 vulnerability:` exactly when there is one exploit |
| Formatters.ExploitSearchCount | cyber_query_ai/formatters.py:49-53 | the number printed reads back as the number of exploits |
| Formatters.ExploitSearchAround | cyber_query_ai/formatters.py:52-56 | count line, the blocks joined by newlines, then the summary |
| Formatters.ExploitSearchLists | cyber_query_ai/formatters.py:42-54 | every exploit's block appears in the output |
| Formatters.ExploitSearchSummary | cyber_query_ai/formatters.py:55 | the output ends with the summary |
| Text.Strip | cyber_query_ai/helpers.py:93 | the result has no whitespace at either end and is no longer than the text; what it removes is stated by `StripCutsSpace`, `StripIdempotent` and `StripAround` |
| Text.ReplaceAll | cyber_query_ai/helpers.py:59-60 | definition of `str.replace`, left to right without overlap; its properties are stated by `ReplaceAllAbsent`, `ReplaceAllInertPrefix` and, for its uses, by `JsonRepair.NoFenceAfterRemoval` and `Rag.EscapeBracesIsEscaped` |
| Text.Join | cyber_query_ai/rag.py:124 | definition of `str.join`; its properties are stated by `JoinHasPart` and `JoinLength` |
| Text.NatToString | cyber_query_ai/formatters.py:53 | definition of `str(n)`; its property is stated by `NatToStringRoundTrip` |
| Text.StripAround | cyber_query_ai/helpers.py:93 | `strip` of a stripped text between whitespace gives the text |
| Text.StripIdempotent | cyber_query_ai/helpers.py:93 | `strip` twice is `strip` once |
| Text.StripCutsSpace | cyber_query_ai/helpers.py:93 | `strip` removes whitespace, and only whitespace, at both ends |
| Text.NatToStringRoundTrip | cyber_query_ai/formatters.py:53 | `str(n)` is a string of digits, without a leading zero, with value n |
| Text.JoinHasPart | cyber_query_ai/rag.py:124 | every part appears in the joined text |
| PromptFormat.Format | cyber_query_ai/chatbot.py:48-52 | definition of `PromptTemplate.format` on plain fields and doubled braces; its properties are stated by `FormatLiteral`, `FormatBraceFree`, `FormatField`, `FormatFieldMissing`, `FormatDoubled` and `FormatConcat` |
| PromptFormat.FormatLiteral | cyber_query_ai/chatbot.py:52 | brace-free text is copied as it is |
| PromptFormat.FormatBraceFree | cyber_query_ai/chatbot.py:52 | a brace-free template formats to itself, whatever the values |
| PromptFormat.FormatField | cyber_query_ai/chatbot.py:45 | `{name}` is replaced by the value of `name` |
| PromptFormat.FormatFieldMissing | cyber_query_ai/chatbot.py:45 | a field with no value is a `KeyError` |
| PromptFormat.FormatDoubled | cyber_query_ai/chatbot.py:46 | `{{` and `}}` stand for one brace |
| PromptFormat.FormatConcat | cyber_query_ai/chatbot.py:52 | a template that formats can be followed by any text, which is then formatted on its own |
| Chatbot.PreambleFormats | cyber_query_ai/chatbot.py:15-44 | the profile and the scenarios have no field and come out verbatim |
| Chatbot.TaskLineFormats | cyber_query_ai/chatbot.py:45 | `Task: {task}` takes the task's value, and fails without one |
| Chatbot.JsonHintFormats | cyber_query_ai/chatbot.py:46 | the answer-format line comes out with single braces |
| Chatbot.CommandTemplateFormats | cyber_query_ai/chatbot.py:29-48 | with a task, the template gives profile, scenarios, task line and answer format; nothing else is taken from the values |
| Chatbot.CommandTemplateNeedsTask | cyber_query_ai/chatbot.py:45-52 | without a task the template fails with `KeyError('task')` |
| Chatbot.PtCommandGeneration | cyber_query_ai/chatbot.py:30-48 | definition of the template; its properties are stated by `PtCommandGenerationVariables`, `CommandTemplateFormats` and `CommandTemplateNeedsTask` |
| Chatbot.PtCommandGenerationVariables | cyber_query_ai/chatbot.py:48 | the declared input variables are `["task"]`, and the template formats if and only if `task` is given |
| Chatbot.FormatTemplate | cyber_query_ai/chatbot.py:52 | definition of `PromptTemplate.format`: `PromptFormat.Format` of the template text; its uses are stated by `PtCommandGenerationVariables` and `MainApp.MainTemplateFormats` |
| Chatbot.PromptCommandGeneration | cyber_query_ai/chatbot.py:50-52 | definition; its property is stated by `PromptCommandGenerationText` |
| Chatbot.PromptCommandGenerationText | cyber_query_ai/chatbot.py:50-52 | the prompt for a task is profile, scenarios, `Task: <task>` and the answer format |
| Models.StringList | cyber_query_ai/models.py:17 | `list[str]` accepts a list exactly when every item is a string, and keeps the items in order |
| Models.Validate | cyber_query_ai/models.py:14-18 | accepted exactly when `commands` is a list of strings and `explanation` a string; the response holds those values |
| Api.GetServerError | cyber_query_ai/api.py:29-38 | a 500 with the given error and details; `raw` is the reply, or `No response` when there is none or it is empty |
| Api.ServerErrorRawFaithful | cyber_query_ai/api.py:36 | from a `raw` that is a real, non-empty reply, the reply can be told back |
| Api.KeyOrder | cyber_query_ai/api.py:59-60 | the missing keys are listed once each |
| Api.SetTextShows | cyber_query_ai/api.py:60 | the printed set shows each key in quotes |
| Api.SetText | cyber_query_ai/api.py:60 | definition of `str()` of a set of keys; its property is stated by `SetTextShows` |
| Api.MissingKeysMessage | cyber_query_ai/api.py:59-60 | the message is `Missing required keys in LLM response: ` followed by the printed set of exactly the missing keys, in some order; a declared field is named in it if and only if it is missing |
| Api.PresentKeyNotNamed | cyber_query_ai/api.py:59-60 | a declared field that is present is not named in the message |
| Api.CommandPrompt | cyber_query_ai/api.py:52 | the prompt sent is the sanitized command prompt for the task |
| Api.Cleaned | cyber_query_ai/api.py:56 | the cleaned reply has no surrounding whitespace |
| Api.GenerateCommand | cyber_query_ai/api.py:47-69 | the outcome is what the model's reply to the sanitized command prompt leads to |
| Api.LlmFailureHasNoRaw | cyber_query_ai/api.py:53-69 | when the model call raises, the 500 carries its message and `No response` |
| Api.FailuresCarryCleanedReply | cyber_query_ai/api.py:55-69 | every failure is a 500 whose `raw` is the cleaned reply or `No response`; the JSON error text is used exactly for decode errors |
| Api.AnswerFromFailures | cyber_query_ai/api.py:57-69 | the same for a given cleaned reply |
| Api.MissingKeysDegrade | cyber_query_ai/api.py:59-61 | a dictionary without a declared field is answered, with no commands and the missing-keys message as explanation, which names a declared field if and only if it is missing |
| Api.AcceptedIsSanitized | cyber_query_ai/api.py:63 | with both fields, the answer is given exactly when `commands` is a list of strings and `explanation` a string, and every value in it is sanitized |
| Api.AnswerFrom | cyber_query_ai/api.py:57-69 | definition of what follows the model call; its properties are stated by `AnswerFromFailures`, `MissingKeysDegrade`, `AcceptedIsSanitized` and `AnswerFromAnsweredIff` |
| Api.Respond | cyber_query_ai/api.py:55-69 | definition: a raised model call or `AnswerFrom` of the cleaned reply; its properties are stated by `LlmFailureHasNoRaw`, `FailuresCarryCleanedReply` and `AnsweredIff` |
| Api.AnsweredIff | cyber_query_ai/api.py:55-69 | a request is answered if and only if the model replied and the cleaned reply is answerable |
| Api.AnswerFromAnsweredIff | cyber_query_ai/api.py:57-69 | a cleaned reply is answered if and only if it decodes to a dictionary that lacks a field or validates |
| MainApp.MainPromptTemplate | cyber_query_ai/main.py:53-77 | definition of the template with input variable `task`; its properties are stated by `MainTemplateFormats` |
| MainApp.FormatMainTemplate | cyber_query_ai/main.py:83 | definition; its property is stated by `MainPromptText` |
| MainApp.MainTemplateFormats | cyber_query_ai/main.py:53-77 | with a task, the template gives the chatbot's profile and scenarios, the task and `Respond in this format: {...}`; without one, `KeyError('task')` |
| MainApp.MainPromptText | cyber_query_ai/main.py:83 | the formatted prompt for a task |
| MainApp.MainPrompt | cyber_query_ai/main.py:83 | the prompt the endpoint sends |
| MainApp.PromptsShareAllButLastLine | cyber_query_ai/main.py:53-75 | the two endpoints' prompts agree up to the answer-format line |
| JsonValue.Truthy | cyber_query_ai/main.py:95 | definition of Python's truth value of a decoded value; `CoerceCommands` and `MainAccepted` state what depends on it |
| MainApp.CoerceCommands | cyber_query_ai/main.py:93-95 | the result is a list: a list is kept, another truthy value wrapped, a falsy one made empty |
| MainApp.CoerceCommandsIdempotent | cyber_query_ai/main.py:93-95 | coercing twice is coercing once, and no new element appears |
| MainApp.MainAnswerFrom | cyber_query_ai/main.py:87-106 | definition of what follows the model call; its properties are stated by `MainFailures`, `MainMissingKeyFails` and `MainAccepted` |
| MainApp.MainRespond | cyber_query_ai/main.py:85-106 | definition: a raised model call or `MainAnswerFrom` of the reply; its properties are stated by `MainFailures` |
| MainApp.MainGenerateCommand | cyber_query_ai/main.py:81-106 | definition: `MainRespond` of the model's reply to `MainPrompt`; its behaviour is stated by `MainFailures`, `MainMissingKeyFails` and `MainAccepted` |
| MainApp.MainFailures | cyber_query_ai/main.py:98-106 | every failure is a 500 with the generic error, whose `raw` is the reply as the model gave it or `No response` |
| MainApp.MainMissingKeyFails | cyber_query_ai/main.py:88-90 | a missing field is a 500 whose details are the missing-keys message, naming a declared field if and only if it is missing, where `/api` answers |
| MainApp.MainAccepted | cyber_query_ai/main.py:92-97 | with both fields, the reply is answered exactly when the explanation is a string and `commands` is a list of strings, a string, or falsy; a list of strings is kept item by item, a non-empty string is wrapped, a falsy value becomes no commands, and the explanation is passed on unsanitized |
| CleanExamples.LayoutKeepsCommas | cyber_query_ai/helpers.py:81 | the comma of a misplaced key is not a trailing one |
| CleanExamples.FixNestedAround | cyber_query_ai/helpers.py:85-90 | the structural pass rewrites the match and keeps the bracket-free text around it |
| CleanExamples.CleanMisplacedKey | cyber_query_ai/helpers.py:42-93 | a reply whose only flaw is a misplaced explanation key comes back with the array closed after the command and the key outside it |
| CleanExamples.CleanStructuralTest | tests/test_helpers.py:117-121 | the unit test's reply `{"commands": ["nmap -sS target", "explanation": "SYN scan"]}` is cleaned to the expected text |
| CleanExamples.CleanWhitespaceTest | tests/test_helpers.py:122-127 | the unit test's valid reply between blanks and newlines is cleaned to the reply without them |
| CleanExamples.CleanValidTest | tests/test_helpers.py:134-139 | the unit test's valid reply comes back unchanged |

## Left out

- Regular-expression classes are ASCII only: `\s` is the ASCII whitespace of `str.isspace` (blank, tab to carriage return, 0x1C to 0x1F), `\w` is ASCII letters, digits and `_`, and `IGNORECASE` folds ASCII letters. `str.strip` (`Text.Strip`, at helpers.py:51 and :93 and rag.py:120) removes the same ASCII whitespace only. Python's Unicode classes and Unicode whitespace are not modelled.
- `json.loads` is the `validJson` parameter of `JsonRepair.CleanJsonResponse` and the `parse` field of `Api.Services`. Decoding is not modelled. Numbers are `real`, so floats, their formats and JSON key order are abstracted away.
- `sanitize_text` (helpers.py:96-99, bleach and the `<script>` filter) is not part of this model. It is the `sanitize` parameter, and the idempotence lemma takes its idempotence as a premise.
- The LLM call (`OllamaLLM`), the embeddings (`OllamaEmbeddings`), `TextLoader`, `RecursiveCharacterTextSplitter`, `InMemoryVectorStore.add_documents` and `similarity_search` are parameters (`Rag.Backend`, `Api.Services`). Their ranking, chunk sizes and overlap are not modelled. The constructor therefore keeps only the two model names.
- The splitter's numeric `start_index` metadata entry is kept in a field of its own (`Rag.Document.startIndex`), because the model's metadata maps hold strings.
- `RAG_DATA_DIR.glob` order and the text encoding are not modelled. The directory is an ordered list of entries.
- Default arguments are not applied by the model: `Rag.CreateRagSystem` takes the chat model name (`llama3.2` by default in `create_rag_system`), and `Rag.RAGSystem.GetRelevantContext` takes `k` (4 by default), which its one modelled caller, `get_context_for_template`, sets to 2.
- The other examples of `tests/test_helpers.py:101-163` (trailing commas, the fenced block followed by a newline, the combined repair, the single-quote conversions) have no lemma of their own. The repairs they exercise are stated by the lemmas of each step.
- Helpers.RelativePathInside: proves a textual prefix only. No `..` normalisation and no containment in the static directory is proved, and none holds: `Helpers.DotDotLeavesDirectory` answers a file outside it, as the code does.
- Helpers.JoinPath: does not model `pathlib`'s normalisation of the joined path. `PurePath` collapses a doubled `/`, drops `.` parts and drops a trailing `/`, so `"docs/"` is looked up as `static/docs`, and its index as `static/docs/index.html`, where the model has `static/docs/` and `static/docs//index.html`. `PurePath` keeps `..` parts, as the model does. The filesystem is a parameter taking paths as written, so a lookup in the model and in the code agree whenever the static directory and the request path have no empty or `.` part and no trailing `/`.
- `rag.py:100-101`, an unreachable check: after `create_vector_store` the store is never `None`, so the model has no branch for it.
- `is_available` catches any exception of `create_vector_store`. The only exceptions the model has there are the load error and a failing `add_documents`, which `create_vector_store` absorbs itself.
- `str()` of `AttributeError` and pydantic's `ValidationError` are abstracted as `Api.Services.describe`. Which of two missing keys the set prints first depends on string hashing. It is the `commandsFirst` parameter.
- Format specs and conversions in template fields (`{x:>5}`, `{x!r}`), attribute and index lookups in field names: `PromptFormat.Format` reports the first problem a template has in its own terms, and the prompts of this system use none of these.
- QuoteConversion.QuoteStepTokens: proved for text without `_` only. The sentinels `__ESCAPED_SINGLE_QUOTE__` and `__ESCAPED_DOUBLE_QUOTE__` can be completed by the text around them. `QuoteConversion.SentinelFragmentBreaks` shows a text with no sentinel that step 3 changes.
- QuoteConversion.QuoteStepNothingToPair: the same underscore premise.
- JsonRepair.RemoveTrailingCommasComplete: only promises that no trailing comma is left when no two commas are separated by whitespace alone. The regex makes one pass (`JsonRepair.RemoveTrailingCommasSinglePass`).
- JsonRepair.CleanJsonResponse: its contract covers the early exit and the final strip. What the repairs do is stated by the lemmas of each step and by `CleanExamples.CleanMisplacedKey`. A lemma about the composition of all five repairs on arbitrary text is not stated.
- MainApp.MainGenerateCommand has no contract of its own. It is `MainRespond` applied to the model's reply to `MainPrompt`, and its behaviour is stated by `MainFailures`, `MainMissingKeyFails` and `MainAccepted`.
- `server.py`, `config.py`, `get_static_dir`, the health check, the rate limiter, the router and CORS setup, `run_in_threadpool` and `uvicorn.run` are not part of this model: they are web-server plumbing.
- The `Chatbot` constructor and the `OllamaLLM` client it builds are not modelled beyond the template: the model call is a parameter.
- Helpers.GetStaticFiles: the files are answered as paths, not as `FileResponse` objects. An absolute `full_path` replaces the static directory (`Helpers.AbsolutePathOutside`); that is the code's behaviour, stated as it is.
