/**
 * The retrieval-augmented generation system: tool documentation read from
 * the `rag_data` directory, split into chunks, kept in a vector store, and
 * the best matches for a template's query written into the prompt.
 *
 * The directory listing, the text loader, the chunk splitter, the embedding
 * call made when documents are added and the similarity search are
 * collaborators outside the model; they are gathered in a `Backend` value
 * that the operations take as a parameter.
 */
module Rag {
  import opened Wrappers
  import opened Text
  import opened PromptFormat

  /* ---------------------------------------------------------------- */
  /* Documents and their metadata                                      */
  /* ---------------------------------------------------------------- */

  /** A langchain `Document`. The splitter's `start_index` entry of the
      metadata is kept apart, in `startIndex`, because it is a number. */
  datatype Document = Document(content: string, metadata: map<string, string>, startIndex: Option<nat>)

  /** One entry of the data directory: its name and the text the loader
      reads from it, or `None` when the loader raises (unreadable file,
      not UTF-8). */
  datatype Entry = Entry(name: string, text: Option<string>)

  /** The `rag_data` directory: missing, or the entries `glob` lists, in
      the order it lists them. */
  datatype DataDir = Missing | Listing(entries: seq<Entry>)

  /** The exception that aborts loading: a `.txt` file the loader cannot read. */
  datatype LoadError = Unreadable(name: string)

  /** What `glob("*.txt")` keeps. */
  predicate IsTextFile(name: string) {
    |name| >= 4 && name[|name| - 4..] == ".txt"
  }

  /** The index of the last `c` in `s`, or -1 (`str.rfind`). */
  function LastIndexOf(s: string, c: char): (i: int)
    ensures -1 <= i < |s|
    ensures i >= 0 ==> s[i] == c && forall j :: i < j < |s| ==> s[j] != c
    ensures i == -1 ==> c !in s
    decreases |s|
  {
    if s == [] then -1
    else if s[|s| - 1] == c then |s| - 1
    else
      var i := LastIndexOf(s[..|s| - 1], c);
      assert forall j :: 0 <= j < |s| - 1 ==> s[..|s| - 1][j] == s[j];
      i
  }

  /** `PurePath.stem`: the name without its last suffix; a name whose only
      dot is its first or last character has no suffix. */
  function Stem(name: string): string {
    var i := LastIndexOf(name, '.');
    if 0 < i < |name| - 1 then name[..i] else name
  }

  /** The tool a documentation file is about: its stem without `_man`,
      then without `_help`. */
  function ToolName(name: string): string {
    ReplaceAll(ReplaceAll(Stem(name), "_man", ""), "_help", "")
  }

  function DocType(name: string): string {
    if Contains(name, "_man") then "manual" else "help"
  }

  /** The metadata of a loaded file: the loader's own `source` entry is
      overwritten by the file name. */
  function FileMetadata(name: string): map<string, string> {
    map["source" := name, "tool" := ToolName(name), "type" := DocType(name)]
  }

  /** The document the loader makes of a readable entry. */
  function EntryDocument(e: Entry): Document
    requires e.text.Some?
  {
    Document(e.text.value, FileMetadata(e.name), None)
  }

  lemma StemOfTextFile(name: string)
    requires IsTextFile(name) && |name| > 4
    ensures Stem(name) == name[..|name| - 4]
  {
    assert name[|name| - 4] == name[|name| - 4..][0] == '.';
    var i := LastIndexOf(name, '.');
    assert i == |name| - 4 by {
      assert name[|name| - 4..][1..] == "txt";
      assert forall j :: |name| - 4 < j < |name| ==> name[j] == name[|name| - 4..][j - (|name| - 4)];
    }
  }

  /** A manual page is tagged `manual`, the rest `help`. */
  lemma DocTypeManual(name: string)
    ensures FileMetadata(name)["type"] == "manual" <==> Contains(name, "_man")
    ensures FileMetadata(name)["type"] == "help" <==> !Contains(name, "_man")
  {
  }

  /** A name that ends in `.txt` after more than the suffix has the
      rest as its stem. */
  lemma StemOfNamed(stem: string)
    requires stem != [] && '.' !in stem
    ensures IsTextFile(stem + ".txt") && Stem(stem + ".txt") == stem
  {
    var name := stem + ".txt";
    assert name[|name| - 4..] == ".txt";
    StemOfTextFile(name);
    assert name[..|name| - 4] == stem;
  }

  /** A file named after a tool with the `_man` suffix is that tool's manual page. */
  lemma ManualFile(tool: string)
    requires tool != [] && '_' !in tool && '.' !in tool
    ensures IsTextFile(tool + "_man" + ".txt")
    ensures ToolName(tool + "_man" + ".txt") == tool
    ensures DocType(tool + "_man" + ".txt") == "manual"
  {
    assert ToolName(tool + "_man" + ".txt") == tool by {
      StemOfNamed(tool + "_man");
      assert tool + "_man" + ".txt" == (tool + "_man") + ".txt";
      ReplaceAllInertPrefix(tool, "_man", "_man", "");
      ReplaceAllAtMatch("", "_man", "");
      assert "_man" + "" == "_man" && tool + "" == tool;
      ReplaceAllAbsent(tool, "_help", "");
    }
    ContainsInfix(tool, "_man", ".txt");
  }

  lemma HelpKeepsMan()
    ensures ReplaceAll("_help", "_man", "") == "_help"
  {
    ReplaceAllAbsent("help", "_man", "");
    assert !StartsWith("_help", "_man") by {
      assert "_help"[..4] == "_hel";
    }
    assert ['_'] + "help" == "_help";
    ReplaceAllSkip('_', "help", "_man", "");
    assert ['_'] + "help" == "_help";
  }

  lemma HelpSuffixNoMan()
    ensures !Contains("_help.txt", "_man")
  {
    var s, t := "_help.txt", "help.txt";
    NotStartsWithAt(s, "_man", 1);
    assert s[1..] == t;
    assert '_' !in t;
    ContainsNeedsChar(t, "_man", 0);
  }

  /** A file named after a tool with the `_help` suffix is that tool's help text. */
  lemma HelpFile(tool: string)
    requires tool != [] && '_' !in tool && '.' !in tool
    ensures IsTextFile(tool + "_help" + ".txt")
    ensures ToolName(tool + "_help" + ".txt") == tool
    ensures DocType(tool + "_help" + ".txt") == "help"
  {
    assert ToolName(tool + "_help" + ".txt") == tool by {
      StemOfNamed(tool + "_help");
      HelpKeepsMan();
      ReplaceAllInertPrefix(tool, "_help", "_man", "");
      ReplaceAllInertPrefix(tool, "_help", "_help", "");
      ReplaceAllAtMatch("", "_help", "");
      assert "_help" + "" == "_help" && tool + "" == tool;
    }
    assert !Contains(tool + "_help" + ".txt", "_man") by {
      assert tool + "_help" + ".txt" == tool + "_help.txt";
      ContainsInertPrefix(tool, "_help.txt", "_man");
      HelpSuffixNoMan();
    }
  }

  /* ---------------------------------------------------------------- */
  /* Loading                                                           */
  /* ---------------------------------------------------------------- */

  /** The documents of the listed entries, in listing order; the first
      unreadable `.txt` file aborts the load. */
  function LoadEntries(es: seq<Entry>): Result<seq<Document>, LoadError>
    decreases |es|
  {
    if es == [] then Ok([])
    else
      var last := es[|es| - 1];
      match LoadEntries(es[..|es| - 1])
      case Err(e) => Err(e)
      case Ok(docs) =>
        if !IsTextFile(last.name) then Ok(docs)
        else if last.text.None? then Err(Unreadable(last.name))
        else Ok(docs + [EntryDocument(last)])
  }

  function LoadedDocuments(dir: DataDir): Result<seq<Document>, LoadError> {
    match dir
    case Missing => Ok([])
    case Listing(es) => LoadEntries(es)
  }

  /** The number of `.txt` entries. */
  function TextFileCount(es: seq<Entry>): nat
    decreases |es|
  {
    if es == [] then 0
    else TextFileCount(es[..|es| - 1]) + (if IsTextFile(es[|es| - 1].name) then 1 else 0)
  }

  /** Loading fails exactly when some `.txt` entry cannot be read. */
  lemma {:induction false} LoadFailsIff(es: seq<Entry>)
    ensures LoadEntries(es).Err? <==>
      exists i :: 0 <= i < |es| && IsTextFile(es[i].name) && es[i].text.None?
    decreases |es|
  {
    if es != [] {
      var init := es[..|es| - 1];
      LoadFailsIff(init);
      assert forall i :: 0 <= i < |init| ==> init[i] == es[i];
    }
  }

  /** A successful load holds one document per `.txt` entry, each the
      entry's text with the entry's metadata, in listing order. */
  lemma {:induction false} LoadedExactly(es: seq<Entry>)
    requires LoadEntries(es).Ok?
    ensures |LoadEntries(es).value| == TextFileCount(es)
    ensures forall d :: d in LoadEntries(es).value ==>
      exists i :: 0 <= i < |es| && IsTextFile(es[i].name) && es[i].text.Some? && d == EntryDocument(es[i])
    ensures forall i :: 0 <= i < |es| && IsTextFile(es[i].name) ==>
      es[i].text.Some? && EntryDocument(es[i]) in LoadEntries(es).value
    decreases |es|
  {
    if es != [] {
      var init := es[..|es| - 1];
      var last := es[|es| - 1];
      LoadedExactly(init);
      assert forall i :: 0 <= i < |init| ==> init[i] == es[i];
      if IsTextFile(last.name) {
        assert last.text.Some?;
        var docs := LoadEntries(init).value;
        assert LoadEntries(es).value == docs + [EntryDocument(last)];
      }
    }
  }

  /** Once a prefix of the listing fails, the whole load fails the same way. */
  lemma {:induction false} LoadPrefixError(es: seq<Entry>, j: nat)
    requires j <= |es| && LoadEntries(es[..j]).Err?
    ensures LoadEntries(es) == LoadEntries(es[..j])
    decreases |es| - j
  {
    if j < |es| {
      assert es[..j + 1][..j] == es[..j];
      LoadPrefixError(es, j + 1);
    } else {
      assert es[..j] == es;
    }
  }

  /* ---------------------------------------------------------------- */
  /* Splitting                                                         */
  /* ---------------------------------------------------------------- */

  const ChunkSize: nat := 1000
  const ChunkOverlap: nat := 200

  /** The chunks a document is cut into, each with the copy of its
      metadata and its start offset that `add_start_index` adds. The cut
      itself is the splitter's (`chunks(text, size, overlap)`). */
  function SplitDocument(d: Document, chunks: (string, nat, nat) -> seq<(string, nat)>): seq<Document> {
    var cs := chunks(d.content, ChunkSize, ChunkOverlap);
    seq(|cs|, i requires 0 <= i < |cs| => Document(cs[i].0, d.metadata, Some(cs[i].1)))
  }

  function SplitAll(docs: seq<Document>, chunks: (string, nat, nat) -> seq<(string, nat)>): seq<Document>
    decreases |docs|
  {
    if docs == [] then [] else SplitDocument(docs[0], chunks) + SplitAll(docs[1..], chunks)
  }

  function SplitDocuments(docs: seq<Document>, chunks: (string, nat, nat) -> seq<(string, nat)>): seq<Document> {
    if docs == [] then [] else SplitAll(docs, chunks)
  }

  /** Every chunk carries the metadata of the document it was cut from. */
  lemma {:induction false} SplitKeepsMetadata(docs: seq<Document>, chunks: (string, nat, nat) -> seq<(string, nat)>)
    ensures forall c :: c in SplitDocuments(docs, chunks) ==>
      exists d :: d in docs && c.metadata == d.metadata
    decreases |docs|
  {
    if docs != [] {
      SplitKeepsMetadata(docs[1..], chunks);
      assert SplitDocuments(docs, chunks) == SplitDocument(docs[0], chunks) + SplitAll(docs[1..], chunks);
      forall c | c in SplitDocuments(docs, chunks)
        ensures exists d :: d in docs && c.metadata == d.metadata
      {
        if c in SplitDocument(docs[0], chunks) {
          assert docs[0] in docs;
        } else {
          assert c in SplitDocuments(docs[1..], chunks);
          var d :| d in docs[1..] && c.metadata == d.metadata;
          assert d in docs;
        }
      }
    }
  }

  /* ---------------------------------------------------------------- */
  /* The vector store and the collaborators                            */
  /* ---------------------------------------------------------------- */

  /** An `InMemoryVectorStore`: the documents added to it. */
  datatype VectorStore = VectorStore(docs: seq<Document>)

  /** The collaborators: the data directory, the splitter, whether the
      embedding call made by `add_documents` succeeds for a batch, and the
      similarity search (`None` when it raises). */
  datatype Backend = Backend(
    dataDir: DataDir,
    chunks: (string, nat, nat) -> seq<(string, nat)>,
    addSucceeds: seq<Document> -> bool,
    search: (seq<Document>, string, nat) -> Option<seq<Document>>)

  /** The store a first `create_vector_store` builds: empty when there is
      nothing to add or adding fails, every chunk otherwise. */
  function BuildStore(b: Backend): Result<VectorStore, LoadError> {
    match LoadedDocuments(b.dataDir)
    case Err(e) => Err(e)
    case Ok(docs) =>
      if docs == [] then Ok(VectorStore([]))
      else
        var splits := SplitDocuments(docs, b.chunks);
        if splits != [] && b.addSucceeds(splits) then Ok(VectorStore(splits))
        else Ok(VectorStore([]))
  }

  /** The store `create_vector_store` returns given the current one. */
  function StoreAfter(current: Option<VectorStore>, b: Backend): Result<VectorStore, LoadError> {
    if current.Some? then Ok(current.value) else BuildStore(b)
  }

  /** A built store holds all the chunks or nothing, and only chunks of
      `.txt` files: each stored document has the metadata of one. */
  lemma BuildStoreContents(b: Backend)
    requires BuildStore(b).Ok? && b.dataDir.Listing?
    ensures var stored := BuildStore(b).value.docs;
      (stored == [] || stored == SplitDocuments(LoadedDocuments(b.dataDir).value, b.chunks)) &&
      forall c :: c in stored ==>
        exists e :: e in b.dataDir.entries && IsTextFile(e.name) && c.metadata == FileMetadata(e.name)
  {
    var es := b.dataDir.entries;
    var docs := LoadedDocuments(b.dataDir).value;
    var stored := BuildStore(b).value.docs;
    if stored != [] {
      SplitKeepsMetadata(docs, b.chunks);
      LoadedExactly(es);
      forall c | c in stored
        ensures exists e :: e in es && IsTextFile(e.name) && c.metadata == FileMetadata(e.name)
      {
        var d :| d in docs && c.metadata == d.metadata;
        var i :| 0 <= i < |es| && IsTextFile(es[i].name) && es[i].text.Some? && d == EntryDocument(es[i]);
        assert es[i] in es;
      }
    }
  }

  /** Without a data directory the store is built, and empty. */
  lemma BuildStoreMissing(b: Backend)
    requires b.dataDir.Missing?
    ensures BuildStore(b) == Ok(VectorStore([]))
  {
  }

  /** The store fails to build exactly when a `.txt` file cannot be read. */
  lemma BuildStoreFails(b: Backend)
    requires b.dataDir.Listing?
    ensures BuildStore(b).Err? <==>
      exists i :: 0 <= i < |b.dataDir.entries| && IsTextFile(b.dataDir.entries[i].name) && b.dataDir.entries[i].text.None?
  {
    LoadFailsIff(b.dataDir.entries);
  }

  /** The result of a search, an empty list when the search raises. */
  function SearchOrEmpty(found: Option<seq<Document>>): seq<Document> {
    if found.Some? then found.value else []
  }

  /* ---------------------------------------------------------------- */
  /* The context text                                                  */
  /* ---------------------------------------------------------------- */

  /** `metadata.get(key, "unknown")`. */
  function MetaGet(m: map<string, string>, key: string): string {
    if key in m then m[key] else "unknown"
  }

  /** One document's block: its tool and source, then its stripped text. */
  function Block(d: Document): (b: string)
    ensures |b| > 0 && b[0] == '['
  {
    "[" + MetaGet(d.metadata, "tool") + "] (" + MetaGet(d.metadata, "source") + "):\n" + Strip(d.content)
  }

  const Separator := "\n\n---\n\n"

  /** `f` applied to each document, in order. */
  function MapDocuments(docs: seq<Document>, f: Document -> string): (r: seq<string>)
    ensures |r| == |docs|
  {
    seq(|docs|, k requires 0 <= k < |docs| => f(docs[k]))
  }

  lemma MapDocumentsSnoc(docs: seq<Document>, i: nat, f: Document -> string)
    requires i < |docs|
    ensures MapDocuments(docs[..i + 1], f) == MapDocuments(docs[..i], f) + [f(docs[i])]
  {
  }

  lemma MapDocumentsCons(d: Document, rest: seq<Document>, f: Document -> string)
    ensures MapDocuments([d] + rest, f)[0] == f(d)
    ensures MapDocuments([d] + rest, f)[1..] == MapDocuments(rest, f)
  {
    var l, r := MapDocuments([d] + rest, f), MapDocuments(rest, f);
    forall k | 0 <= k < |r|
      ensures l[1..][k] == r[k]
    {
      assert ([d] + rest)[k + 1] == rest[k];
    }
  }

  /** The blocks of the documents, in order. */
  function Blocks(docs: seq<Document>): (bs: seq<string>)
    ensures |bs| == |docs|
  {
    MapDocuments(docs, Block)
  }

  lemma BlocksAt(docs: seq<Document>, k: nat)
    requires k < |docs|
    ensures Blocks(docs)[k] == Block(docs[k])
  {
  }

  lemma BlocksSnoc(docs: seq<Document>, i: nat)
    requires i < |docs|
    ensures Blocks(docs[..i + 1]) == Blocks(docs[..i]) + [Block(docs[i])]
  {
    MapDocumentsSnoc(docs, i, Block);
  }

  /** The context text of the retrieved documents: their blocks, joined
      by a rule line. */
  function ContextText(docs: seq<Document>): string {
    Join(Blocks(docs), Separator)
  }

  /** The text is empty exactly when nothing was retrieved. */
  lemma ContextEmptyIff(docs: seq<Document>)
    ensures ContextText(docs) == "" <==> docs == []
  {
    if docs != [] {
      var bs := Blocks(docs);
      BlocksAt(docs, 0);
      assert |bs[0]| > 0;
      if |bs| > 1 {
        assert ContextText(docs) == bs[0] + Separator + Join(bs[1..], Separator);
      }
    }
  }

  lemma BlocksCons(d: Document, rest: seq<Document>)
    ensures Blocks([d] + rest)[0] == Block(d)
    ensures Blocks([d] + rest)[1..] == Blocks(rest)
  {
    MapDocumentsCons(d, rest, Block);
  }

  /** The first block comes first, and the rest follows after one rule line. */
  lemma ContextCons(d: Document, rest: seq<Document>)
    ensures ContextText([d] + rest) ==
      if rest == [] then Block(d) else Block(d) + Separator + ContextText(rest)
  {
    BlocksCons(d, rest);
    var bs := Blocks([d] + rest);
    if rest != [] {
      assert Join(bs, Separator) == bs[0] + Separator + Join(bs[1..], Separator);
    }
  }

  /** A block of a loaded document names its tool and its file, never
      `unknown`. */
  lemma LoadedBlock(e: Entry)
    requires e.text.Some?
    ensures Block(EntryDocument(e)) ==
      "[" + ToolName(e.name) + "] (" + e.name + "):\n" + Strip(e.text.value)
  {
    FileMetadataGet(e.name);
  }

  lemma FileMetadataGet(name: string)
    ensures MetaGet(FileMetadata(name), "tool") == ToolName(name)
    ensures MetaGet(FileMetadata(name), "source") == name
  {
    assert "tool"[1] != "type"[1];
    assert "source"[0] != "tool"[0];
    assert "source"[0] != "type"[0];
  }

  /* ---------------------------------------------------------------- */
  /* Templates                                                         */
  /* ---------------------------------------------------------------- */

  const DefaultQuery := "cybersecurity to" + "ols"
  const QueryMap: map<string, string> := map[
    "command" := "cybersecurity to" + "ols commands CLI",
    "script" := "cybersecurity sc" + "ripts programmin" + "g",
    "explanation" := "tools documentat" + "ion syntax optio" + "ns",
    "exploit" := "exploits vulnera" + "bilities CVE"]

  /** How many documents a template's search asks for. */
  const TemplateHits: nat := 2

  /** The search query for a template type. */
  function QueryFor(templateType: string): string {
    if templateType in QueryMap then QueryMap[templateType] else DefaultQuery
  }

  /** The four known template types have their own query; every other
      type falls back to the general one. */
  lemma QueryDefaultIff(templateType: string)
    ensures QueryFor(templateType) == DefaultQuery <==> templateType !in QueryMap
  {
    if templateType in QueryMap {
      assert |QueryMap[templateType]| != |DefaultQuery|;
    }
  }

  /** The context a template gets: nothing when the store cannot be had or
      the search finds nothing, the retrieved blocks otherwise. */
  function TemplateContext(current: Option<VectorStore>, b: Backend, templateType: string): string {
    match StoreAfter(current, b)
    case Err(_) => ""
    case Ok(store) =>
      var docs := SearchOrEmpty(b.search(store.docs, QueryFor(templateType), TemplateHits));
      if docs == [] then "" else ContextText(docs)
  }

  lemma TemplateContextEmptyIff(current: Option<VectorStore>, b: Backend, templateType: string)
    ensures TemplateContext(current, b, templateType) == "" <==>
      StoreAfter(current, b).Err? ||
      SearchOrEmpty(b.search(StoreAfter(current, b).value.docs, QueryFor(templateType), TemplateHits)) == []
  {
    if StoreAfter(current, b).Ok? {
      ContextEmptyIff(SearchOrEmpty(b.search(StoreAfter(current, b).value.docs, QueryFor(templateType), TemplateHits)));
    }
  }

  /** `s.replace("{", "{{").replace("}", "}}")`. */
  function EscapeBraces(s: string): string {
    ReplaceAll(ReplaceAll(s, "{", "{{"), "}", "}}")
  }

  /** The reference escape: every brace doubled, character by character. */
  function Escaped(s: string): string
    decreases |s|
  {
    if s == [] then []
    else (if s[0] == '{' then "{{" else if s[0] == '}' then "}}" else [s[0]]) + Escaped(s[1..])
  }

  /** One character doubled wherever it occurs. */
  function Doubled(s: string, c: char): string
    decreases |s|
  {
    if s == [] then [] else (if s[0] == c then [c, c] else [s[0]]) + Doubled(s[1..], c)
  }

  lemma {:induction false} ReplaceOneChar(s: string, c: char)
    ensures ReplaceAll(s, [c], [c, c]) == Doubled(s, c)
    decreases |s|
  {
    if s != [] {
      ReplaceOneChar(s[1..], c);
      assert s[..1] == [s[0]];
    }
  }

  lemma {:induction false} DoubledAppend(a: string, b: string, c: char)
    ensures Doubled(a + b, c) == Doubled(a, c) + Doubled(b, c)
    decreases |a|
  {
    if a == [] {
      assert a + b == b;
    } else {
      assert (a + b)[0] == a[0] && (a + b)[1..] == a[1..] + b;
      DoubledAppend(a[1..], b, c);
    }
  }

  lemma {:induction false} EscapeBracesIsEscaped(s: string)
    ensures EscapeBraces(s) == Escaped(s)
  {
    ReplaceOneChar(s, '{');
    ReplaceOneChar(Doubled(s, '{'), '}');
    DoubledTwice(s);
  }

  lemma {:induction false} DoubledTwice(s: string)
    ensures Doubled(Doubled(s, '{'), '}') == Escaped(s)
    decreases |s|
  {
    if s != [] {
      var head := if s[0] == '{' then "{{" else [s[0]];
      assert Doubled(s, '{') == head + Doubled(s[1..], '{');
      DoubledAppend(head, Doubled(s[1..], '{'), '}');
      DoubledTwice(s[1..]);
      if s[0] == '{' {
        assert Doubled("{{", '}') == "{{";
      } else {
        assert Doubled([s[0]], '}') == (if s[0] == '}' then "}}" else [s[0]]);
      }
    }
  }

  /** Formatting the escaped text gives the text back, whatever the values. */
  lemma {:induction false} EscapedFormatsBack(s: string, vars: map<string, string>)
    ensures Format(Escaped(s), vars) == Ok(s)
    decreases |s|
  {
    if s != [] {
      EscapedFormatsBack(s[1..], vars);
      var rest := Escaped(s[1..]);
      if s[0] == '{' || s[0] == '}' {
        FormatDoubled(s[0], rest, vars);
      } else {
        FormatLiteral([s[0]], rest, vars);
      }
      assert [s[0]] + s[1..] == s;
    }
  }

  /** Escaping adds one character per brace. */
  lemma {:induction false} EscapedLength(s: string)
    ensures |Escaped(s)| == |s| + CountChar(s, '{') + CountChar(s, '}')
    decreases |s|
  {
    if s != [] {
      EscapedLength(s[1..]);
    }
  }

  // the line break and heading of rag.py line 166
  const Header := "\nRELEVANT DOCUME" + "NTATION:\n"
  const Guidance := GuidanceFirst + GuidanceSecond
  // rag.py line 168
  const GuidanceFirst := "Use the above do" + "cumentation to p" + "rovide more accu" + "rate and detaile" + "d responses. "
  // rag.py line 169
  const GuidanceSecond := "Reference specif" + "ic tool options," + " syntax, and exa" + "mples from the d" + "ocumentation whe" + "n relevant.\n\n"

  /** `enhance_template` once the context is known. */
  function EnhancedPrompt(base: string, context: string): string {
    if context == "" then base else base + Header + EscapeBraces(context) + "\n\n" + Guidance
  }

  lemma HeaderBraceFree()
    ensures BraceFree(Header)
  {
  }

  lemma GuidanceFirstBraceFree()
    ensures BraceFree(GuidanceFirst)
  {
    var a, b, c, d, e := "Use the above do", "cumentation to p", "rovide more accu", "rate and detaile", "d responses. ";
    assert BraceFree(a);
    assert BraceFree(b);
    assert BraceFree(c);
    assert BraceFree(d);
    assert BraceFree(e);
    BraceFreeAppend(a, b);
    BraceFreeAppend(a + b, c);
    BraceFreeAppend(a + b + c, d);
    BraceFreeAppend(a + b + c + d, e);
  }

  lemma GuidanceSecondBraceFree()
    ensures BraceFree(GuidanceSecond)
  {
    var a, b, c, d, e, f := "Reference specif", "ic tool options,", " syntax, and exa", "mples from the d", "ocumentation whe", "n relevant.\n\n";
    assert BraceFree(a);
    assert BraceFree(b);
    assert BraceFree(c);
    assert BraceFree(d);
    assert BraceFree(e);
    assert BraceFree(f);
    BraceFreeAppend(a, b);
    BraceFreeAppend(a + b, c);
    BraceFreeAppend(a + b + c, d);
    BraceFreeAppend(a + b + c + d, e);
    BraceFreeAppend(a + b + c + d + e, f);
  }

  lemma GuidanceBraceFree()
    ensures BraceFree(Guidance)
  {
    GuidanceFirstBraceFree();
    GuidanceSecondBraceFree();
    BraceFreeAppend(GuidanceFirst, GuidanceSecond);
  }

  /** The point of the escape: when the base template formats, so does the
      enhanced one, and the context shows in the formatted prompt exactly
      as it was retrieved, however many braces it holds. */
  lemma EnhancedFormats(base: string, context: string, vars: map<string, string>)
    requires Format(base, vars).Ok?
    ensures Format(EnhancedPrompt(base, context), vars) ==
      Ok(if context == "" then Format(base, vars).value
         else Format(base, vars).value + Header + context + "\n\n" + Guidance)
  {
    if context != "" {
      var x := Format(base, vars).value;
      HeaderBraceFree();
      GuidanceBraceFree();
      FormatBraceFree(Header, vars);
      FormatBraceFree("\n\n", vars);
      FormatBraceFree(Guidance, vars);
      EscapeBracesIsEscaped(context);
      EscapedFormatsBack(context, vars);
      FormatAppendOk(base, Header, vars);
      FormatAppendOk(base + Header, EscapeBraces(context), vars);
      FormatAppendOk(base + Header + EscapeBraces(context), "\n\n", vars);
      FormatAppendOk(base + Header + EscapeBraces(context) + "\n\n", Guidance, vars);
    }
  }

  /* ---------------------------------------------------------------- */
  /* The system                                                        */
  /* ---------------------------------------------------------------- */

  /** The embedding model `RAGSystem.__init__` uses by default, and the
      only one `create_rag_system` asks for. */
  const DefaultEmbeddingModel := "nomic-embed-text"

  class RAGSystem {
    const model: string
    const embeddingModel: string
    /** `None` until the first `create_vector_store`. */
    var vectorStore: Option<VectorStore>

    constructor(model: string, embeddingModel: string)
      ensures this.model == model && this.embeddingModel == embeddingModel
      ensures vectorStore == None
    {
      this.model := model;
      this.embeddingModel := embeddingModel;
      vectorStore := None;
    }

    /** `load_documents`: every `.txt` file of the directory, tagged with
        its name, tool and type. */
    method LoadDocuments(dir: DataDir) returns (r: Result<seq<Document>, LoadError>)
      ensures r == LoadedDocuments(dir)
    {
      if dir.Missing? {
        return Ok([]);
      }
      var es := dir.entries;
      var documents: seq<Document> := [];
      var i := 0;
      while i < |es|
        invariant 0 <= i <= |es|
        invariant LoadEntries(es[..i]) == Ok(documents)
      {
        var e := es[i];
        assert es[..i + 1][..i] == es[..i];
        if IsTextFile(e.name) {
          if e.text.None? {
            LoadPrefixError(es, i + 1);
            return Err(Unreadable(e.name));
          }
          documents := documents + [Document(e.text.value, FileMetadata(e.name), None)];
        }
        i := i + 1;
      }
      assert es[..|es|] == es;
      return Ok(documents);
    }

    /** `format_context`: the retrieved documents as one text. */
    method FormatContext(documents: seq<Document>) returns (s: string)
      ensures s == ContextText(documents)
    {
      if documents == [] {
        return "";
      }
      var parts: seq<string> := [];
      var i := 0;
      while i < |documents|
        invariant 0 <= i <= |documents|
        invariant parts == Blocks(documents[..i])
      {
        var doc := documents[i];
        var tool := MetaGet(doc.metadata, "tool");
        var source := MetaGet(doc.metadata, "source");
        var content := Strip(doc.content);
        BlocksSnoc(documents, i);
        parts := parts + ["[" + tool + "] (" + source + "):\n" + content];
        i := i + 1;
      }
      assert documents[..i] == documents;
      return Join(parts, Separator);
    }

    /** `create_vector_store`: the existing store, or a new one built once. */
    method CreateVectorStore(b: Backend) returns (r: Result<VectorStore, LoadError>)
      modifies this
      ensures r == StoreAfter(old(vectorStore), b)
      ensures vectorStore == if r.Ok? then Some(r.value) else old(vectorStore)
    {
      if vectorStore.Some? {
        return Ok(vectorStore.value);
      }
      var loaded := LoadDocuments(b.dataDir);
      if loaded.Err? {
        return Err(loaded.error);
      }
      var documents := loaded.value;
      if documents == [] {
        vectorStore := Some(VectorStore([]));
        return Ok(vectorStore.value);
      }
      var splits := SplitDocuments(documents, b.chunks);
      vectorStore := Some(VectorStore([]));
      if splits != [] {
        if b.addSucceeds(splits) {
          vectorStore := Some(VectorStore(splits));
        } else {
          vectorStore := Some(VectorStore([]));
        }
      }
      return Ok(vectorStore.value);
    }

    /** `recreate_vector_store`: the store is built anew. */
    method RecreateVectorStore(b: Backend) returns (r: Result<VectorStore, LoadError>)
      modifies this
      ensures r == BuildStore(b)
      ensures vectorStore == if r.Ok? then Some(r.value) else None
    {
      vectorStore := None;
      r := CreateVectorStore(b);
    }

    /** `get_relevant_context`: the search result, building the store
        first when there is none; a failing search gives nothing, a
        failing build raises. */
    method GetRelevantContext(b: Backend, query: string, k: nat) returns (r: Result<seq<Document>, LoadError>)
      modifies this
      ensures var store := StoreAfter(old(vectorStore), b);
        r == if store.Err? then Err(store.error) else Ok(SearchOrEmpty(b.search(store.value.docs, query, k)))
      ensures var store := StoreAfter(old(vectorStore), b);
        vectorStore == if store.Ok? then Some(store.value) else old(vectorStore)
    {
      if vectorStore.None? {
        var created := CreateVectorStore(b);
        if created.Err? {
          return Err(created.error);
        }
      }
      // A store now exists: `create_vector_store` either leaves one or raises.
      var found := b.search(vectorStore.value.docs, query, k);
      if found.None? {
        return Ok([]);
      }
      return Ok(found.value);
    }

    /** `is_available`: whether a store exists or can be built. */
    method IsAvailable(b: Backend) returns (ok: bool)
      modifies this
      ensures ok == StoreAfter(old(vectorStore), b).Ok?
      ensures var store := StoreAfter(old(vectorStore), b);
        vectorStore == if store.Ok? then Some(store.value) else old(vectorStore)
    {
      if vectorStore.None? {
        var created := CreateVectorStore(b);
        if created.Err? {
          return false;
        }
      }
      return vectorStore.Some?;
    }

    /** `get_context_for_template`: the context for a template type. */
    method GetContextForTemplate(b: Backend, templateType: string) returns (s: string)
      modifies this
      ensures s == TemplateContext(old(vectorStore), b, templateType)
      ensures var store := StoreAfter(old(vectorStore), b);
        vectorStore == if store.Ok? then Some(store.value) else old(vectorStore)
    {
      var available := IsAvailable(b);
      if !available {
        return "";
      }
      var query := QueryFor(templateType);
      var relevant := GetRelevantContext(b, query, TemplateHits);
      if relevant.value != [] {
        s := FormatContext(relevant.value);
        return s;
      }
      return "";
    }

    /** `enhance_template`: the base prompt, followed by the escaped
        context and the guidance when there is a context. */
    method EnhanceTemplate(b: Backend, basePrompt: string, templateType: string) returns (s: string)
      modifies this
      ensures s == EnhancedPrompt(basePrompt, TemplateContext(old(vectorStore), b, templateType))
      ensures var store := StoreAfter(old(vectorStore), b);
        vectorStore == if store.Ok? then Some(store.value) else old(vectorStore)
    {
      var context := GetContextForTemplate(b, templateType);
      if context != "" {
        var escaped := EscapeBraces(context);
        return basePrompt + Header + escaped + "\n\n" + Guidance;
      }
      return basePrompt;
    }
  }

  /** `create_rag_system`: a new system whose store is built at once. */
  method CreateRagSystem(model: string, b: Backend) returns (rag: RAGSystem, r: Result<VectorStore, LoadError>)
    ensures fresh(rag)
    ensures rag.model == model && rag.embeddingModel == DefaultEmbeddingModel
    ensures r == BuildStore(b)
    ensures rag.vectorStore == if r.Ok? then Some(r.value) else None
  {
    rag := new RAGSystem(model, DefaultEmbeddingModel);
    r := rag.CreateVectorStore(b);
  }
}
