/**
 * The two small helpers beside the JSON repair: `sanitize_dictionary`,
 * which runs the text sanitizer over the values of a decoded answer, and
 * `get_static_files`, which picks the file the front end is served from.
 * The sanitizer (`sanitize_text`, built on bleach) and the filesystem are
 * parameters.
 */
module Helpers {
  import opened Wrappers
  import opened Text
  import opened JsonValue

  /** One item of a list: a string is sanitized, anything else is kept. */
  function SanitizeItem(v: Json, sanitize: string -> string): (r: Json)
    ensures v.JString? ==> r == JString(sanitize(v.s))
    ensures !v.JString? ==> r == v
  {
    if v.JString? then JString(sanitize(v.s)) else v
  }

  /** The value stored under one key of the sanitized dictionary. */
  function SanitizeValue(v: Json, sanitize: string -> string): (r: Json)
    ensures v.JString? ==> r == JString(sanitize(v.s))
    ensures v.JArray? ==> r.JArray? && |r.items| == |v.items|
    ensures v.JArray? ==> forall i :: 0 <= i < |v.items| ==> r.items[i] == SanitizeItem(v.items[i], sanitize)
    ensures !v.JString? && !v.JArray? ==> r == v
  {
    match v
    case JString(s) => JString(sanitize(s))
    case JArray(items) => JArray(seq(|items|, i requires 0 <= i < |items| => SanitizeItem(items[i], sanitize)))
    case _ => v
  }

  /** `sanitize_dictionary(d)` as a value. */
  function SanitizedDict(d: map<string, Json>, sanitize: string -> string): (r: map<string, Json>)
    ensures r.Keys == d.Keys
    ensures forall k :: k in d ==> r[k] == SanitizeValue(d[k], sanitize)
  {
    map k | k in d :: SanitizeValue(d[k], sanitize)
  }

  /** `sanitize_dictionary`: fills a new dictionary key by key. */
  method SanitizeDictionary(d: map<string, Json>, sanitize: string -> string) returns (r: map<string, Json>)
    ensures r.Keys == d.Keys
    ensures forall k :: k in d ==> r[k] == SanitizeValue(d[k], sanitize)
    ensures r == SanitizedDict(d, sanitize)
  {
    r := map[];
    var todo := d.Keys;
    while todo != {}
      invariant todo <= d.Keys
      invariant r.Keys == d.Keys - todo
      invariant forall k :: k in r ==> r[k] == SanitizeValue(d[k], sanitize)
      decreases todo
    {
      var k :| k in todo;
      r := r[k := SanitizeValue(d[k], sanitize)];
      todo := todo - {k};
    }
  }

  /** Sanitizing with `f` and then with `g` is sanitizing once with both. */
  lemma SanitizeValueCompose(v: Json, f: string -> string, g: string -> string)
    ensures SanitizeValue(SanitizeValue(v, f), g) == SanitizeValue(v, x => g(f(x)))
  {
    if v.JArray? {
      var once := SanitizeValue(v, f);
      var twice := SanitizeValue(once, g);
      var both := SanitizeValue(v, x => g(f(x)));
      assert |twice.items| == |both.items|;
      forall i | 0 <= i < |v.items|
        ensures twice.items[i] == both.items[i]
      {
        assert twice.items[i] == SanitizeItem(once.items[i], g);
      }
    }
  }

  /** A sanitizer that changes nothing leaves the dictionary as it is. */
  lemma SanitizedDictIdentity(d: map<string, Json>, sanitize: string -> string)
    requires forall s :: sanitize(s) == s
    ensures SanitizedDict(d, sanitize) == d
  {
    forall k | k in d
      ensures SanitizedDict(d, sanitize)[k] == d[k]
    {
      var v := d[k];
      if v.JArray? {
        var r := SanitizeValue(v, sanitize);
        assert r.items == v.items by {
          forall i | 0 <= i < |v.items|
            ensures r.items[i] == v.items[i]
          {
            assert r.items[i] == SanitizeItem(v.items[i], sanitize);
          }
        }
      }
    }
  }

  /** With an idempotent sanitizer (`sanitize_text` ends in `strip`, and
      running bleach twice changes nothing more), sanitizing a dictionary
      twice gives what sanitizing it once gives. */
  lemma SanitizedDictIdempotent(d: map<string, Json>, sanitize: string -> string)
    requires forall s :: sanitize(sanitize(s)) == sanitize(s)
    ensures SanitizedDict(SanitizedDict(d, sanitize), sanitize) == SanitizedDict(d, sanitize)
  {
    var once := SanitizedDict(d, sanitize);
    forall k | k in d
      ensures SanitizedDict(once, sanitize)[k] == once[k]
    {
      SanitizeValueCompose(d[k], sanitize, sanitize);
      var v := d[k];
      if v.JArray? {
        var a := SanitizeValue(v, x => sanitize(sanitize(x)));
        var b := SanitizeValue(v, sanitize);
        forall i | 0 <= i < |v.items|
          ensures a.items[i] == b.items[i]
        {
          assert a.items[i] == SanitizeItem(v.items[i], x => sanitize(sanitize(x)));
        }
        assert a.items == b.items;
      }
    }
  }

  /** Sanitizing changes strings only: two sanitizers give answers of the
      same shape, with strings in the same places. */
  lemma SanitizeKeepsShape(v: Json, f: string -> string, g: string -> string)
    ensures SanitizeValue(SanitizeValue(v, f), _ => "") == SanitizeValue(SanitizeValue(v, g), _ => "")
  {
    SanitizeValueCompose(v, f, _ => "");
    SanitizeValueCompose(v, g, _ => "");
    if v.JArray? {
      var a := SanitizeValue(v, x => (_ => "")(f(x)));
      var b := SanitizeValue(v, x => (_ => "")(g(x)));
      forall i | 0 <= i < |v.items|
        ensures a.items[i] == b.items[i]
      {
        assert a.items[i] == SanitizeItem(v.items[i], x => (_ => "")(f(x)));
        assert b.items[i] == SanitizeItem(v.items[i], x => (_ => "")(g(x)));
      }
      assert a.items == b.items;
    }
  }

  /** The filesystem queries `get_static_files` makes: `Path.is_file`,
      `Path.is_dir` and `Path.exists`. */
  datatype FileSystem = FileSystem(isFile: string -> bool, isDir: string -> bool, pathExists: string -> bool)

  /** `Path(dir) / name`: an absolute name replaces the directory, an empty
      one leaves it as it is. */
  function JoinPath(dir: string, name: string): (p: string)
    ensures name == [] ==> p == dir
    ensures name != [] && name[0] != '/' ==> p == dir + "/" + name
    ensures name != [] && name[0] == '/' ==> p == name
  {
    if name == [] then dir
    else if name[0] == '/' then name
    else dir + "/" + name
  }

  const IndexFile := "index.html"

  /** `get_static_files(full_path, static_dir)`: the path of the file to
      answer with, or `None` to leave the request to the API router or to
      answer 404. API routes are never answered; what is answered is a file,
      or the fallback index, which is only checked to exist; the file itself
      comes first, then the index of the directory it names, then the index
      of the front end. */
  function GetStaticFiles(fullPath: string, staticDir: string, fs: FileSystem): (r: Option<string>)
    ensures StartsWith(fullPath, "api/") ==> r == None
    ensures r.Some? ==> fs.isFile(r.value) || (r.value == JoinPath(staticDir, IndexFile) && fs.pathExists(r.value))
    ensures (!StartsWith(fullPath, "api/") && fs.isFile(JoinPath(staticDir, fullPath))) ==>
      r == Some(JoinPath(staticDir, fullPath))
    ensures (!StartsWith(fullPath, "api/") && !fs.isFile(JoinPath(staticDir, fullPath)) &&
      fs.isDir(JoinPath(staticDir, fullPath)) && fs.isFile(JoinPath(staticDir, fullPath) + "/" + IndexFile)) ==>
      r == Some(JoinPath(staticDir, fullPath) + "/" + IndexFile)
    ensures (!StartsWith(fullPath, "api/") && !fs.isFile(JoinPath(staticDir, fullPath)) &&
      !(fs.isDir(JoinPath(staticDir, fullPath)) && fs.isFile(JoinPath(JoinPath(staticDir, fullPath), IndexFile))) &&
      fs.pathExists(JoinPath(staticDir, IndexFile))) ==>
      r == Some(JoinPath(staticDir, IndexFile))
    ensures r == None <==>
      StartsWith(fullPath, "api/") ||
      (!fs.isFile(JoinPath(staticDir, fullPath)) &&
       !(fs.isDir(JoinPath(staticDir, fullPath)) && fs.isFile(JoinPath(JoinPath(staticDir, fullPath), IndexFile))) &&
       !fs.pathExists(JoinPath(staticDir, IndexFile)))
  {
    if StartsWith(fullPath, "api/") then None
    else
      var file := JoinPath(staticDir, fullPath);
      if fs.isFile(file) then Some(file)
      else if fs.isDir(file) && fs.isFile(JoinPath(file, IndexFile)) then Some(JoinPath(file, IndexFile))
      else if fs.pathExists(JoinPath(staticDir, IndexFile)) then Some(JoinPath(staticDir, IndexFile))
      else None
  }

  /** A relative path is answered, if at all, by a path that begins with
      the static directory as text.  This is no containment: `..` parts are
      kept (`DotDotLeavesDirectory`). */
  lemma RelativePathInside(fullPath: string, staticDir: string, fs: FileSystem)
    requires fullPath == [] || fullPath[0] != '/'
    ensures var r := GetStaticFiles(fullPath, staticDir, fs);
      r.Some? ==> StartsWith(r.value, staticDir)
  {
    var file := JoinPath(staticDir, fullPath);
    assert StartsWith(file, staticDir) by {
      if fullPath != [] {
        assert file == staticDir + ("/" + fullPath);
        StartsWithAppend(staticDir, "/" + fullPath);
      } else {
        StartsWithAppend(staticDir, []);
        assert staticDir + [] == staticDir;
      }
    }
    assert JoinPath(file, IndexFile) == file + ("/" + IndexFile);
    StartsWithAppend(file, "/" + IndexFile);
    assert StartsWith(JoinPath(file, IndexFile), staticDir) by {
      assert file[..|staticDir|] == staticDir;
      assert JoinPath(file, IndexFile)[..|staticDir|] == file[..|staticDir|];
    }
    assert JoinPath(staticDir, IndexFile) == staticDir + ("/" + IndexFile);
    StartsWithAppend(staticDir, "/" + IndexFile);
  }

  /** A relative path with a `..` part is still answered: the path begins
      with the static directory as text, but names a file outside it. */
  lemma DotDotLeavesDirectory()
    ensures GetStaticFiles("../secret", "static", FileSystem(p => p == "static/../secret", _ => false, _ => false))
      == Some("static/../secret")
  {
    assert !StartsWith("../secret", "api/") by {
      assert "../secret"[0] != "api/"[0];
    }
    assert JoinPath("static", "../secret") == "static/../secret";
  }

  /** An absolute path replaces the static directory altogether: any file
      the process can see is served. */
  lemma AbsolutePathOutside(fullPath: string, staticDir: string, fs: FileSystem)
    requires fullPath != [] && fullPath[0] == '/' && fs.isFile(fullPath)
    ensures GetStaticFiles(fullPath, staticDir, fs) == Some(fullPath)
  {
    assert !StartsWith(fullPath, "api/") by {
      assert fullPath[0] != "api/"[0];
    }
  }
}
