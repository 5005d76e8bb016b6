/**
 * Snippet retrieval (src/js/api/snippets.js): deriving a title from a
 * snippet source, building the snippet record after the content fetch,
 * listing a library's snippet sources, and the random fetch that chooses an
 * enabled library and one of its sources.
 *
 * The content fetch, the bundler's per-library directory listing and the
 * random choice are not code of this module: the fetch is a function
 * parameter returning a `Result`, the listing is a `LibraryContext`
 * parameter, and each random choice is a nondeterministic `:|` choice.
 */
module Snippets {
  import opened Wrappers
  import opened JsString
  import opened Libraries
  import opened Settings

  /** The record a successful fetch resolves to. */
  datatype Snippet = Snippet(
    snippet: string,
    language: Option<string>,
    languageLabel: Option<string>,
    snippetSrc: string,
    snippetTitle: string)

  /** What `fetchSnippet` writes to the console about its arguments. */
  datatype Diagnostic = MissingSource | MissingLanguage

  /** A call of `fetchSnippet`: what it logged and the record it resolved to (`None` for `undefined`). */
  datatype Fetched = Fetched(logged: seq<Diagnostic>, record: Option<Snippet>)

  /** JavaScript falsiness of an optional string argument. */
  predicate Falsy(arg: Option<string>) {
    arg.None? || arg.value == ""
  }

  /**
   * The title of a snippet source: `src.slice(src.lastIndexOf('/') + 1, src.indexOf('.md'))`.
   * It is always a piece of the source and never holds a '/'.
   */
  function Title(src: string): (t: string)
    ensures Contains(src, t)
    ensures '/' !in t
  {
    var from := LastIndexOf(src, "/") + 1;
    var t := Slice(src, from, IndexOf(src, ".md"));
    TitleIsAfterLastSlash(src, from, IndexOf(src, ".md"));
    t
  }

  /** No '/' stands after the last one. */
  lemma NoSlashAfterLast(src: string, j: int)
    requires LastIndexOf(src, "/") < j < |src|
    ensures src[j] != '/'
  {
    OccursAtSingle(src, '/', j);
  }

  /** Whatever `slice` yields from just after the last '/' holds no '/'. */
  lemma TitleIsAfterLastSlash(src: string, from: int, end: int)
    requires from == LastIndexOf(src, "/") + 1
    ensures '/' !in Slice(src, from, end)
  {
    var to := ResolveIndex(end, |src|);
    if from < to {
      var t := Slice(src, from, end);
      assert t == src[from..to];
      forall i | 0 <= i < |t| ensures t[i] != '/' {
        NoSlashAfterLast(src, from + i);
      }
    }
  }

  /**
   * A source of the form `dir + "/" + name + ".md"`, where `name` holds no
   * '/' and ".md" occurs nowhere before the extension, has title `name`.
   */
  lemma {:induction false} TitleOfCanonicalPath(dir: string, name: string)
    requires '/' !in name
    requires !Contains(dir + "/" + name, ".md")
    ensures Title(dir + "/" + name + ".md") == name
  {
    var prefix := dir + "/" + name;
    var src := prefix + ".md";
    var slash := LastIndexOf(src, "/");
    var ext := IndexOf(src, ".md");

    assert src[|dir|] == '/';
    OccursAtSingle(src, '/', |dir|);
    forall j | |dir| < j ensures !OccursAt(src, "/", j) {
      OccursAtSingle(src, '/', j);
      if j < |prefix| {
        assert src[j] == name[j - |dir| - 1];
      } else if j < |src| {
        assert src[j] == ".md"[j - |prefix|];
      }
    }
    assert slash == |dir|;

    assert src[|prefix|..|prefix| + 3] == ".md";
    assert OccursAt(src, ".md", |prefix|);
    forall k | 0 <= k < |prefix| ensures !OccursAt(src, ".md", k) {
      if k + 3 <= |prefix| {
        assert src[k..k + 3] == prefix[k..k + 3];
        assert !OccursAt(prefix, ".md", k);
      } else {
        assert src[k..k + 3][|prefix| - k] == '.';
      }
    }
    assert ext == |prefix|;

    assert src[|dir| + 1..|prefix|] == name;
  }

  /** ".md" cannot occur in a string without a '.'. */
  lemma NoDotNoExtension(s: string)
    requires '.' !in s
    ensures !Contains(s, ".md")
  {
    forall k | OccursAt(s, ".md", k) ensures false {
      OccurrenceStartsWith(s, ".md", k);
    }
  }

  /** The worked example: "/snippets/python/example.md" has title "example". */
  lemma ExampleTitle()
    ensures Title("/snippets/python/example.md") == "example"
  {
    assert "/snippets/python/example.md" == "/snippets/python" + "/" + "example" + ".md";
    NoDotNoExtension("/snippets/python" + "/" + "example");
    TitleOfCanonicalPath("/snippets/python", "example");
  }

  /**
   * Without ".md", `indexOf` yields -1 and `slice` counts it from the end:
   * the title runs from after the last '/' up to, but excluding, the last
   * code unit.
   */
  lemma TitleWithoutExtension(src: string)
    requires !Contains(src, ".md")
    ensures var from := LastIndexOf(src, "/") + 1;
              Title(src) == if from < |src| - 1 then src[from..|src| - 1] else []
  {
  }

  /**
   * When the first ".md" starts before the last '/', the end index does not
   * lie after the start index and the title is empty.
   */
  lemma TitleEmptyWhenExtensionBeforeSlash(src: string, i: int, j: int)
    requires OccursAt(src, ".md", i)
    requires i < j < |src| && src[j] == '/'
    ensures Title(src) == []
  {
    OccursAtSingle(src, '/', j);
    assert 0 <= IndexOf(src, ".md") <= i;
    assert LastIndexOf(src, "/") >= j;
  }

  /** The diagnostics `fetchSnippet` logs for falsy arguments, source first. */
  function ArgumentDiagnostics(src: Option<string>, language: Option<string>): (d: seq<Diagnostic>)
    ensures MissingSource in d <==> Falsy(src)
    ensures MissingLanguage in d <==> Falsy(language)
    ensures |d| <= 2 && (|d| == 2 ==> d == [MissingSource, MissingLanguage])
  {
    (if Falsy(src) then [MissingSource] else []) + (if Falsy(language) then [MissingLanguage] else [])
  }

  /**
   * `fetchSnippet(src, language)`: log falsy arguments and carry on, fetch
   * the source's text, and on success build the record. A missing source
   * makes building the record throw, and a failed fetch or body read
   * rejects; both are caught and the call resolves to `undefined`.
   */
  function FetchSnippet<E>(src: Option<string>, language: Option<string>, fetch: string -> Result<string, E>): (r: Fetched)
    ensures r.logged == ArgumentDiagnostics(src, language)
    ensures r.record.Some? <==> src.Some? && fetch(src.value).Success?
    ensures r.record.Some? ==>
              && r.record.value.snippet == fetch(src.value).value
              && r.record.value.language == language
              && r.record.value.snippetSrc == src.value
              && r.record.value.snippetTitle == Title(src.value)
    ensures r.record.Some? ==>
              forall lib :: language == Some(Key(lib)) ==> r.record.value.languageLabel == Some(Label(lib))
    ensures r.record.Some? && r.record.value.languageLabel.Some? ==>
              exists lib :: language == Some(Key(lib))
  {
    var logged := ArgumentDiagnostics(src, language);
    if src.None? then Fetched(logged, None)
    else match fetch(src.value)
      case Failure(_) => Fetched(logged, None)
      case Success(text) =>
        Fetched(logged, Some(Snippet(text, language, LabelOf(language), src.value, Title(src.value))))
  }

  /** The worked example: fetching "/snippets/python/example.md" for "python". */
  lemma ExampleFetch<E>(fetch: string -> Result<string, E>)
    requires fetch("/snippets/python/example.md") == Success("print('hi')")
    ensures FetchSnippet(Some("/snippets/python/example.md"), Some("python"), fetch)
              == Fetched([], Some(Snippet("print('hi')", Some("python"), Some("Python"),
                                          "/snippets/python/example.md", "example")))
  {
    ExampleTitle();
    assert Key(Python) == "python";
  }

  /** A missing language is only logged: the record is still built, with no label. */
  lemma MissingLanguageOnlyLogged<E>(src: string, fetch: string -> Result<string, E>)
    requires fetch(src).Success?
    ensures var r := FetchSnippet(Some(src), None, fetch);
              MissingLanguage in r.logged && r.record.Some? && r.record.value.languageLabel.None?
  {
  }

  /**
   * A bundler directory listing (`require.context`): the keys of the
   * matched files and the module each key loads to (the file's URL).
   */
  datatype LibraryContext = LibraryContext(keys: seq<string>, load: string -> string)

  /** `keys.map(load)`, in the order of the keys. */
  function LoadAll(keys: seq<string>, load: string -> string): (r: seq<string>)
    ensures |r| == |keys|
    ensures forall i :: 0 <= i < |r| ==> r[i] == load(keys[i])
  {
    if keys == [] then [] else [load(keys[0])] + LoadAll(keys[1..], load)
  }

  /**
   * `getSnippetsFromLibrary(lib)`: the sources of every file listed for the
   * library, one per listed key, and nothing else.
   */
  function SnippetsFromLibrary(contexts: Library -> LibraryContext, lib: Library): (r: seq<string>)
    ensures |r| == |contexts(lib).keys|
    ensures forall key :: key in contexts(lib).keys ==> contexts(lib).load(key) in r
    ensures forall src :: src in r ==> exists key :: key in contexts(lib).keys && src == contexts(lib).load(key)
  {
    var ctx := contexts(lib);
    var r := LoadAll(ctx.keys, ctx.load);
    assert forall i :: 0 <= i < |ctx.keys| ==> r[i] == ctx.load(ctx.keys[i]);
    r
  }

  /**
   * `fetchRandomSnippet()`: choose an enabled library, choose one of its
   * snippet sources, and fetch that source for that library. Returns the
   * two choices alongside the outcome.
   */
  method FetchRandomSnippet<E>(options: Options, contexts: Library -> LibraryContext, fetch: string -> Result<string, E>)
    returns (library: Library, source: string, result: Fetched)
    requires EnabledLibraries(options) != []
    requires forall lib :: IsEnabled(options, lib) ==> contexts(lib).keys != []
    ensures IsEnabled(options, library) && library in EnabledLibraries(options)
    ensures |EnabledLibraries(options)| == 1 ==> library == EnabledLibraries(options)[0]
    ensures source in SnippetsFromLibrary(contexts, library)
    ensures exists key :: key in contexts(library).keys && source == contexts(library).load(key)
    ensures result == FetchSnippet(Some(source), Some(Key(library)), fetch)
    ensures MissingLanguage !in result.logged
    ensures result.record.Some? <==> fetch(source).Success?
  {
    var enabled := EnabledLibraries(options);
    assert enabled[0] in enabled;
    library :| library in enabled;
    var sources := SnippetsFromLibrary(contexts, library);
    assert sources[0] in sources;
    source :| source in sources;
    result := FetchSnippet(Some(source), Some(Key(library)), fetch);
  }

  /** With a single library enabled, the random fetch always picks that library. */
  lemma OnlyEnabledIsChosen(options: Options, only: Library, chosen: Library)
    requires forall lib :: IsEnabled(options, lib) <==> lib == only
    requires chosen in EnabledLibraries(options)
    ensures chosen == only
  {
  }
}
