# Snippet selection and retrieval, modelled in Dafny

This project models the snippet core of a browser extension that shows a
random code or Q&A snippet from one of six topical libraries
(`src/js/api/snippets.js`). It covers:

- the closed set of libraries, their keys and their display labels;
- the list of enabled libraries the random fetch draws from, read from the
  stored extension options;
- the snippet record a fetch builds, including the title taken from the
  source path with JavaScript `lastIndexOf`, `indexOf` and `slice`;
- the listing of a library's snippet sources and the random fetch;
- the per-language code extractor and its (empty) pattern table.

Modules, one per concern:

| file | module | models |
|---|---|---|
| `wrappers.dfy` | `Wrappers` | `Option` (JavaScript `undefined`) and `Result` |
| `js_string.dfy` | `JsString` | `indexOf`, `lastIndexOf` and `slice` on strings |
| `libraries.dfy` | `Libraries` | `SNIPPET_LIBRARIES`, `SNIPPET_LIBRARY_LABELS` |
| `settings.dfy` | `Settings` | the stored options, the default options, the enabled-library filter |
| `snippets.dfy` | `Snippets` | `fetchSnippet`, title derivation, `getSnippetsFromLibrary`, `fetchRandomSnippet` |
| `code_extraction.dfy` | `CodeExtraction` | `SNIPPET_CODE_REGEX`, `extractCodeFromSnippet` |

The collaborators are parameters. The content fetch (`fetch(src)` then
`res.text()`) is a function `string -> Result<string, E>`. The bundler's
directory listing for each library is a `LibraryContext`, which holds the
listed keys and the function that loads a key to its URL. Each of the two
random picks is a nondeterministic `:|` choice. The stored options are an
input value.

The model follows the code as written:

- Missing arguments to `fetchSnippet` are only logged. The model returns
  the logged diagnostics next to the record, and it still builds the record
  when the language is missing.
- A failed fetch or body read is caught. The call resolves to `undefined`
  (`None`) and does not raise a typed error.
- A missing source also resolves to `None`. Building the title calls
  `slice` on `undefined`, which throws inside the promise chain, and that
  error is caught too.
- A source without ".md" is not an error. `indexOf` yields -1, and `slice`
  counts that from the end.
- With the shipped pattern table, extraction fails for every language.
  It does not return "": `exec` is called on the
  `undefined` found in the empty table.

## Model

| member | source | states |
|---|---|---|
| `Libraries.Label` | src/js/api/snippets.js:28-35 | every library has a label, and no label is empty |
| `Libraries.LabelOf` | src/js/api/snippets.js:28-35 | looking up a label by key gives the library's label for each of the six keys, and `undefined` for every other key or a missing key |
| `Libraries.Key` | src/js/api/snippets.js:12-19 | each library's key is a non-empty lower-case name; it serves as both property name and value of the key table, and `KeysAndLabelsDistinct` shows no two libraries share one |
| `Libraries.FromKey` | src/js/api/snippets.js:12-19 | a key names a library exactly when it is that library's key |
| `Libraries.KeyRoundTrip` | src/js/api/snippets.js:12-19 | a library's key leads back to that library, and no other key does |
| `Libraries.KeysAndLabelsDistinct` | src/js/api/snippets.js:12-35 | different libraries have different keys and different labels |
| `Libraries.Rank` | src/js/api/snippets.js:12-19 | each library has a position in declaration order, and the declaration list holds that library at that position |
| `Libraries.AllLibrariesComplete` | src/js/api/snippets.js:12-19 | the key list contains every library once, in declaration order |
| `Settings.IsEnabled` | src/js/api/snippets.js:116 | a library is enabled when the flag under its key is set; an absent key reads as `undefined` and is falsy |
| `Settings.FilterEnabled` | src/js/api/snippets.js:115-117 | filtering keeps exactly the members whose flag is truthy, and an input in declaration order gives a result in declaration order |
| `Settings.FilterEnabledIsFilter` | src/js/api/snippets.js:115-117 | filtering keeps each enabled library exactly as often as the input holds it, drops every disabled one, and the result is a subsequence of the input, so relative order is kept |
| `Settings.EnabledLibraries` | src/js/api/snippets.js:115-117 | the enabled list contains exactly the libraries whose flag is truthy, with no repetition, in declaration order |
| `Settings.EnabledLibrariesUnique` | src/js/api/snippets.js:115-117 | no other sequence has those members in declaration order, so this one characterisation fixes the enabled list |
| `Settings.OrderedSameMembersEqual` | src/js/api/snippets.js:115-117 | two sequences in declaration order with the same members are equal |
| `Settings.DefaultEnablesAll` | src/js/api/storage.js:6-21 | under the default options, all six libraries are enabled in declaration order, so the list is not empty |
| `Settings.SingleEnabled` | src/js/api/snippets.js:115-117 | with exactly one flag set, the enabled list holds that library alone |
| `Settings.NoneEnabled` | src/js/api/snippets.js:115-117 | the enabled list is empty exactly when no flag is set |
| `JsString.IndexOf` | src/js/api/snippets.js:168 | `indexOf` gives the least index where the pattern occurs, and -1 exactly when it occurs nowhere |
| `JsString.LastIndexOf` | src/js/api/snippets.js:167 | `lastIndexOf` gives the greatest index where the pattern occurs, and -1 exactly when it occurs nowhere |
| `JsString.Slice` | src/js/api/snippets.js:166-169 | `slice` is the plain substring when both indices are in range, is empty when the end is not after the start, counts a negative end back from the end, and always gives a contiguous piece of the string |
| `Snippets.Title` | src/js/api/snippets.js:166-169 | the title is a contiguous piece of the source, and it never contains '/' |
| `Snippets.TitleOfCanonicalPath` | src/js/api/snippets.js:166-169 | for a source `dir/name.md` whose name has no '/' and with no earlier ".md", the title is `name` |
| `Snippets.ExampleTitle` | src/js/api/snippets.js:166-169 | "/snippets/python/example.md" has the title "example" |
| `Snippets.TitleWithoutExtension` | src/js/api/snippets.js:166-169 | with no ".md" in the source, the title runs from after the last '/' up to, but not including, the last character |
| `Snippets.TitleEmptyWhenExtensionBeforeSlash` | src/js/api/snippets.js:166-169 | when a ".md" starts before some '/', the title is empty |
| `Snippets.ArgumentDiagnostics` | src/js/api/snippets.js:153-159 | a missing or empty source is logged, and so is a missing or empty language, source first |
| `Snippets.FetchSnippet` | src/js/api/snippets.js:152-180 | argument problems are only logged; a record comes back exactly when the source is present and the fetch succeeds; the record holds the fetched text verbatim, the language and source as passed, the label of the language's library, and the source's title |
| `Snippets.ExampleFetch` | src/js/api/snippets.js:161-177 | fetching "/snippets/python/example.md" for "python" with text "print('hi')" gives the full expected record and logs nothing |
| `Snippets.MissingLanguageOnlyLogged` | src/js/api/snippets.js:157-177 | corollary of `FetchSnippet`, spelled out for one case: a missing language is logged, and the record is still built, without a label |
| `Snippets.LoadAll` | src/js/api/snippets.js:103 | mapping the listed keys through the loader keeps their number and order, one URL per key |
| `Snippets.SnippetsFromLibrary` | src/js/api/snippets.js:102-105 | a library's sources are the loaded URLs of its listed files: one per listed key, and no others |
| `Snippets.FetchRandomSnippet` | src/js/api/snippets.js:113-123 | the chosen library is enabled; if only one library is enabled, that one is chosen; the chosen source is one of that library's listed files; the result is the fetch of that source for that library's key, which logs no missing language and gives a record exactly when the fetch succeeds |
| `Snippets.OnlyEnabledIsChosen` | src/js/api/snippets.js:115-121 | corollary of `EnabledLibraries`, spelled out for one case: when exactly one flag is set, any library drawn from the enabled list is that library |
| `CodeExtraction.ExtractCode` | src/js/api/snippets.js:190-197 | extraction fails exactly when no pattern is registered for the language; with a registered pattern it succeeds, a non-empty result is the first element of the match array, and no match (or an empty match array) gives "" |
| `CodeExtraction.ShippedExtractionFails` | src/js/api/snippets.js:190-193 | with the shipped empty pattern table, extraction fails for every language and every text |
| `CodeExtraction.ExtractionIsPerLanguage` | src/js/api/snippets.js:190-191 | registering or replacing another language's pattern does not change a language's extraction |

## Left out

- Chrome storage reads and writes (`saveToStorage`, `restoreFromStorage`, `saveSnippetsToStorage`, `restoreSnippetsFromStorage`, src/js/api/storage.js:46-102) are asynchronous I/O. The options they restore are an input value of the model instead.
- The navigation helpers (`openExtensionOptions`, `openSaved`, `openView`, `openRandomSnippet`, src/js/api/storage.js:109-146) only open pages in the host browser.
- Webpack's `require.context` (src/js/api/snippets.js:56-94) is build-time enumeration of files. Each library's listing is a `LibraryContext` parameter. The `default:` branch of `getLibratyContext` cannot be reached through the six-key table, and a closed datatype cannot represent an unknown library.
- The random choice (`randArrayItem`, whose module src/js/lib/random is not part of this model) is a nondeterministic choice. The model states only that the chosen element is a member of the list; uniformity is not stated.
- Snippets.FetchRandomSnippet: requires at least one enabled library and a non-empty listing for every enabled library. The source has no guard here, and what `randArrayItem` does with an empty list is not known.
- The network `fetch`, `res.text()` and the promise machinery are one collaborator returning `Result`. The source does not check the HTTP status, so a response with an error status still yields its body as text; deciding that is left to the collaborator.
- Regular-expression matching, including the `lastIndex` state of a `g`-flag pattern, is not modelled. A registered pattern is its `exec` function.
- `console.error` output is modelled only as the `Diagnostic` values `fetchSnippet` logs for its arguments. The error logged by the `catch` is not modelled.
- Settings flags are booleans. JavaScript truthiness of other stored values (numbers, strings, objects) is not modelled, and an absent key reads as false.
- Libraries.LabelOf: gives no label for keys inherited from `Object.prototype` (such as "toString"), where JavaScript would find an inherited property.
- Strings are sequences of `char`, one per UTF-16 code unit of the source. Surrogate pairs and encodings are not modelled.
- The `theme` and `beggar_counter` options are carried in `Options` but nothing in the core reads them.
