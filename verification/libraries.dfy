/**
 * The closed set of snippet libraries, the string keys they are stored
 * under, and their display labels (`SNIPPET_LIBRARIES` and
 * `SNIPPET_LIBRARY_LABELS` in src/js/api/snippets.js).
 */
module Libraries {
  import opened Wrappers

  datatype Library = JavaScript | React | Python | Interview | Php | Css

  /** The libraries in declaration order, which is the order `Object.keys` yields them in. */
  const AllLibraries: seq<Library> := [JavaScript, React, Python, Interview, Php, Css]

  /**
   * The key of a library: it is both the property name and the value in
   * `SNIPPET_LIBRARIES`, and it is the `language` the random fetch passes on.
   * Every key is a non-empty run of lower-case letters.
   */
  function Key(lib: Library): (r: string)
    ensures |r| > 0
    ensures forall i :: 0 <= i < |r| ==> 'a' <= r[i] <= 'z'
  {
    match lib
    case JavaScript => "javascript"
    case React => "react"
    case Python => "python"
    case Interview => "interview"
    case Php => "php"
    case Css => "css"
  }

  /** The library stored under `key`, if any: a property lookup on the closed key set. */
  function FromKey(key: string): (r: Option<Library>)
    ensures r.Some? ==> Key(r.value) == key
    ensures r.None? ==> forall lib :: Key(lib) != key
  {
    if key == "javascript" then Some(JavaScript)
    else if key == "react" then Some(React)
    else if key == "python" then Some(Python)
    else if key == "interview" then Some(Interview)
    else if key == "php" then Some(Php)
    else if key == "css" then Some(Css)
    else None
  }

  /** The display label of a library. */
  function Label(lib: Library): (r: string)
    ensures |r| > 0
  {
    match lib
    case JavaScript => "JavaScript"
    case React => "React"
    case Python => "Python"
    case Interview => "Interview Questions"
    case Php => "PHP"
    case Css => "CSS"
  }

  /**
   * `SNIPPET_LIBRARY_LABELS[key]`: the label of the library stored under
   * `key`, and `None` (JavaScript's `undefined`) for any other key or a
   * missing key.
   */
  function LabelOf(key: Option<string>): (r: Option<string>)
    ensures r.Some? <==> key.Some? && exists lib :: Key(lib) == key.value
    ensures forall lib :: key == Some(Key(lib)) ==> r == Some(Label(lib))
  {
    if key.None? then None
    else match FromKey(key.value)
      case Some(lib) => Some(Label(lib))
      case None => None
  }

  /** The position of a library in declaration order. */
  function Rank(lib: Library): (r: nat)
    ensures r < |AllLibraries| && AllLibraries[r] == lib
  {
    match lib
    case JavaScript => 0
    case React => 1
    case Python => 2
    case Interview => 3
    case Php => 4
    case Css => 5
  }

  /** Strictly increasing declaration positions: declaration order without repetitions. */
  ghost predicate InDeclarationOrder(libs: seq<Library>) {
    forall i, j :: 0 <= i < j < |libs| ==> Rank(libs[i]) < Rank(libs[j])
  }

  /** `AllLibraries` lists every library exactly once, in declaration order. */
  lemma AllLibrariesComplete()
    ensures forall lib :: lib in AllLibraries
    ensures InDeclarationOrder(AllLibraries)
  {
    forall lib ensures lib in AllLibraries {
      assert AllLibraries[Rank(lib)] == lib;
    }
  }

  /** The key of a library leads back to that library, and only its key does. */
  lemma KeyRoundTrip(lib: Library, key: string)
    ensures FromKey(Key(lib)) == Some(lib)
    ensures FromKey(key) == Some(lib) ==> key == Key(lib)
  {
  }

  /** No two libraries share a key or a label. */
  lemma KeysAndLabelsDistinct(a: Library, b: Library)
    requires a != b
    ensures Key(a) != Key(b)
    ensures Label(a) != Label(b)
  {
  }
}
