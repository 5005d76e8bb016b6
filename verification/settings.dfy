/**
 * The extension options the snippet core reads (the object restored from
 * storage in src/js/api/storage.js) and the list of enabled libraries the
 * random fetch chooses from.
 */
module Settings {
  import opened Libraries

  /**
   * The stored options. `libs` is a JavaScript object keyed by library key;
   * a key that is absent reads as `undefined`, which is falsy.
   */
  datatype Options = Options(libs: map<string, bool>, theme: string, beggarCounter: int)

  /** The options storage falls back to when nothing is stored: every library on. */
  const DefaultOptions: Options :=
    Options(map["javascript" := true, "react" := true, "python" := true,
                "interview" := true, "php" := true, "css" := true],
            "dark", 0)

  /**
   * `options.libs[key]` is truthy: the flag stored under the library's key
   * is set, and an absent key reads as `undefined`, which is falsy.
   */
  function IsEnabled(options: Options, lib: Library): (b: bool)
    ensures Key(lib) !in options.libs ==> !b
    ensures Key(lib) in options.libs ==> (b <==> options.libs[Key(lib)])
  {
    Key(lib) in options.libs && options.libs[Key(lib)]
  }

  /**
   * `r` is `s` with some elements left out: greedily matching each element
   * of `r` against the earliest remaining element of `s` succeeds.
   */
  ghost predicate IsSubsequence(r: seq<Library>, s: seq<Library>)
    decreases |s|
  {
    if r == [] then true
    else if s == [] then false
    else if r[0] == s[0] then IsSubsequence(r[1..], s[1..])
    else IsSubsequence(r, s[1..])
  }

  /**
   * `libs.filter(...)`: the libraries of `libs` whose flag is set, each as
   * often as it occurs in `libs`, in the order of `libs`.
   */
  function FilterEnabled(options: Options, libs: seq<Library>): (r: seq<Library>)
    ensures forall lib :: lib in r <==> lib in libs && IsEnabled(options, lib)
    ensures InDeclarationOrder(libs) ==> InDeclarationOrder(r)
  {
    if libs == [] then []
    else
      var rest := FilterEnabled(options, libs[1..]);
      if IsEnabled(options, libs[0]) then
        assert InDeclarationOrder(libs) ==> InDeclarationOrder([libs[0]] + rest) by {
          if InDeclarationOrder(libs) {
            TailInDeclarationOrder(libs);
            forall k | 0 <= k < |rest| ensures Rank(libs[0]) < Rank(rest[k]) {
              assert rest[k] in rest;
              HeadPrecedesTail(libs, rest[k]);
            }
          }
        }
        [libs[0]] + rest
      else
        assert InDeclarationOrder(libs) ==> InDeclarationOrder(rest) by {
          if InDeclarationOrder(libs) { TailInDeclarationOrder(libs); }
        }
        rest
  }

  /**
   * The filter keeps each enabled library exactly as often as it occurs in
   * the input, drops every other one, and keeps the input's relative order.
   */
  lemma {:induction false} FilterEnabledIsFilter(options: Options, libs: seq<Library>)
    ensures forall lib :: multiset(FilterEnabled(options, libs))[lib]
                            == if IsEnabled(options, lib) then multiset(libs)[lib] else 0
    ensures IsSubsequence(FilterEnabled(options, libs), libs)
    decreases |libs|
  {
    if libs != [] {
      var rest := FilterEnabled(options, libs[1..]);
      FilterEnabledIsFilter(options, libs[1..]);
      assert libs == [libs[0]] + libs[1..];
      if !IsEnabled(options, libs[0]) && rest != [] {
        assert rest[0] in rest;
      }
    }
  }

  /** Dropping the first library keeps a sequence in declaration order. */
  lemma TailInDeclarationOrder(libs: seq<Library>)
    requires libs != [] && InDeclarationOrder(libs)
    ensures InDeclarationOrder(libs[1..])
  {
  }

  /** In declaration order, the first library comes strictly before every later one. */
  lemma HeadPrecedesTail(libs: seq<Library>, lib: Library)
    requires libs != [] && InDeclarationOrder(libs)
    requires lib in libs[1..]
    ensures Rank(libs[0]) < Rank(lib)
  {
  }

  /** A non-empty sequence has its first element as a member. */
  lemma FirstIsMember(libs: seq<Library>)
    ensures libs != [] ==> libs[0] in libs
  {
  }

  /** A member other than the first one is a member of the tail. */
  lemma TailMember(libs: seq<Library>, lib: Library)
    requires libs != [] && lib in libs && lib != libs[0]
    ensures lib in libs[1..]
  {
  }

  /** In declaration order, the first library has the least rank of all members. */
  lemma HeadIsLeast(libs: seq<Library>, lib: Library)
    requires libs != [] && InDeclarationOrder(libs)
    requires lib in libs
    ensures Rank(libs[0]) <= Rank(lib)
  {
  }

  /**
   * The keys of `SNIPPET_LIBRARIES` whose flag in `options.libs` is truthy:
   * exactly the enabled libraries, each once, in declaration order.
   */
  function EnabledLibraries(options: Options): (r: seq<Library>)
    ensures forall lib :: lib in r <==> IsEnabled(options, lib)
    ensures InDeclarationOrder(r)
    // No library twice: a consequence of the strict order, stated for the reader.
    ensures forall i, j :: 0 <= i < j < |r| ==> r[i] != r[j]
  {
    AllLibrariesComplete();
    FilterEnabled(options, AllLibraries)
  }

  /**
   * Two sequences in declaration order with the same members are equal:
   * membership and order together determine such a sequence.
   */
  lemma {:induction false} OrderedSameMembersEqual(a: seq<Library>, b: seq<Library>)
    requires InDeclarationOrder(a) && InDeclarationOrder(b)
    requires forall lib :: lib in a <==> lib in b
    ensures a == b
    decreases |a|
  {
    if a == [] {
      FirstIsMember(b);
    } else {
      assert a[0] in b && b[0] in a;
      HeadIsLeast(a, b[0]);
      HeadIsLeast(b, a[0]);
      assert a[0] == b[0] by {
        assert AllLibraries[Rank(a[0])] == a[0] && AllLibraries[Rank(b[0])] == b[0];
      }
      var a', b' := a[1..], b[1..];
      TailInDeclarationOrder(a);
      TailInDeclarationOrder(b);
      forall lib ensures lib in a' ==> lib in b' {
        if lib in a' {
          HeadPrecedesTail(a, lib);
          TailMember(b, lib);
        }
      }
      forall lib ensures lib in b' ==> lib in a' {
        if lib in b' {
          HeadPrecedesTail(b, lib);
          TailMember(a, lib);
        }
      }
      OrderedSameMembersEqual(a', b');
      assert a == [a[0]] + a' && b == [b[0]] + b';
    }
  }

  /**
   * The enabled list is the only sequence that holds exactly the enabled
   * libraries in declaration order.
   */
  lemma EnabledLibrariesUnique(options: Options, r: seq<Library>)
    requires forall lib :: lib in r <==> IsEnabled(options, lib)
    requires InDeclarationOrder(r)
    ensures r == EnabledLibraries(options)
  {
    OrderedSameMembersEqual(r, EnabledLibraries(options));
  }

  /** Under the default options every library is enabled, so the list is non-empty. */
  lemma DefaultEnablesAll()
    ensures EnabledLibraries(DefaultOptions) == AllLibraries
    ensures |EnabledLibraries(DefaultOptions)| == 6
  {
    AllLibrariesComplete();
    forall lib ensures IsEnabled(DefaultOptions, lib) {
      match lib
      case JavaScript =>
      case React =>
      case Python =>
      case Interview =>
      case Php =>
      case Css =>
    }
    EnabledLibrariesUnique(DefaultOptions, AllLibraries);
  }

  /** When exactly one library is enabled, the list holds that library alone. */
  lemma SingleEnabled(options: Options, only: Library)
    requires forall lib :: IsEnabled(options, lib) <==> lib == only
    ensures EnabledLibraries(options) == [only]
  {
    EnabledLibrariesUnique(options, [only]);
  }

  /** The list is empty exactly when no flag is set. */
  lemma NoneEnabled(options: Options)
    ensures EnabledLibraries(options) == [] <==> forall lib :: !IsEnabled(options, lib)
  {
    var r := EnabledLibraries(options);
    if r != [] {
      assert r[0] in r;
    }
  }
}
