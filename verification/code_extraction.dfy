/**
 * Pulling a code block out of a snippet's text (`extractCodeFromSnippet`
 * and `SNIPPET_CODE_REGEX` in src/js/api/snippets.js). The regular
 * expressions themselves are not modelled: a registered pattern is its
 * `exec` function, which yields the match array or nothing (`null`).
 */
module CodeExtraction {
  import opened Wrappers

  /** `pattern.exec(source)`: the whole match followed by its groups, or `None` for `null`. */
  type Exec = string -> Option<seq<string>>

  /** The shipped pattern table: every entry is commented out, so it is empty. */
  const ShippedPatterns: map<string, Exec> := map[]

  /** Calling `exec` on the `undefined` looked up for an unregistered language throws. */
  datatype ExtractError = PatternUndefined(lang: string)

  /**
   * `extractCodeFromSnippet(source, lang)`: run the pattern registered for
   * `lang` and return the first element of the match array, or "" when
   * nothing matched or the array is empty.
   */
  function ExtractCode(patterns: map<string, Exec>, source: string, lang: string): (r: Result<string, ExtractError>)
    ensures r.Failure? <==> lang !in patterns
    ensures r.Failure? ==> r.error == PatternUndefined(lang)
    ensures r.Success? && r.value != "" ==>
              && patterns[lang](source).Some?
              && |patterns[lang](source).value| > 0
              && r.value == patterns[lang](source).value[0]
    ensures lang in patterns && patterns[lang](source).Some? && |patterns[lang](source).value| > 0 ==>
              r.value == patterns[lang](source).value[0]
    ensures lang in patterns && (patterns[lang](source).None? || patterns[lang](source).value == []) ==>
              r == Success("")
  {
    if lang !in patterns then Failure(PatternUndefined(lang))
    else match patterns[lang](source)
      case None => Success("")
      case Some(codes) => Success(if |codes| > 0 then codes[0] else "")
  }

  /** With the shipped table, extraction throws for every language and every text. */
  lemma ShippedExtractionFails(source: string, lang: string)
    ensures ExtractCode(ShippedPatterns, source, lang) == Failure(PatternUndefined(lang))
  {
  }

  /**
   * Extraction for one language depends only on that language's pattern:
   * registering or replacing a pattern for another language changes nothing.
   */
  lemma ExtractionIsPerLanguage(patterns: map<string, Exec>, other: string, pattern: Exec, source: string, lang: string)
    requires other != lang
    ensures ExtractCode(patterns[other := pattern], source, lang) == ExtractCode(patterns, source, lang)
  {
  }
}
