/**
 * Provider-string helpers (src/util/youtube.ts): flattening a formatted
 * `YTString` to plain text, and reading the token out of a continuation.
 */
module YouTube {
  import opened Wrappers
  import opened Text
  import opened JsonTree
  import opened Types

  /** The label a custom emoji contributes:
      `accessibility label ?? searchTerms[1] ?? searchTerms[0]`, where a missing
      element prints as `undefined` in the template literal. */
  function CustomEmojiName(e: Emoji): string {
    if e.image.accessibilityLabel.Some? then e.image.accessibilityLabel.value
    else if |e.searchTerms| > 1 then e.searchTerms[1]
    else if |e.searchTerms| == 1 then e.searchTerms[0]
    else "undefined"
  }

  /** The text one run contributes to `parseYTString`. */
  function RunText(run: Run): string {
    match run
    case TextRun(text) => text
    case EmojiRun(e) => if e.isCustomEmoji then " " + CustomEmojiName(e) + " " else e.emojiId
  }

  function RunTexts(runs: seq<Run>): (r: seq<string>)
    ensures |r| == |runs| && forall i :: 0 <= i < |runs| ==> r[i] == RunText(runs[i])
  {
    if runs == [] then [] else RunTexts(runs[..|runs| - 1]) + [RunText(runs[|runs| - 1])]
  }

  /** `parseYTString(string)` */
  function ParseYTString(s: Option<YTString>): string {
    if s.None? then ""
    else if s.value.simpleText.Some? && s.value.simpleText.value != "" then s.value.simpleText.value
    else if s.value.runs.Some? then Trim(Concat(RunTexts(s.value.runs.value)))
    else ""
  }

  /** The three outcomes of `parseYTString`: a missing string or one with
      neither a non-empty `simpleText` nor `runs` gives ''; a non-empty
      `simpleText` wins over `runs`; otherwise the run texts are joined in
      order and trimmed, so the result has no whitespace at either end and
      only whitespace was cut from the joined text. */
  lemma ParseYTStringCases(s: Option<YTString>)
    ensures s.None? ==> ParseYTString(s) == ""
    ensures s.Some? && s.value.runs.None? && (s.value.simpleText.None? || s.value.simpleText.value == "")
            ==> ParseYTString(s) == ""
    ensures s.Some? && s.value.simpleText.Some? && s.value.simpleText.value != ""
            ==> ParseYTString(s) == s.value.simpleText.value
    ensures s.Some? && s.value.runs.Some? && (s.value.simpleText.None? || s.value.simpleText.value == "")
            ==> var joined := Concat(RunTexts(s.value.runs.value));
                Trimmed(joined, |joined| - |TrimStart(joined)|, ParseYTString(s))
  {
    if s.Some? && s.value.runs.Some? {
      TrimSpec(Concat(RunTexts(s.value.runs.value)));
    }
  }

  /** A string made of text runs only, already trimmed, flattens to the
      concatenation of its run texts. */
  lemma {:induction false} PlainRunsFlatten(texts: seq<string>)
    requires var joined := Concat(RunTexts(TextRuns(texts)));
      joined != [] ==> !IsJsWhitespace(joined[0]) && !IsJsWhitespace(joined[|joined| - 1])
    ensures ParseYTString(Some(YTString(None, Some(TextRuns(texts))))) == Concat(texts)
  {
    RunTextsOfTextRuns(texts);
    var joined := Concat(texts);
    if joined != [] {
      assert TrimStart(joined) == joined;
    }
  }

  function TextRuns(texts: seq<string>): (r: seq<Run>)
    ensures |r| == |texts| && forall i :: 0 <= i < |texts| ==> r[i] == TextRun(texts[i])
  {
    seq(|texts|, i requires 0 <= i < |texts| => TextRun(texts[i]))
  }

  lemma RunTextsOfTextRuns(texts: seq<string>)
    ensures RunTexts(TextRuns(texts)) == texts
  {
  }

  /** The value under the first key of a JSON value, as `Object.keys(c)[0]`
      and `c[key]` see it (a string's keys are its indices). */
  function FirstEntryValue(c: Json): Option<Json> {
    match c
    case JObj(fields) => if fields == [] then None else Some(fields[0].value)
    case JArr(items) => if items == [] then None else Some(items[0])
    case JStr(s) => if s == [] then None else Some(JStr([s[0]]))
    case _ => None
  }

  /** `getContinuationToken(continuation)`: the `continuation` property of the
      value under the first key. `Object.keys` throws on null, so callers pass
      a truthy value. */
  function GetContinuationToken(c: Json): (r: Option<Json>)
    requires Truthy(c)
    ensures r.Some? <==> FirstEntryValue(c).Some? && FirstEntryValue(c).value.JObj?
                         && exists i :: 0 <= i < |FirstEntryValue(c).value.fields|
                                       && FirstEntryValue(c).value.fields[i].key == "continuation"
    ensures r.Some? ==> Field("continuation", r.value) in FirstEntryValue(c).value.fields
  {
    match FirstEntryValue(c)
    case Some(v) => Property(v, "continuation")
    case None => None
  }
}
