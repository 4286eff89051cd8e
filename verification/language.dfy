/**
 * Per-segment language choice: `detect_lang_of_text` folds every Portuguese
 * and every Spanish variant onto "pt" and "es", and the segment loop falls
 * back from the detected code to the whole-file language.
 */
module Language {
  import opened Wrappers
  import opened Text

  /**
   * `detect_lang_of_text` after the detector has answered: `None` is the
   * detector's exception. Codes starting with "pt" or "es" are folded; any
   * other code passes through.
   */
  function NormaliseCode(detection: Option<string>): (r: string)
    ensures detection.None? ==> r == ""
    ensures r == "pt" <==> detection.Some? && StartsWith(detection.value, "pt")
    ensures r == "es" <==> detection.Some? && StartsWith(detection.value, "es")
    ensures detection.Some? && !StartsWith(detection.value, "pt") && !StartsWith(detection.value, "es")
            ==> r == detection.value
  {
    match detection
    case None => ""
    case Some(code) =>
      if StartsWith(code, "pt") then "pt"
      else if StartsWith(code, "es") then "es"
      else code
  }

  /** Folding a code that is already folded changes nothing. */
  lemma NormaliseIdempotent(detection: Option<string>)
    ensures NormaliseCode(Some(NormaliseCode(detection))) == NormaliseCode(detection)
  {
  }

  /** The whole-file language when Python would find it truthy, otherwise "". */
  function OverallOrEmpty(overall: Option<string>): string {
    if overall.Some? && overall.value != "" then overall.value else ""
  }

  /**
   * The language the segment loop chooses for already-stripped `text`: the
   * detector is asked only about non-empty text, a non-empty normalised answer
   * wins, and otherwise the whole-file language stands in.
   */
  function ChooseLang(text: string, detect: string -> Option<string>, overall: Option<string>): (r: string)
    ensures (text == "" || NormaliseCode(detect(text)) == "") ==> r == OverallOrEmpty(overall)
    ensures text != "" && NormaliseCode(detect(text)) != "" ==> r == NormaliseCode(detect(text))
    ensures r == "" <==> (text == "" || NormaliseCode(detect(text)) == "")
                         && (overall.None? || overall.value == "")
  {
    var detected := if text != "" then NormaliseCode(detect(text)) else "";
    if detected != "" then detected else OverallOrEmpty(overall)
  }
}
