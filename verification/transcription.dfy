/**
 * The text `transcribe_segment_audio` extracts from one speech-model
 * response, and the options it passes with the request.
 */
module Transcription {
  import opened Wrappers
  import opened Text

  /**
   * The part of a speech-model response the pipeline reads: the `text` of each
   * entry of `segments` (a missing key is `None`; a missing `segments` list is
   * the empty list) and the top-level `text`.
   */
  datatype Response = Response(segments: seq<Option<string>>, text: Option<string>)

  /** Task requested from the speech model: plain transcription, or translation to English. */
  datatype Task = Transcribe | Translate

  /**
   * The options dictionary of `transcribe_segment_audio`: a language is passed
   * only when one is given and non-empty; `Translate` adds `task="translate"`.
   */
  datatype Options = Options(language: Option<string>, task: Task)

  function RequestOptions(language: string, task: Task): (o: Options)
    ensures o.language.Some? <==> language != ""
    ensures o.language.Some? ==> o.language.value == language
    ensures o.task == task
  {
    Options(if language != "" then Some(language) else None, task)
  }

  /** Each entry's text, stripped, in response order. */
  function StrippedPieces(r: Response): (ps: seq<string>)
    ensures |ps| == |r.segments| && AllStripped(ps)
    ensures forall k :: 0 <= k < |ps| ==> ps[k] == Strip(r.segments[k].GetOr(""))
  {
    seq(|r.segments|, k requires 0 <= k < |r.segments| => Strip(r.segments[k].GetOr("")))
  }

  /** The text `transcribe_segment_audio` returns; it is always stripped. */
  function MergedText(r: Response): (t: string)
    ensures IsStripped(t)
  {
    if |r.segments| > 0 then Strip(Join(StrippedPieces(r), " ")) else Strip(r.text.GetOr(""))
  }

  /**
   * With at least one entry, the merged text is the stripped entry texts
   * joined by single spaces, where blank entries at either end vanish and
   * blank entries in the middle leave their separators; it is "" exactly when
   * every entry is blank. Without entries it is the stripped top-level text,
   * or "" when that is missing.
   */
  lemma MergedTextCases(r: Response)
    ensures |r.segments| > 0 ==> MergedText(r) == Join(TrimBlankEnds(StrippedPieces(r)), " ")
    ensures |r.segments| > 0 ==>
              (MergedText(r) == "" <==> forall k :: 0 <= k < |r.segments| ==> AllSpace(r.segments[k].GetOr("")))
    ensures |r.segments| == 0 ==> MergedText(r) == Strip(r.text.GetOr(""))
  {
    if |r.segments| > 0 {
      var ps := StrippedPieces(r);
      StripJoin(ps);
      JoinTrimmedEmpty(ps);
      forall k | 0 <= k < |ps| ensures ps[k] == "" <==> AllSpace(r.segments[k].GetOr("")) {
        StripEmptyIffAllSpace(r.segments[k].GetOr(""));
      }
    }
  }
}
