/**
 * The per-segment loop of `main`: each raw segment of the whole-file
 * transcription gets a language, an optional refined transcription and an
 * optional English translation, and becomes one enriched record. The
 * language detector, ffmpeg and the speech model are oracle parameters, and
 * every step also reports which oracle questions it asked.
 */
module Pipeline {
  import opened Wrappers
  import opened Text
  import opened Language
  import opened Transcription

  /** An entry of the whole-file transcription; any of its keys may be missing. */
  datatype RawSegment = RawSegment(start: Option<real>, end: Option<real>, text: Option<string>)

  /** One enriched record, as appended to `processed` and later written out. */
  datatype Segment = Segment(start: real, end: real, lang: string, text: string, translation: Option<string>)

  /** The two command-line switches that change the loop: `--refine-per-segment` and `--no-translate`. */
  datatype Flags = Flags(refinePerSegment: bool, noTranslate: bool)

  /** Cut `[start, end]` out of the extracted audio and run the speech model on it with `options`. */
  datatype SliceRequest = SliceRequest(start: real, end: real, options: Options)

  /** ffmpeg exiting non-zero (`CalledProcessError`), or the speech model's response on the slice. */
  datatype SliceOutcome = ExtractionFailed | Transcribed(response: Response)

  /** The external collaborators: the text-language detector (`None` when it raises) and slice transcription. */
  datatype Oracles = Oracles(detect: string -> Option<string>, slice: SliceRequest -> SliceOutcome)

  /** One question put to an oracle. */
  datatype Call = Detect(text: string) | Slice(request: SliceRequest)

  /** The record one loop iteration appends, and the questions it asked, in order. */
  datatype Step = Step(segment: Segment, calls: seq<Call>)

  /** What every record satisfies: stripped text, and a translation that is absent or non-empty and stripped. */
  predicate WellFormed(s: Segment) {
    && IsStripped(s.text)
    && (s.translation.Some? ==> s.translation.value != "" && IsStripped(s.translation.value))
  }

  /** Only Portuguese and Spanish segments are ever re-transcribed. */
  predicate Refinable(lang: string) {
    lang == "pt" || lang == "es"
  }

  function StartOf(raw: RawSegment): real {
    raw.start.GetOr(0.0)
  }

  /** A missing end defaults to half a second after the start. */
  function EndOf(raw: RawSegment): real {
    raw.end.GetOr(StartOf(raw) + 0.5)
  }

  function TextOf(raw: RawSegment): string {
    Strip(raw.text.GetOr(""))
  }

  /** The re-transcription request: the same window, the chosen language forced, no task. */
  function RefineRequest(raw: RawSegment, lang: string): SliceRequest {
    SliceRequest(StartOf(raw), EndOf(raw), RequestOptions(lang, Transcribe))
  }

  /** The translation request: the same window, no language, `task="translate"`. */
  function TranslateRequest(raw: RawSegment): SliceRequest {
    SliceRequest(StartOf(raw), EndOf(raw), RequestOptions("", Translate))
  }

  /** The text after a refinement attempt: only a non-empty transcription replaces it. */
  function RefinedText(text: string, outcome: SliceOutcome): string {
    match outcome
    case ExtractionFailed => text
    case Transcribed(r) => if MergedText(r) != "" then MergedText(r) else text
  }

  /** The translation after a translation attempt: only a non-empty transcription is kept. */
  function TranslationOf(outcome: SliceOutcome): Option<string> {
    match outcome
    case ExtractionFailed => None
    case Transcribed(r) => if MergedText(r) != "" then Some(MergedText(r)) else None
  }

  /**
   * One iteration of the segment loop of `main`: the record keeps the raw
   * window (end defaulting to start + 0.5) and the chosen language, and is
   * well formed whatever the oracles answer.
   */
  function EnrichSegment(raw: RawSegment, overall: Option<string>, flags: Flags, oracles: Oracles): (st: Step)
    ensures st.segment.start == StartOf(raw) && st.segment.end == EndOf(raw)
    ensures st.segment.lang == ChooseLang(TextOf(raw), oracles.detect, overall)
    ensures WellFormed(st.segment)
  {
    var text := TextOf(raw);
    var lang := ChooseLang(text, oracles.detect, overall);
    var refining := flags.refinePerSegment && Refinable(lang);
    var refineReq := RefineRequest(raw, lang);
    var translateReq := TranslateRequest(raw);
    var newText := if refining then RefinedText(text, oracles.slice(refineReq)) else text;
    var translation := if flags.noTranslate then None else TranslationOf(oracles.slice(translateReq));
    var calls := (if text != "" then [Detect(text)] else [])
                 + (if refining then [Slice(refineReq)] else [])
                 + (if flags.noTranslate then [] else [Slice(translateReq)]);
    Step(Segment(StartOf(raw), EndOf(raw), lang, newText, translation), calls)
  }

  /**
   * The record's text is the stripped raw text unless refinement was enabled,
   * the language is "pt" or "es", the slice could be extracted and the model
   * returned non-empty text; in that case it is the model's text.
   */
  lemma EnrichText(raw: RawSegment, overall: Option<string>, flags: Flags, oracles: Oracles)
    ensures var s := EnrichSegment(raw, overall, flags, oracles).segment;
            var refining := flags.refinePerSegment && Refinable(s.lang);
            var outcome := oracles.slice(RefineRequest(raw, s.lang));
            && (s.text != TextOf(raw) ==>
                  refining && outcome.Transcribed? && s.text == MergedText(outcome.response) != "")
            && (refining && outcome.Transcribed? && MergedText(outcome.response) != "" ==>
                  s.text == MergedText(outcome.response))
  {
  }

  /**
   * The record has a translation exactly when translation is enabled, the
   * slice could be extracted and the model returned non-empty text, and then
   * it is that text.
   */
  lemma EnrichTranslation(raw: RawSegment, overall: Option<string>, flags: Flags, oracles: Oracles)
    ensures var s := EnrichSegment(raw, overall, flags, oracles).segment;
            var outcome := oracles.slice(TranslateRequest(raw));
            && (s.translation.Some? <==>
                  !flags.noTranslate && outcome.Transcribed? && MergedText(outcome.response) != "")
            && (s.translation.Some? ==> s.translation.value == MergedText(outcome.response))
  {
  }

  /**
   * The detector is asked about the stripped text exactly when it is
   * non-empty; the refinement request goes out exactly when refinement is
   * enabled and the language is "pt" or "es"; the translation request goes
   * out exactly when translation is enabled; nothing else is asked.
   */
  lemma EnrichCalls(raw: RawSegment, overall: Option<string>, flags: Flags, oracles: Oracles)
    ensures var st := EnrichSegment(raw, overall, flags, oracles);
            && (Detect(TextOf(raw)) in st.calls <==> TextOf(raw) != "")
            && (Slice(RefineRequest(raw, st.segment.lang)) in st.calls <==>
                  flags.refinePerSegment && Refinable(st.segment.lang))
            && (Slice(TranslateRequest(raw)) in st.calls <==> !flags.noTranslate)
            && (forall c :: c in st.calls ==>
                  c == Detect(TextOf(raw)) || c == Slice(RefineRequest(raw, st.segment.lang))
                  || c == Slice(TranslateRequest(raw)))
  {
    var st := EnrichSegment(raw, overall, flags, oracles);
    var text := TextOf(raw);
    var lang := ChooseLang(text, oracles.detect, overall);
    var refining := flags.refinePerSegment && Refinable(lang);
    assert RefineRequest(raw, lang).options.task != TranslateRequest(raw).options.task;
    GatedCalls(Detect(text), Slice(RefineRequest(raw, lang)), Slice(TranslateRequest(raw)),
               text != "", refining, !flags.noTranslate, st.calls);
  }

  /** Three distinct questions, each asked or not: a question is in the list exactly when it was asked. */
  lemma GatedCalls(a: Call, b: Call, c: Call, pa: bool, pb: bool, pc: bool, calls: seq<Call>)
    requires a != b && a != c && b != c
    requires calls == (if pa then [a] else []) + (if pb then [b] else []) + (if pc then [c] else [])
    ensures (a in calls <==> pa) && (b in calls <==> pb) && (c in calls <==> pc)
    ensures forall x :: x in calls ==> x == a || x == b || x == c
  {
  }

  /** Two oracles give the same answers to every question in `calls`. */
  predicate AgreeOn(o1: Oracles, o2: Oracles, calls: seq<Call>) {
    forall c :: c in calls ==>
      match c
      case Detect(t) => o1.detect(t) == o2.detect(t)
      case Slice(q) => o1.slice(q) == o2.slice(q)
  }

  /**
   * A step depends on its oracles only through the questions it asks: so the
   * detector's answer on empty text, a refinement of a language other than
   * "pt" or "es", and a translation under `--no-translate` cannot matter.
   */
  lemma EnrichDependsOnlyOnCalls(raw: RawSegment, overall: Option<string>, flags: Flags, o1: Oracles, o2: Oracles)
    requires AgreeOn(o1, o2, EnrichSegment(raw, overall, flags, o1).calls)
    ensures EnrichSegment(raw, overall, flags, o1) == EnrichSegment(raw, overall, flags, o2)
  {
    var st := EnrichSegment(raw, overall, flags, o1);
    var text := TextOf(raw);
    if text != "" {
      assert Detect(text) in st.calls;
    }
    var lang := ChooseLang(text, o1.detect, overall);
    assert lang == ChooseLang(text, o2.detect, overall);
    if flags.refinePerSegment && Refinable(lang) {
      assert Slice(RefineRequest(raw, lang)) in st.calls;
    }
    if !flags.noTranslate {
      assert Slice(TranslateRequest(raw)) in st.calls;
    }
  }

  /** Apply `step` to each element on its own, in order, as a `for` loop appending to a list does. */
  function MapInOrder<A, B>(step: A -> B, xs: seq<A>): (ys: seq<B>)
    ensures |ys| == |xs|
    ensures forall k :: 0 <= k < |xs| ==> ys[k] == step(xs[k])
  {
    if xs == [] then [] else MapInOrder(step, xs[..|xs| - 1]) + [step(xs[|xs| - 1])]
  }

  /**
   * Elements are processed independently: mapping two runs placed one after
   * the other gives the two mapped runs, one after the other.
   */
  lemma MapInOrderAppend<A, B>(step: A -> B, xs: seq<A>, ys: seq<A>)
    ensures MapInOrder(step, xs + ys) == MapInOrder(step, xs) + MapInOrder(step, ys)
  {
  }

  /** The loop body of `main` as a function of the raw segment alone. */
  function Enricher(overall: Option<string>, flags: Flags, oracles: Oracles): RawSegment -> Segment {
    raw => EnrichSegment(raw, overall, flags, oracles).segment
  }

  /**
   * Record `k` of the loop is the enrichment of raw segment `k` alone: same
   * window, well formed, and without translation under `--no-translate`.
   */
  lemma EnrichedRecord(base: seq<RawSegment>, overall: Option<string>, flags: Flags, oracles: Oracles, k: nat)
    requires k < |base|
    ensures var s := MapInOrder(Enricher(overall, flags, oracles), base)[k];
            && s == EnrichSegment(base[k], overall, flags, oracles).segment
            && WellFormed(s)
            && s.start == StartOf(base[k]) && s.end == EndOf(base[k])
            && (flags.noTranslate ==> s.translation.None?)
  {
  }

  /**
   * The segment loop of `main`: one record per raw segment, in input order,
   * each the enrichment of that segment alone.
   */
  method ProcessSegments(base: seq<RawSegment>, overall: Option<string>, flags: Flags, oracles: Oracles)
    returns (processed: seq<Segment>)
    ensures processed == MapInOrder(Enricher(overall, flags, oracles), base)
  {
    var step := Enricher(overall, flags, oracles);
    processed := [];
    var i := 0;
    while i < |base|
      invariant 0 <= i <= |base|
      invariant processed == MapInOrder(step, base[..i])
    {
      assert base[..i + 1][..i] == base[..i];
      processed := processed + [step(base[i])];
      i := i + 1;
    }
    assert base[..i] == base;
  }
}
