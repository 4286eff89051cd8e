/**
 * The four cue-track writers `write_vtt_original`, `write_vtt_translation`,
 * `write_srt_original` and `write_srt_translation`, as functions returning
 * the text they would write. All four share one layout: an optional
 * `WEBVTT` header, then for each record in order its 1-based number, its
 * timing line and its body, each cue closed by a blank line.
 */
module Tracks {
  import opened Wrappers
  import opened Text
  import opened Numerals
  import opened Timestamp
  import opened Pipeline

  /** WebVTT (`.vtt`, '.' before the milliseconds) or SubRip (`.srt`, ','). */
  datatype Format = Vtt | Srt

  /** The original-language track or the English track. */
  datatype Kind = Original | Translation

  /** One cue as written: its number, its timing line and its body. */
  datatype Cue = Cue(number: nat, timing: string, body: string)

  function Header(f: Format): string {
    match f
    case Vtt => "WEBVTT\n\n"
    case Srt => ""
  }

  /** The character before the milliseconds: '.' in WebVTT, ',' in SubRip. */
  function Separator(f: Format): char {
    match f
    case Vtt => '.'
    case Srt => ','
  }

  /**
   * The format's timestamp of `secs`: the fields of `secs` printed as
   * `HH:MM:SS<sep>mmm` with the format's separator, which reads back to
   * those fields and holds no space.
   */
  function Stamp(f: Format, secs: real): (t: string)
    ensures t == Render(Fields(secs), Separator(f))
    ensures Decode(t, Separator(f)) == Some(Fields(secs))
    ensures ' ' !in t
  {
    TimestampsOf(secs, Fields(secs));
    RenderAlphabet(Fields(secs), Separator(f), ' ');
    match f
    case Vtt => VttTimestamp(secs)
    case Srt => SrtTimestamp(secs)
  }

  /**
   * `start --> end` in the format's timestamp style: up to the first space
   * the line is the start's timestamp, then comes " --> ", and the rest is
   * the end's timestamp; each side reads back to its fields.
   */
  function TimingLine(f: Format, s: Segment): (line: string)
    ensures FirstIndexOf(line, ' ').Some?
    ensures var p := FirstIndexOf(line, ' ').value;
            p + 5 <= |line| && line[p..p + 5] == " --> "
            && Decode(line[..p], Separator(f)) == Some(Fields(s.start))
            && Decode(line[p + 5..], Separator(f)) == Some(Fields(s.end))
            && line[..p] == Render(Fields(s.start), Separator(f))
            && line[p + 5..] == Render(Fields(s.end), Separator(f))
  {
    var a, b := Stamp(f, s.start), Stamp(f, s.end);
    ArrowLine(a, b, Separator(f), Fields(s.start), Fields(s.end));
    a + " --> " + b
  }

  /**
   * Two timestamps without spaces joined by " --> " split back at the first
   * space into the two timestamps.
   */
  lemma ArrowLine(a: string, b: string, sep: char, start: Clock, end: Clock)
    requires ' ' !in a && Decode(a, sep) == Some(start) && Decode(b, sep) == Some(end)
    ensures var line := a + " --> " + b;
            && FirstIndexOf(line, ' ') == Some(|a|)
            && |a| + 5 <= |line| && line[|a|..|a| + 5] == " --> "
            && Decode(line[..|a|], sep) == Some(start)
            && Decode(line[|a| + 5..], sep) == Some(end)
            && line[..|a|] == a && line[|a| + 5..] == b
  {
    var line := a + " --> " + b;
    FirstIndexAfter(a, ' ', "--> " + b);
    assert line == a + [' '] + ("--> " + b);
    assert line[..|a|] == a && line[|a|..|a| + 5] == " --> " && line[|a| + 5..] == b;
  }

  /** The `[lang] ` tag of an original-track cue; no tag for an empty language. */
  function Tag(lang: string): string {
    if lang != "" then "[" + lang + "] " else ""
  }

  /**
   * An original-track body: the stripped text, preceded by the bracketed
   * language and one space exactly when the language is non-empty.
   */
  function OriginalBody(s: Segment): (b: string)
    ensures |Tag(s.lang)| <= |b| && b[..|Tag(s.lang)|] == Tag(s.lang)
    ensures b[|Tag(s.lang)|..] == Strip(s.text)
    ensures s.lang != "" ==> b[0] == '[' && b[|s.lang| + 1..|s.lang| + 3] == "] "
  {
    var b := Tag(s.lang) + Strip(s.text);
    assert b[..|Tag(s.lang)|] == Tag(s.lang);
    b
  }

  /** Python's `trans and trans.strip()`: a translation with visible text. */
  predicate HasVisibleTranslation(s: Segment) {
    s.translation.Some? && Strip(s.translation.value) != ""
  }

  /**
   * A translation-track body: the stripped translation when it has visible
   * text, otherwise the stripped original text. It is empty only when both
   * are blank, so a segment with text always shows something.
   */
  function TranslationBody(s: Segment): (b: string)
    ensures IsStripped(b)
    ensures HasVisibleTranslation(s) ==> b == Strip(s.translation.value)
    ensures !HasVisibleTranslation(s) ==> b == Strip(s.text)
    ensures b == "" <==> !HasVisibleTranslation(s) && AllSpace(s.text)
  {
    StripEmptyIffAllSpace(s.text);
    if HasVisibleTranslation(s) then Strip(s.translation.value) else Strip(s.text)
  }

  function Body(k: Kind, s: Segment): string {
    match k
    case Original => OriginalBody(s)
    case Translation => TranslationBody(s)
  }

  /** Numbers the cues 1..N in list order, pairing timing line i with body i. */
  function Numbered(timings: seq<string>, bodies: seq<string>): (cs: seq<Cue>)
    requires |timings| == |bodies|
    ensures |cs| == |timings|
    ensures forall i :: 0 <= i < |cs| ==> cs[i] == Cue(i + 1, timings[i], bodies[i])
  {
    if timings == [] then []
    else
      var n := |timings|;
      Numbered(timings[..n - 1], bodies[..n - 1]) + [Cue(n, timings[n - 1], bodies[n - 1])]
  }

  function Timer(f: Format): Segment -> string {
    s => TimingLine(f, s)
  }

  function Writer(k: Kind): Segment -> string {
    s => Body(k, s)
  }

  /** The cues of a track: one per record, in list order. */
  function Cues(segs: seq<Segment>, f: Format, k: Kind): (cs: seq<Cue>)
    ensures |cs| == |segs|
  {
    Numbered(MapInOrder(Timer(f), segs), MapInOrder(Writer(k), segs))
  }

  /** Cue i + 1 of a track is record i's timing line and body. */
  lemma CueAt(segs: seq<Segment>, f: Format, k: Kind, i: nat)
    requires i < |segs|
    ensures Cues(segs, f, k)[i] == Cue(i + 1, TimingLine(f, segs[i]), Body(k, segs[i]))
  {
  }

  /**
   * `f"{i}\n"`, the timing line and `\n`, then the body and a blank line: the
   * first line of a block is the cue number alone, and every block ends with
   * an empty line.
   */
  function RenderCue(c: Cue): (r: string)
    ensures StartsWith(r, Decimal(c.number) + "\n")
    ensures FirstIndexOf(r, '\n') == Some(|Decimal(c.number)|)
    ensures |r| >= 2 && r[|r| - 2..] == "\n\n"
    ensures var n := |Decimal(c.number)| + 1;
            n + |c.timing| + 1 + |c.body| + 2 == |r|
            && r[n..n + |c.timing|] == c.timing && r[n + |c.timing|] == '\n'
            && r[n + |c.timing| + 1..|r| - 2] == c.body
  {
    var d := Decimal(c.number);
    var rest := c.timing + "\n" + c.body + "\n\n";
    assert '\n' !in d by {
      forall k | 0 <= k < |d| ensures d[k] != '\n' { assert IsDigit(d[k]); }
    }
    FirstIndexAfter(d, '\n', rest);
    assert d + "\n" + c.timing + "\n" + c.body + "\n\n" == d + ['\n'] + rest;
    d + ['\n'] + rest
  }

  function RenderCues(cs: seq<Cue>): string {
    if cs == [] then "" else RenderCue(cs[0]) + RenderCues(cs[1..])
  }

  /**
   * The whole text a writer puts in its file: the header, then nothing at all
   * for no records, and otherwise cue number 1 on the first line after it.
   */
  function Track(segs: seq<Segment>, f: Format, k: Kind): (out: string)
    ensures StartsWith(out, Header(f))
    ensures segs == [] <==> out == Header(f)
    ensures segs != [] ==> |out| >= |Header(f)| + 2 && out[|Header(f)|..|Header(f)| + 2] == "1\n"
  {
    var ts, bs := MapInOrder(Timer(f), segs), MapInOrder(Writer(k), segs);
    var h, cues := Header(f), RenderCues(Numbered(ts, bs));
    NumberedOpensWithOne(ts, bs);
    HeaderThenCues(h, cues);
    h + cues
  }

  /** A header followed by rendered cues starts with the header and then with whatever the cues start with. */
  lemma HeaderThenCues(h: string, cues: string)
    ensures StartsWith(h + cues, h)
    ensures cues == [] <==> h + cues == h
    ensures |cues| >= 2 ==> (h + cues)[|h|..|h| + 2] == cues[..2]
  {
    assert (h + cues)[..|h|] == h;
    assert (h + cues)[|h|..] == cues;
  }

  /** Rendering a list of cues is rendering its two halves, one after the other. */
  lemma {:induction false} RenderCuesAppend(a: seq<Cue>, b: seq<Cue>)
    ensures RenderCues(a + b) == RenderCues(a) + RenderCues(b)
  {
    if a != [] {
      assert (a + b)[1..] == a[1..] + b;
      RenderCuesAppend(a[1..], b);
    } else {
      assert a + b == b;
    }
  }

  /**
   * Rendered numbered cues are empty exactly when there are no cues, and
   * otherwise open with the number 1 on a line of its own.
   */
  lemma NumberedOpensWithOne(ts: seq<string>, bs: seq<string>)
    requires |ts| == |bs|
    ensures var out := RenderCues(Numbered(ts, bs));
            && (out == "" <==> ts == [])
            && (ts != [] ==> |out| >= 2 && out[..2] == "1\n")
  {
  }

  /**
   * Rendered numbered cues are, for every i, the blocks before cue i + 1,
   * the block of cue i + 1 (timing line i, body i) and the blocks after it.
   */
  lemma NumberedLayout(ts: seq<string>, bs: seq<string>, i: nat)
    requires |ts| == |bs| && i < |ts|
    ensures var cs := Numbered(ts, bs);
            RenderCues(cs) == RenderCues(cs[..i]) + (RenderCue(Cue(i + 1, ts[i], bs[i])) + RenderCues(cs[i + 1..]))
  {
    RenderCuesSplit(Numbered(ts, bs), i);
  }

  /** Rendered cues are the blocks before cue i, the block of cue i, and the blocks after it. */
  lemma RenderCuesSplit(cs: seq<Cue>, i: nat)
    requires i < |cs|
    ensures RenderCues(cs) == RenderCues(cs[..i]) + (RenderCue(cs[i]) + RenderCues(cs[i + 1..]))
  {
    assert cs == cs[..i] + cs[i..];
    RenderCuesAppend(cs[..i], cs[i..]);
    assert cs[i..][0] == cs[i] && cs[i..][1..] == cs[i + 1..];
  }

  /** `write_vtt_original`: starts with the `WEBVTT` header and a blank line. */
  function WriteVttOriginal(segs: seq<Segment>): (out: string)
    ensures |out| >= 8 && out[..8] == "WEBVTT\n\n"
    ensures segs == [] <==> out == "WEBVTT\n\n"
  {
    Track(segs, Vtt, Original)
  }

  /** `write_vtt_translation`: starts with the `WEBVTT` header and a blank line. */
  function WriteVttTranslation(segs: seq<Segment>): (out: string)
    ensures |out| >= 8 && out[..8] == "WEBVTT\n\n"
    ensures segs == [] <==> out == "WEBVTT\n\n"
  {
    Track(segs, Vtt, Translation)
  }

  /** `write_srt_original`: no header, so the file opens with cue number 1 or is empty. */
  function WriteSrtOriginal(segs: seq<Segment>): (out: string)
    ensures segs == [] <==> out == ""
    ensures segs != [] ==> |out| >= 2 && out[..2] == "1\n"
  {
    Track(segs, Srt, Original)
  }

  /** `write_srt_translation`: no header, so the file opens with cue number 1 or is empty. */
  function WriteSrtTranslation(segs: seq<Segment>): (out: string)
    ensures segs == [] <==> out == ""
    ensures segs != [] ==> |out| >= 2 && out[..2] == "1\n"
  {
    Track(segs, Srt, Translation)
  }

  /**
   * The layout of every track: the header, then the blocks of cues 1..i,
   * then the block of cue i + 1, which carries record i's timing and body,
   * then the remaining blocks; and nothing else.
   */
  lemma TrackLayout(segs: seq<Segment>, f: Format, k: Kind, i: nat)
    requires i < |segs|
    ensures var cs := Cues(segs, f, k);
            Track(segs, f, k) == Header(f) + (RenderCues(cs[..i])
                                              + (RenderCue(Cue(i + 1, TimingLine(f, segs[i]), Body(k, segs[i])))
                                                 + RenderCues(cs[i + 1..])))
  {
    NumberedLayout(MapInOrder(Timer(f), segs), MapInOrder(Writer(k), segs), i);
  }

  /**
   * The original and the translation track of one format have the same
   * number of cues, and cue by cue the same number and the same timing
   * line; only the bodies differ.
   */
  lemma DualTracksShareTiming(segs: seq<Segment>, f: Format)
    ensures var o, t := Cues(segs, f, Original), Cues(segs, f, Translation);
            && |o| == |t| == |segs|
            && forall i :: 0 <= i < |segs| ==>
                 o[i].number == t[i].number == i + 1 && o[i].timing == t[i].timing == TimingLine(f, segs[i])
  {
  }

  /** A SubRip timing line is the WebVTT one with both '.' separators turned into ','. */
  lemma SrtTimingIsVttWithComma(s: Segment)
    ensures TimingLine(Srt, s) == ReplaceChar(TimingLine(Vtt, s), '.', ',')
  {
    var a, b := VttTimestamp(s.start), VttTimestamp(s.end);
    assert TimingLine(Vtt, s) == a + " --> " + b;
    assert TimingLine(Srt, s) == SrtTimestamp(s.start) + " --> " + SrtTimestamp(s.end);
    ReplaceAroundArrow(a, b);
  }

  /** Replacing '.' by ',' in `a --> b` replaces it in `a` and in `b`, and leaves the arrow. */
  lemma ReplaceAroundArrow(a: string, b: string)
    ensures ReplaceChar(a + " --> " + b, '.', ',') == ReplaceChar(a, '.', ',') + " --> " + ReplaceChar(b, '.', ',')
  {
    ReplaceCharAbsent(" --> ", '.', ',');
    ReplaceCharAppend(a + " --> ", b, '.', ',');
    ReplaceCharAppend(a, " --> ", '.', ',');
  }

  /**
   * The SubRip track carries the same cues as the WebVTT track of the same
   * kind, except that each timing line has ',' where the WebVTT one has '.'.
   */
  lemma SrtCuesAreVttCuesWithComma(segs: seq<Segment>, k: Kind)
    ensures var v, r := Cues(segs, Vtt, k), Cues(segs, Srt, k);
            && |v| == |r|
            && forall i :: 0 <= i < |r| ==> r[i] == v[i].(timing := ReplaceChar(v[i].timing, '.', ','))
  {
    forall i | 0 <= i < |segs|
      ensures Cues(segs, Srt, k)[i] == Cues(segs, Vtt, k)[i].(timing := ReplaceChar(Cues(segs, Vtt, k)[i].timing, '.', ','))
    {
      CueAt(segs, Vtt, k, i);
      CueAt(segs, Srt, k, i);
      SrtTimingIsVttWithComma(segs[i]);
    }
  }

  /**
   * For a record the segment loop produced, the translation body is the
   * translation when there is one and the text otherwise.
   */
  lemma TranslationBodyOfRecord(s: Segment)
    requires WellFormed(s)
    ensures TranslationBody(s) == s.translation.GetOr(s.text)
  {
  }

  /** An original cue of a record with text always shows that text. */
  lemma OriginalBodyOfRecord(s: Segment)
    requires WellFormed(s)
    ensures OriginalBody(s) == Tag(s.lang) + s.text
  {
  }
}
