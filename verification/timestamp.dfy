/**
 * The two subtitle timestamp formatters, `seconds_to_vtt_timestamp` and
 * `seconds_to_srt_timestamp`: a seconds value is split into hours, minutes,
 * seconds and milliseconds and printed as `HH:MM:SS.mmm` or `HH:MM:SS,mmm`.
 */
module Timestamp {
  import opened Wrappers
  import opened Numerals

  /** The four printed fields of a timestamp. */
  datatype Clock = Clock(hours: int, minutes: nat, seconds: nat, millis: nat) {

    /** Minutes and seconds are below 60; milliseconds reach 1000 at most (no carry). */
    predicate Valid() {
      minutes < 60 && seconds < 60 && millis <= 1000
    }

    /** The whole seconds the first three fields stand for. */
    function WholeSeconds(): int {
      hours * 3600 + minutes * 60 + seconds
    }
  }

  /** Python's `round` on a number: to the nearest integer, ties to the even one. */
  function RoundHalfEven(x: real): (r: int)
    ensures -0.5 <= x - r as real <= 0.5
    ensures (x - r as real == 0.5 || r as real - x == 0.5) ==> r % 2 == 0
  {
    var f := x.Floor;
    var d := x - f as real;
    if d < 0.5 then f
    else if d > 0.5 then f + 1
    else if f % 2 == 0 then f
    else f + 1
  }

  /**
   * The fields `seconds_to_*_timestamp` computes: whole seconds split by 3600
   * and 60, and the fractional part rounded to milliseconds.
   */
  function Fields(secs: real): (c: Clock)
    ensures c.Valid()
  {
    var total := secs.Floor;
    Clock(total / 3600, (total / 60) % 60, total % 60, RoundHalfEven((secs - total as real) * 1000.0))
  }

  /**
   * The fields account for exactly the whole seconds of the value (hours are
   * not wrapped at 24), and the milliseconds are the nearest whole number to
   * the fractional part, 1000 included: nothing is carried into the seconds.
   */
  lemma FieldsSplitSeconds(secs: real)
    ensures Fields(secs).WholeSeconds() == secs.Floor
    ensures -0.5 <= Fields(secs).millis as real - (secs - secs.Floor as real) * 1000.0 <= 0.5
    ensures secs >= 0.0 ==> Fields(secs).hours >= 0
  {
  }

  /** The fields are the only valid ones with these whole seconds and this rounding. */
  lemma FieldsUnique(secs: real, c: Clock)
    requires c.Valid() && c.WholeSeconds() == secs.Floor
    requires c.millis == RoundHalfEven((secs - secs.Floor as real) * 1000.0)
    ensures Fields(secs) == c
  {
    var total := secs.Floor;
    var q := 60 * c.hours + c.minutes;
    assert total == 60 * q + c.seconds;
    assert total / 60 == q && total % 60 == c.seconds;
    assert q / 60 == c.hours && q % 60 == c.minutes;
    assert total == 3600 * c.hours + (60 * c.minutes + c.seconds);
    assert total / 3600 == c.hours;
  }

  /**
   * `f"{h:02d}:{m:02d}:{s:02d}{sep}{ms:03d}"`: never shorter than twelve
   * characters, and exactly `HH:MM:SS<sep>mmm` when the hours have two digits
   * and the milliseconds three.
   */
  function Render(c: Clock, sep: char): (t: string)
    ensures |t| >= 12
    ensures c.Valid() && 0 <= c.hours < 100 && c.millis < 1000 ==>
              |t| == 12 && t[2] == ':' && t[5] == ':' && t[8] == sep
  {
    FieldWidths(c);
    FormatPadded(c.hours, 2) + ":" + FormatPadded(c.minutes, 2) + ":"
    + FormatPadded(c.seconds, 2) + [sep] + FormatPadded(c.millis, 3)
  }

  /** Minutes and seconds always print in two characters; bounded hours and milliseconds in two and three. */
  lemma FieldWidths(c: Clock)
    ensures c.Valid() ==> |FormatPadded(c.minutes, 2)| == 2 && |FormatPadded(c.seconds, 2)| == 2
    ensures c.Valid() && 0 <= c.hours < 100 && c.millis < 1000 ==>
              |FormatPadded(c.hours, 2)| == 2 && |FormatPadded(c.millis, 3)| == 3
  {
    if c.Valid() {
      PaddedWidth(c.minutes, 2);
      PaddedWidth(c.seconds, 2);
      if 0 <= c.hours < 100 && c.millis < 1000 {
        PaddedWidth(c.hours, 2);
        PaddedWidth(c.millis, 3);
      }
    }
  }

  /** A timestamp holds only digits, '-', ':' and its separator. */
  lemma RenderAlphabet(c: Clock, sep: char, x: char)
    requires x != sep && x != ':' && x != '-' && !IsDigit(x)
    ensures x !in Render(c, sep)
  {
    FormatPaddedAlphabet(c.hours, 2, x);
    FormatPaddedAlphabet(c.minutes, 2, x);
    FormatPaddedAlphabet(c.seconds, 2, x);
    FormatPaddedAlphabet(c.millis, 3, x);
  }

  /** `seconds_to_vtt_timestamp`: the printed fields read back as the fields of `secs`. */
  function VttTimestamp(secs: real): (t: string)
    ensures Decode(t, '.') == Some(Fields(secs))
  {
    DecodeRender(Fields(secs), '.');
    Render(Fields(secs), '.')
  }

  /**
   * `seconds_to_srt_timestamp`: the printed fields read back as the fields of
   * `secs`, and the text is the WebVTT timestamp with its one '.' turned into
   * ','; every other character of the two is the same.
   */
  function SrtTimestamp(secs: real): (t: string)
    ensures Decode(t, ',') == Some(Fields(secs))
    ensures t == ReplaceChar(VttTimestamp(secs), '.', ',')
  {
    var c := Fields(secs);
    var pre := FormatPadded(c.hours, 2) + ":" + FormatPadded(c.minutes, 2) + ":" + FormatPadded(c.seconds, 2);
    FormatPaddedAlphabet(c.hours, 2, '.');
    FormatPaddedAlphabet(c.minutes, 2, '.');
    FormatPaddedAlphabet(c.seconds, 2, '.');
    FormatPaddedAlphabet(c.millis, 3, '.');
    ReplaceSole(pre, FormatPadded(c.millis, 3), '.', ',');
    DecodeRender(c, ',');
    Render(c, ',')
  }

  /** Position of the first occurrence of `c` in `s`, if any. */
  function FirstIndexOf(s: string, c: char): (r: Option<nat>)
    ensures r.None? ==> c !in s
    ensures r.Some? ==> r.value < |s| && s[r.value] == c && c !in s[..r.value]
  {
    if s == [] then None
    else if s[0] == c then Some(0)
    else
      match FirstIndexOf(s[1..], c)
      case None => None
      case Some(i) =>
        assert s[..i + 1] == [s[0]] + s[1..][..i];
        Some(i + 1)
  }

  /**
   * Reads a timestamp printed with separator `sep` back into its fields: the
   * hours run up to the first colon, minutes and seconds take two characters
   * each, and the milliseconds are everything after the separator.
   */
  function Decode(t: string, sep: char): Option<Clock>
  {
    match FirstIndexOf(t, ':')
    case None => None
    case Some(i) =>
      if |t| < i + 7 || t[i + 3] != ':' || t[i + 6] != sep then None
      else Assemble(ParseInt(t[..i]), ParseNat(t[i + 1..i + 3]), ParseNat(t[i + 4..i + 6]), ParseNat(t[i + 7..]))
  }

  /** The first `c` of `h + [c] + rest`, when `h` has none, is the one after `h`. */
  lemma {:induction false} FirstIndexAfter(h: string, c: char, rest: string)
    requires c !in h
    ensures FirstIndexOf(h + [c] + rest, c) == Some(|h|)
  {
    if h != [] {
      assert (h + [c] + rest)[1..] == h[1..] + [c] + rest;
      FirstIndexAfter(h[1..], c, rest);
    }
  }

  /** A clock from four parsed fields, when all four parsed. */
  function Assemble(h: Option<int>, m: Option<nat>, s: Option<nat>, ms: Option<nat>): Option<Clock> {
    if h.Some? && m.Some? && s.Some? && ms.Some? then Some(Clock(h.value, m.value, s.value, ms.value))
    else None
  }

  /**
   * The layout `H:MM:SS<sep>MS` is cut back into its four fields, provided
   * the hours hold no colon and minutes and seconds are two characters wide.
   */
  lemma {:induction false} DecodeLayout(h: string, m: string, s: string, ms: string, sep: char)
    requires ':' !in h && |m| == 2 && |s| == 2
    ensures Decode(h + ":" + m + ":" + s + [sep] + ms, sep)
            == Assemble(ParseInt(h), ParseNat(m), ParseNat(s), ParseNat(ms))
  {
    var t := h + ":" + m + ":" + s + [sep] + ms;
    var i := |h|;
    assert t == h + [':'] + (m + [':'] + s + [sep] + ms);
    FirstIndexAfter(h, ':', m + [':'] + s + [sep] + ms);
    assert t[..i] == h;
    assert t[i + 1..i + 3] == m;
    assert t[i + 4..i + 6] == s;
    assert t[i + 7..] == ms;
  }

  /** Every valid clock prints to a string its fields can be read back from. */
  lemma {:induction false} DecodeRender(c: Clock, sep: char)
    requires c.Valid()
    ensures Decode(Render(c, sep), sep) == Some(c)
  {
    FieldWidths(c);
    FormatPaddedAlphabet(c.hours, 2, ':');
    DecodeLayout(FormatPadded(c.hours, 2), FormatPadded(c.minutes, 2), FormatPadded(c.seconds, 2),
                 FormatPadded(c.millis, 3), sep);
    FormatPaddedRoundTrip(c.hours, 2);
    FormatNatRoundTrip(c.minutes, 2);
    FormatNatRoundTrip(c.seconds, 2);
    FormatNatRoundTrip(c.millis, 3);
  }

  /**
   * The VTT and SRT timestamps of the same value read back to the same fields
   * and differ in one character only: the VTT '.' is the SRT ','.
   */
  lemma SeparatorIsTheOnlyDifference(secs: real)
    ensures Decode(VttTimestamp(secs), '.') == Some(Fields(secs))
    ensures Decode(SrtTimestamp(secs), ',') == Some(Fields(secs))
    ensures exists p :: 0 <= p < |VttTimestamp(secs)| && VttTimestamp(secs)[p] == '.'
                        && SrtTimestamp(secs) == VttTimestamp(secs)[p := ',']
  {
    var c := Fields(secs);
    DecodeRender(c, '.');
    DecodeRender(c, ',');
    var pre := FormatPadded(c.hours, 2) + ":" + FormatPadded(c.minutes, 2) + ":" + FormatPadded(c.seconds, 2);
    SwapSeparator(pre, FormatPadded(c.millis, 3));
  }

  lemma SwapSeparator(pre: string, ms: string)
    ensures var v := pre + ['.'] + ms;
            |pre| < |v| && v[|pre|] == '.' && pre + [','] + ms == v[|pre| := ',']
  {
  }

  /** Every occurrence of `a` in `t` replaced by `b`. */
  function ReplaceChar(t: string, a: char, b: char): (r: string)
    ensures |r| == |t|
  {
    seq(|t|, j requires 0 <= j < |t| => if t[j] == a then b else t[j])
  }

  lemma ReplaceCharAppend(t: string, u: string, a: char, b: char)
    ensures ReplaceChar(t + u, a, b) == ReplaceChar(t, a, b) + ReplaceChar(u, a, b)
  {
  }

  lemma ReplaceCharAbsent(t: string, a: char, b: char)
    requires a !in t
    ensures ReplaceChar(t, a, b) == t
  {
  }

  /** Replacing the one `a` of `pre + [a] + post` swaps just that character. */
  lemma ReplaceSole(pre: string, post: string, a: char, b: char)
    requires a !in pre && a !in post
    ensures ReplaceChar(pre + [a] + post, a, b) == pre + [b] + post
  {
  }

  /** Two values print to the same timestamp only if their fields agree. */
  lemma RenderInjective(secs1: real, secs2: real, sep: char)
    requires Render(Fields(secs1), sep) == Render(Fields(secs2), sep)
    ensures Fields(secs1) == Fields(secs2)
    ensures secs1.Floor == secs2.Floor
  {
    DecodeRender(Fields(secs1), sep);
    DecodeRender(Fields(secs2), sep);
    FieldsSplitSeconds(secs1);
    FieldsSplitSeconds(secs2);
  }

  /** Below one second only the millisecond field can be non-zero. */
  lemma FieldsBelowOneSecond(secs: real)
    requires 0.0 <= secs < 1.0
    ensures Fields(secs) == Clock(0, 0, 0, RoundHalfEven(secs * 1000.0))
  {
  }

  lemma RenderMidnight()
    ensures Render(Clock(0, 0, 0, 0), '.') == "00:00:00.000"
    ensures Render(Clock(0, 0, 0, 0), ',') == "00:00:00,000"
  {
    PaddedValues();
    RenderOf(Clock(0, 0, 0, 0), '.', "00", "00", "00", "000");
    RenderOf(Clock(0, 0, 0, 0), ',', "00", "00", "00", "000");
  }

  lemma RenderThousandMillis()
    ensures Render(Clock(0, 0, 0, 1000), '.') == "00:00:00.1000"
  {
    PaddedValues();
    RenderOf(Clock(0, 0, 0, 1000), '.', "00", "00", "00", "1000");
  }

  /** The padded fields the worked values print. */
  lemma PaddedValues()
    ensures FormatPadded(0, 2) == "00" && FormatPadded(0, 3) == "000" && FormatPadded(1, 2) == "01"
    ensures FormatPadded(500, 3) == "500" && FormatPadded(1000, 3) == "1000"
  {
    assert Decimal(500) == Decimal(50) + "0" == "500";
    assert Decimal(1000) == Decimal(100) + "0" == "1000";
  }

  /** A timestamp is its four padded fields with ':' and the separator between them. */
  lemma RenderOf(c: Clock, sep: char, h: string, m: string, s: string, ms: string)
    requires FormatPadded(c.hours, 2) == h && FormatPadded(c.minutes, 2) == m
    requires FormatPadded(c.seconds, 2) == s && FormatPadded(c.millis, 3) == ms
    ensures Render(c, sep) == h + ":" + m + ":" + s + [sep] + ms
  {
  }

  /** Worked values: zero, one hour one minute one and a half seconds, and a millisecond field of 1000. */
  lemma ExampleZero()
    ensures VttTimestamp(0.0) == "00:00:00.000"
    ensures SrtTimestamp(0.0) == "00:00:00,000"
  {
    FieldsBelowOneSecond(0.0);
    assert RoundHalfEven(0.0 * 1000.0) == 0;
    TimestampsOf(0.0, Clock(0, 0, 0, 0));
    RenderMidnight();
  }

  /** Both timestamps of a value print its fields. */
  lemma TimestampsOf(secs: real, c: Clock)
    requires Fields(secs) == c
    ensures VttTimestamp(secs) == Render(c, '.') && SrtTimestamp(secs) == Render(c, ',')
  {
  }

  lemma ExampleHourMinuteSecond()
    ensures VttTimestamp(3661.5) == "01:01:01.500"
  {
    FieldsUnique(3661.5, Clock(1, 1, 1, 500));
    TimestampsOf(3661.5, Clock(1, 1, 1, 500));
    RenderHourMinuteSecond();
  }

  lemma RenderHourMinuteSecond()
    ensures Render(Clock(1, 1, 1, 500), '.') == "01:01:01.500"
  {
    PaddedValues();
    RenderOf(Clock(1, 1, 1, 500), '.', "01", "01", "01", "500");
  }

  lemma ExampleMillisecondsNotCarried()
    ensures VttTimestamp(0.9996) == "00:00:00.1000"
  {
    FieldsBelowOneSecond(0.9996);
    assert RoundHalfEven(0.9996 * 1000.0) == 1000;
    TimestampsOf(0.9996, Clock(0, 0, 0, 1000));
    RenderThousandMillis();
  }
}
