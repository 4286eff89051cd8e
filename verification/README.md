# Dual-language subtitle pipeline, modelled in Dafny

This project models the core of `transcribe_and_translate_dual_vtt.py`. The script
transcribes a video with a speech model, picks a language for every segment, and can
re-transcribe Portuguese and Spanish segments with that language forced. It can also
ask the model for an English translation of each segment. It then writes an
original-language track and an English track, each as WebVTT and as SubRip.

The model covers:

- the two timestamp formatters, `seconds_to_vtt_timestamp` and `seconds_to_srt_timestamp`;
- `detect_lang_of_text`, with the detector's answer as an input;
- the text merge of `transcribe_segment_audio`, and the options it sends;
- one iteration of the segment loop of `main`, and the loop itself;
- the four writers `write_vtt_original`, `write_vtt_translation`, `write_srt_original`
  and `write_srt_translation`, as pure functions that return the text they would write.

Modules, one per file:

| module | file | what it holds |
|---|---|---|
| `Wrappers` | `wrappers.dfy` | `Option` |
| `Text` | `text.dfy` | Python's `str.isspace`, `strip`, `join` and `startswith`, and the facts about them the pipeline needs |
| `Numerals` | `numerals.dfy` | `str(n)`, `format(n, "0Nd")` and reading numerals back |
| `Timestamp` | `timestamp.dfy` | the split of seconds into clock fields, and the two timestamp styles |
| `Language` | `language.dfy` | code folding and the per-segment language choice |
| `Transcription` | `transcription.dfy` | speech-model responses, request options, and the merged text |
| `Pipeline` | `pipeline.dfy` | raw and enriched segments, one loop step with its oracle calls, and the loop |
| `Tracks` | `tracks.dfy` | cues, cue numbering, headers and the four track writers |

The external collaborators are parameters, gathered in the `Oracles` datatype: the text
language detector, and "cut this window with ffmpeg and run the speech model on it".
Each loop step also returns the list of questions it put to them (`Step.calls`). That
list is how the model states when detection, refinement and translation happen at all.

`Timestamp.Decode` reads a timestamp back into its fields. The source has no such
reader; it exists so that the round trip of the formatters can be stated.

Seconds are exact `real` numbers. `round` is exact round-half-even on them, which is
what Python's `round` does on an exact value.

## Model

| member | source | states |
|---|---|---|
| Text.Strip | transcribe_and_translate_dual_vtt.py:209 | `strip()` leaves no whitespace at either end and never lengthens its argument |
| Text.StripDecomposes | transcribe_and_translate_dual_vtt.py:209 | what `strip()` removed is whitespace before and after its result, which sits inside the argument |
| Text.StripOfPadded | transcribe_and_translate_dual_vtt.py:209 | whitespace around a stripped core strips back to exactly that core |
| Text.StrippedIsFixed | transcribe_and_translate_dual_vtt.py:82 | stripping the already-stripped record text again changes nothing |
| Text.StripIdempotent | transcribe_and_translate_dual_vtt.py:82 | stripping twice is stripping once |
| Text.StripEmptyIffAllSpace | transcribe_and_translate_dual_vtt.py:98 | `t.strip()` is falsy exactly when `t` is all whitespace, the empty string included |
| Text.StripJoin | transcribe_and_translate_dual_vtt.py:168 | stripping the space-join of stripped pieces drops the blank pieces at both ends and keeps the interior ones with their separators |
| Text.LeadingDroppedAreBlank | transcribe_and_translate_dual_vtt.py:168 | every piece dropped from the front before joining is an empty string |
| Text.TrailingDroppedAreBlank | transcribe_and_translate_dual_vtt.py:168 | every piece dropped from the back before joining is an empty string |
| Text.JoinTrimmedEmpty | transcribe_and_translate_dual_vtt.py:168 | the trimmed join is empty exactly when every piece is empty |
| Numerals.Decimal | transcribe_and_translate_dual_vtt.py:79 | the cue number `str(i)` is a non-empty digit string with no leading zero |
| Numerals.DecimalRoundTrip | transcribe_and_translate_dual_vtt.py:79 | reading a cue number back gives the number |
| Numerals.FormatPadded | transcribe_and_translate_dual_vtt.py:60 | `{n:0Nd}` is digits, with a leading '-' for negative `n`; it is exactly N characters when the numeral and its sign fit in N, and otherwise exactly as long as the numeral and its sign |
| Numerals.FormatPaddedRoundTrip | transcribe_and_translate_dual_vtt.py:60 | `int(f"{n:0Nd}") == n` for every integer, negative ones included |
| Numerals.FormatPaddedAlphabet | transcribe_and_translate_dual_vtt.py:60 | a padded field holds only digits and '-', never ':' '.' or ',' |
| Numerals.PaddedWidth | transcribe_and_translate_dual_vtt.py:57-60 | a value below 10^N prints in exactly N characters under `0Nd` |
| Text.AsciiSpace | transcribe_and_translate_dual_vtt.py:168 | on ASCII, the characters `strip()` removes are exactly tab, line feed, vertical tab, form feed, carriage return, 0x1C-0x1F and space |
| Text.Join | transcribe_and_translate_dual_vtt.py:168 | `sep.join(parts)` is as long as all the parts together plus one separator between each two neighbouring parts |
| Text.JoinSuffix | transcribe_and_translate_dual_vtt.py:168 | the join read from the offset of part k on is the join of parts k onwards |
| Text.JoinPartAt | transcribe_and_translate_dual_vtt.py:168 | part k of `sep.join(parts)` sits unchanged at its offset: the lengths of the earlier parts, each followed by one separator |
| Text.JoinSeparatorAfter | transcribe_and_translate_dual_vtt.py:168 | right after every part but the last comes exactly one copy of the separator |
| Text.OffsetStep | transcribe_and_translate_dual_vtt.py:168 | part k + 1 starts one part and one separator after part k, so the parts and separators tile the join in order |
| Timestamp.RoundHalfEven | transcribe_and_translate_dual_vtt.py:55 | `round` gives an integer within 0.5 of its argument, and an even one on a tie |
| Timestamp.Fields | transcribe_and_translate_dual_vtt.py:55-59 | minutes and seconds lie in 0..59 and milliseconds in 0..1000 |
| Timestamp.FieldsSplitSeconds | transcribe_and_translate_dual_vtt.py:55-59 | hours, minutes and seconds recombine to `floor(seconds)`; milliseconds are the fraction times 1000 to within 0.5; hours are non-negative for non-negative input |
| Timestamp.FieldsUnique | transcribe_and_translate_dual_vtt.py:55-59 | those properties determine the fields completely |
| Timestamp.ExampleMillisecondsNotCarried | transcribe_and_translate_dual_vtt.py:55 | 0.9996 s prints as `00:00:00.1000`: a millisecond count rounded up to 1000 is not carried into the seconds |
| Timestamp.ExampleHourMinuteSecond | transcribe_and_translate_dual_vtt.py:53-60 | 3661.5 s prints as `01:01:01.500` |
| Timestamp.ExampleZero | transcribe_and_translate_dual_vtt.py:53-60 | 0 s prints as `00:00:00.000` and `00:00:00,000` |
| Timestamp.Render | transcribe_and_translate_dual_vtt.py:60 | a timestamp is never shorter than twelve characters, and is exactly `HH:MM:SS<sep>mmm` (colons at 2 and 5, separator at 8) when the hours are below 100 and the milliseconds below 1000 |
| Timestamp.FieldWidths | transcribe_and_translate_dual_vtt.py:57-60 | minutes and seconds always print in two characters; hours below 100 in two and milliseconds below 1000 in three |
| Timestamp.VttTimestamp | transcribe_and_translate_dual_vtt.py:53-60 | the VTT timestamp of a value reads back, with '.' as separator, to exactly the fields of that value |
| Timestamp.SrtTimestamp | transcribe_and_translate_dual_vtt.py:104-111 | the SRT timestamp of a value reads back, with ',' as separator, to exactly the fields of that value, and it is the VTT timestamp with every '.' replaced by ',' |
| Timestamp.RenderHourMinuteSecond | transcribe_and_translate_dual_vtt.py:60 | the fields 1 h, 1 min, 1 s, 500 ms print as `01:01:01.500` |
| Timestamp.DecodeLayout | transcribe_and_translate_dual_vtt.py:60 | the `H:MM:SS.mmm` layout can be cut back into its four fields |
| Timestamp.DecodeRender | transcribe_and_translate_dual_vtt.py:60 | every valid set of clock fields prints to a timestamp that reads back to the same fields |
| Timestamp.RenderInjective | transcribe_and_translate_dual_vtt.py:60 | two values print to the same timestamp only when their fields and whole seconds agree |
| Timestamp.SeparatorIsTheOnlyDifference | transcribe_and_translate_dual_vtt.py:104-111 | the VTT and SRT timestamps of one value both read back to its fields and differ only in one position, where VTT has '.' and SRT has ',' |
| Language.NormaliseCode | transcribe_and_translate_dual_vtt.py:62-72 | a detector failure gives ""; the result is "pt" exactly for codes starting with "pt", and "es" exactly for codes starting with "es"; any other code passes through unchanged |
| Language.NormaliseIdempotent | transcribe_and_translate_dual_vtt.py:68-72 | folding an already folded code changes nothing |
| Language.ChooseLang | transcribe_and_translate_dual_vtt.py:212-213 | when the text is empty or the detector gives no usable code, the whole-file language stands in; otherwise the detected code wins; the choice is "" exactly when nothing was detected and the whole-file language is missing or empty |
| Transcription.RequestOptions | transcribe_and_translate_dual_vtt.py:156-160 | a language goes into the request exactly when it is non-empty; the requested `task` is passed through unchanged |
| Transcription.StrippedPieces | transcribe_and_translate_dual_vtt.py:168 | one stripped piece per response entry, in order, with a missing `text` read as "" |
| Transcription.MergedText | transcribe_and_translate_dual_vtt.py:165-172 | the merged text is always stripped |
| Transcription.MergedTextCases | transcribe_and_translate_dual_vtt.py:165-172 | with entries, the text is the join of the pieces with blank ends trimmed, and it is "" exactly when every entry is blank; without entries, it is the stripped top-level `text`, or "" when that is missing |
| Pipeline.EnrichSegment | transcribe_and_translate_dual_vtt.py:206-264 | a record keeps the raw window, with the end defaulting to start + 0.5 and the start to 0; it carries the chosen language; its text is stripped; its translation is absent or non-empty and stripped, whatever the oracles answer |
| Pipeline.EnrichText | transcribe_and_translate_dual_vtt.py:215-224 | the text changes only when refinement is on, the language is "pt" or "es", extraction succeeded and the model returned non-empty text; then it is exactly that text |
| Pipeline.EnrichTranslation | transcribe_and_translate_dual_vtt.py:243-253 | a translation is present exactly when translation is on, extraction succeeded and the model returned non-empty text; then it is that text, so a translation is never "" |
| Pipeline.EnrichCalls | transcribe_and_translate_dual_vtt.py:211-251 | the detector is asked exactly when the stripped text is non-empty; refinement is requested exactly when it is on and the language is "pt" or "es"; translation is requested exactly when it is on; nothing else is asked |
| Pipeline.EnrichDependsOnlyOnCalls | transcribe_and_translate_dual_vtt.py:206-264 | two oracles that agree on the questions a step asks give the same record and calls |
| Pipeline.MapInOrder | transcribe_and_translate_dual_vtt.py:205-206 | the loop yields one result per input, in input order, each computed from its own input |
| Pipeline.MapInOrderAppend | transcribe_and_translate_dual_vtt.py:205-206 | processing two runs of segments one after the other gives the two results one after the other |
| Pipeline.EnrichedRecord | transcribe_and_translate_dual_vtt.py:207-241 | record k is the enrichment of raw segment k alone: it keeps that segment's window, is well formed, and has no translation under `--no-translate` |
| Pipeline.ProcessSegments | transcribe_and_translate_dual_vtt.py:205-264 | the loop appends exactly one record per raw segment, in order |
| Tracks.OriginalBody | transcribe_and_translate_dual_vtt.py:81-86 | an original cue body is the stripped text, preceded by `[lang] ` exactly when the language is non-empty |
| Tracks.TranslationBody | transcribe_and_translate_dual_vtt.py:97-102 | a translation cue body is the stripped translation when it has visible text, and otherwise the stripped text; it is empty only when both are blank |
| Tracks.OriginalBodyOfRecord | transcribe_and_translate_dual_vtt.py:81-86 | for a loop record, the original body is the language tag followed by the record's text |
| Tracks.TranslationBodyOfRecord | transcribe_and_translate_dual_vtt.py:97-102 | for a loop record, the translation body is the translation, falling back to the text |
| Tracks.Numbered | transcribe_and_translate_dual_vtt.py:78-79 | cues are numbered 1..N in list order, each pairing the i-th timing line with the i-th body |
| Tracks.Cues | transcribe_and_translate_dual_vtt.py:78 | a track has exactly one cue per record |
| Tracks.CueAt | transcribe_and_translate_dual_vtt.py:78-86 | cue i + 1 carries record i's timing line and body |
| Tracks.Stamp | transcribe_and_translate_dual_vtt.py:80 | a timing-line timestamp is exactly the `HH:MM:SS<sep>mmm` rendering of the value's fields with its format's separator; it reads back to those fields and holds no space |
| Tracks.ArrowLine | transcribe_and_translate_dual_vtt.py:80 | two space-free timestamps joined by ` --> ` cut back at the first space into exactly the two timestamps, which read back to their fields |
| Tracks.TimingLine | transcribe_and_translate_dual_vtt.py:80 | a timing line is the start timestamp, ` --> `, and the end timestamp: cut at its first space, the two sides are exactly the renderings of the start's and the end's fields, and read back to those fields |
| Tracks.RenderCue | transcribe_and_translate_dual_vtt.py:79-86 | a cue block is its number alone on the first line, then the timing line unchanged, a line feed, the body unchanged, and a blank line |
| Tracks.RenderCuesAppend | transcribe_and_translate_dual_vtt.py:78-86 | cue blocks are written independently, one after the other |
| Tracks.RenderCuesSplit | transcribe_and_translate_dual_vtt.py:78-86 | rendered cues are the blocks before cue i, the block of cue i, and the blocks after it |
| Tracks.NumberedLayout | transcribe_and_translate_dual_vtt.py:78-86 | rendered cues are the blocks before cue i + 1, then its block of number, timing line, body and blank line, then the blocks after it |
| Tracks.TrackLayout | transcribe_and_translate_dual_vtt.py:74-86 | every track is its header followed by the block of each record in order, with record i's timing and body in block i + 1 |
| Tracks.NumberedOpensWithOne | transcribe_and_translate_dual_vtt.py:116-117 | rendered cues are empty exactly when there are none, and otherwise open with `1\n` |
| Tracks.Track | transcribe_and_translate_dual_vtt.py:74-79 | every track opens with its format's header; it is only the header when there are no records, and otherwise cue number 1 follows the header |
| Tracks.WriteVttOriginal | transcribe_and_translate_dual_vtt.py:74-86 | `write_vtt_original` output opens with the WebVTT header, and is only the header when there are no records |
| Tracks.WriteVttTranslation | transcribe_and_translate_dual_vtt.py:88-102 | `write_vtt_translation` output opens with the WebVTT header, and is only the header when there are no records |
| Tracks.WriteSrtOriginal | transcribe_and_translate_dual_vtt.py:113-124 | `write_srt_original` output is empty exactly when there are no records, and otherwise opens with cue number 1 |
| Tracks.WriteSrtTranslation | transcribe_and_translate_dual_vtt.py:126-139 | `write_srt_translation` output is empty exactly when there are no records, and otherwise opens with cue number 1 |
| Tracks.DualTracksShareTiming | transcribe_and_translate_dual_vtt.py:78-96 | the original and translation tracks of one format (lines 78-80 against 94-96 for VTT, 116-118 against 131-133 for SRT) have the same number of cues, and cue by cue the same number and timing line |
| Tracks.SrtTimingIsVttWithComma | transcribe_and_translate_dual_vtt.py:118 | an SRT timing line is the VTT one with both '.' separators turned into ',' |
| Tracks.SrtCuesAreVttCuesWithComma | transcribe_and_translate_dual_vtt.py:113-124 | the SRT track carries the VTT track's cues, identical except for ',' in place of '.' in each timing line |

Three edge cases follow the source as written. Hours are `total_seconds // 3600` with
no bound (line 59), so 100 hours print as three digits. The milliseconds are rounded
before formatting and never carried into the seconds (lines 55 and 60), so a count
that rounds up to 1000 prints as four digits. A segment without an end ends at
start + 0.5 (line 208).

## Left out

- The language detector, ffmpeg and the speech model are not modelled. They are the
  oracle parameters of `Oracles`, so every property holds whatever they answer.
- `Language.NormaliseCode`: any exception of the detector counts as its `LangDetectException`.
  The model reads the detector's answer as `None` in that case.
- `Pipeline.EnrichSegment`: ffmpeg failure is modelled as `ExtractionFailed`, which is
  `CalledProcessError`. Any other exception, from the speech model or from ffmpeg, ends
  the whole script in the source and is not modelled.
- `Pipeline.EnrichSegment`: a `start`, `end` or `text` key that is present but holds
  `None` makes the source fail. The model reads such a key as missing.
- `Pipeline.EnrichSegment`: the `--verbose` messages, the temporary slice files and
  their removal are not modelled, because they do not affect the records.
- `Timestamp.Fields`: seconds are exact reals and not IEEE doubles. The source's
  `round((seconds - floor(seconds)) * 1000)` is computed in floating point, so it can
  land on the other side of a tie from the exact value. Python's `round` of an exact
  value is half-to-even, and that is what the model does.
- Outside the loop body, `main` is not modelled: argument parsing, the video-file check,
  loading the model, extracting the whole audio, the whole-file transcription
  (`transcribe_full_audio`), the JSON export and `--keep-audio`. Its decisions about
  which of the four tracks to write are also left out. The original tracks are always
  written, and the English ones unless `--no-translate` is given.
- File writing is left out. The writers return the text they would write, in full,
  and the model does not state the UTF-8 encoding.
- `extract_audio` and `extract_audio_segment` run ffmpeg with `check=True` (lines 41
  and 51), so a failing ffmpeg raises. The whole-file extraction is part of `main`
  outside the loop and is left out. A failing slice extraction is the slice oracle's
  `ExtractionFailed` answer; the window it was asked for is in the oracle's request.
