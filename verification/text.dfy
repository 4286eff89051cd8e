/**
 * The string operations the pipeline borrows from Python: `str.isspace` on one
 * character, `str.strip()` without arguments, `sep.join(parts)` and
 * `str.startswith`.
 */
module Text {

  /** Python's `str.isspace()` for a single character. */
  predicate IsSpace(c: char) {
    || ('\t' <= c <= '\r')              // tab, line feed, vertical tab, form feed, carriage return
    || ('\U{1C}' <= c <= '\U{1F}')      // file, group, record and unit separators
    || c == ' '
    || c == '\U{85}' || c == '\U{A0}' || c == '\U{1680}'
    || ('\U{2000}' <= c <= '\U{200A}')
    || c == '\U{2028}' || c == '\U{2029}' || c == '\U{202F}' || c == '\U{205F}' || c == '\U{3000}'
  }

  /** On ASCII, the whitespace characters are exactly tab, line feed, vertical tab, form feed, carriage return, the four separators 0x1C-0x1F and space. */
  lemma AsciiSpace()
    ensures forall c: char :: c < '\U{80}' ==> (IsSpace(c) <==> c in "\t\n\U{B}\U{C}\r\U{1C}\U{1D}\U{1E}\U{1F} ")
  {
  }

  predicate AllSpace(s: string) {
    forall k :: 0 <= k < |s| ==> IsSpace(s[k])
  }

  /** Neither end of `s` is whitespace: what `strip()` guarantees of its result. */
  predicate IsStripped(s: string) {
    s == [] || (!IsSpace(s[0]) && !IsSpace(s[|s| - 1]))
  }

  /** Index of the first non-whitespace character (|s| when there is none). */
  function LeftEdge(s: string): (i: nat)
    ensures i <= |s|
    ensures AllSpace(s[..i])
    ensures i < |s| ==> !IsSpace(s[i])
  {
    if s == [] || !IsSpace(s[0]) then 0
    else
      var i := 1 + LeftEdge(s[1..]);
      assert s[..i] == [s[0]] + s[1..][..i - 1];
      i
  }

  /** One past the index of the last non-whitespace character (0 when there is none). */
  function RightEdge(s: string): (j: nat)
    ensures j <= |s|
    ensures AllSpace(s[j..])
    ensures 0 < j ==> !IsSpace(s[j - 1])
  {
    if s == [] || !IsSpace(s[|s| - 1]) then |s|
    else
      var j := RightEdge(s[..|s| - 1]);
      assert s[j..] == s[..|s| - 1][j..] + [s[|s| - 1]];
      j
  }

  /** Python's `s.strip()`: `s` with leading and trailing whitespace removed. */
  function Strip(s: string): (r: string)
    ensures IsStripped(r)
    ensures |r| <= |s|
  {
    var i := LeftEdge(s);
    var t := s[i..];
    t[..RightEdge(t)]
  }

  /** What `strip()` removed is whitespace on either side of its result. */
  lemma StripDecomposes(s: string) returns (i: nat)
    ensures i + |Strip(s)| <= |s| && StripsTo(s, i, Strip(s))
  {
    i := LeftEdge(s);
    var t := s[i..];
    var j := RightEdge(t);
    assert Strip(s) == s[i..i + j];
    assert s[i + j..] == t[j..];
  }

  /** `s` is whitespace `s[..i]`, then `r`, then whitespace. */
  predicate StripsTo(s: string, i: nat, r: string)
    requires i + |r| <= |s|
  {
    s[i..i + |r|] == r && AllSpace(s[..i]) && AllSpace(s[i + |r|..])
  }

  /**
   * Any split of `s` into whitespace, a non-empty core and whitespace puts the
   * core between the two edges `strip()` finds.
   */
  lemma {:induction false} CoreBetweenEdges(s: string, i: nat, r: string)
    requires i + |r| <= |s| && r != [] && IsStripped(r) && StripsTo(s, i, r)
    ensures i == LeftEdge(s) && i + |r| == RightEdge(s)
  {
    assert s[i] == r[0] && s[i + |r| - 1] == r[|r| - 1];
  }

  /**
   * The decomposition behind `strip()` is unique: whitespace, then a stripped
   * core, then whitespace, determines the core.
   */
  lemma {:induction false} StripOfPadded(a: string, x: string, b: string)
    requires AllSpace(a) && AllSpace(b) && IsStripped(x)
    ensures Strip(a + x + b) == x
  {
    var s := a + x + b;
    var r := Strip(s);
    var i := StripDecomposes(s);
    assert s[..|a|] == a && s[|a|..|a| + |x|] == x && s[|a| + |x|..] == b;
    assert StripsTo(s, |a|, x);
    if x == [] {
      StripEmptyIffAllSpace(s);
    } else if r == [] {
      StripEmptyIffAllSpace(s);
    } else {
      CoreBetweenEdges(s, i, r);
      CoreBetweenEdges(s, |a|, x);
    }
  }

  /** A string without whitespace at either end is its own strip. */
  lemma StrippedIsFixed(t: string)
    requires IsStripped(t)
    ensures Strip(t) == t
  {
  }

  /** Stripping twice is stripping once. */
  lemma StripIdempotent(s: string)
    ensures Strip(Strip(s)) == Strip(s)
  {
  }

  /** `strip()` yields the empty string exactly when its argument is all whitespace. */
  lemma StripEmptyIffAllSpace(s: string)
    ensures Strip(s) == [] <==> AllSpace(s)
  {
  }

  /** Python's `sep.join(parts)`. */
  function Join(parts: seq<string>, sep: string): (r: string)
    ensures |r| == TotalLength(parts) + if parts == [] then 0 else (|parts| - 1) * |sep|
  {
    if |parts| == 0 then ""
    else if |parts| == 1 then parts[0]
    else parts[0] + sep + Join(parts[1..], sep)
  }

  /** The number of characters in all of `parts` together. */
  function TotalLength(parts: seq<string>): nat {
    if parts == [] then 0 else |parts[0]| + TotalLength(parts[1..])
  }

  /** Where part `k` begins in `Join(parts, sep)`: after every earlier part, each followed by `sep`. */
  function Offset(parts: seq<string>, k: nat, sep: string): nat
    requires k <= |parts|
  {
    if k == 0 then 0 else |parts[0]| + |sep| + Offset(parts[1..], k - 1, sep)
  }

  /** From the offset of part k on, `sep.join(parts)` is the join of the parts from k on. */
  lemma {:induction false} JoinSuffix(parts: seq<string>, sep: string, k: nat)
    requires k < |parts|
    ensures Offset(parts, k, sep) <= |Join(parts, sep)|
    ensures Join(parts, sep)[Offset(parts, k, sep)..] == Join(parts[k..], sep)
  {
    if k == 0 {
      assert parts[0..] == parts;
    } else {
      var rest := JoinCons(parts, sep);
      JoinSuffix(parts[1..], sep, k - 1);
      assert parts[1..][k - 1..] == parts[k..];
      var o := Offset(parts[1..], k - 1, sep);
      Tail(Join(parts, sep), parts[0] + sep, rest, o);
    }
  }

  /** Part k of `sep.join(parts)` sits at its offset. */
  lemma JoinPartAt(parts: seq<string>, sep: string, k: nat)
    requires k < |parts|
    ensures var o := Offset(parts, k, sep);
            o + |parts[k]| <= |Join(parts, sep)| && Join(parts, sep)[o..o + |parts[k]|] == parts[k]
  {
    JoinSuffix(parts, sep, k);
    var o, j := Offset(parts, k, sep), Join(parts[k..], sep);
    if |parts[k..]| >= 2 {
      var rest := JoinCons(parts[k..], sep);
      Head(j, parts[k], sep + rest);
    }
    assert j[..|parts[k]|] == parts[k];
    Within(Join(parts, sep), o, j, 0, |parts[k]|);
  }

  /** In `sep.join(parts)`, `sep` follows every part but the last. */
  lemma JoinSeparatorAfter(parts: seq<string>, sep: string, k: nat)
    requires k + 1 < |parts|
    ensures var e := Offset(parts, k, sep) + |parts[k]|;
            e + |sep| <= |Join(parts, sep)| && Join(parts, sep)[e..e + |sep|] == sep
  {
    JoinSuffix(parts, sep, k);
    var o, j := Offset(parts, k, sep), Join(parts[k..], sep);
    var rest := JoinCons(parts[k..], sep);
    Middle(j, parts[k], sep, rest);
    Within(Join(parts, sep), o, j, |parts[k]|, |parts[k]| + |sep|);
  }

  /** The next part begins right after a part and the separator that follows it. */
  lemma {:induction false} OffsetStep(parts: seq<string>, sep: string, k: nat)
    requires k + 1 < |parts|
    ensures Offset(parts, k + 1, sep) == Offset(parts, k, sep) + |parts[k]| + |sep|
  {
    if k > 0 {
      OffsetStep(parts[1..], sep, k - 1);
      assert parts[1..][k - 1] == parts[k];
    }
  }

  /** A join of two or more parts is the first part, a separator, and the join of the rest. */
  lemma JoinCons(parts: seq<string>, sep: string) returns (rest: string)
    requires |parts| >= 2
    ensures rest == Join(parts[1..], sep)
    ensures Join(parts, sep) == (parts[0] + sep) + rest && Join(parts, sep) == parts[0] + (sep + rest)
  {
    rest := Join(parts[1..], sep);
  }

  /** The middle piece of `j == a + (b + c)` sits right after `a`. */
  lemma Middle(j: string, a: string, b: string, c: string)
    requires j == a + (b + c)
    ensures j[|a|..|a| + |b|] == b
  {
    assert j[|a|..|a| + |b|] == (b + c)[..|b|];
  }

  lemma Head(j: string, a: string, b: string)
    requires j == a + b
    ensures j[..|a|] == a
  {
  }

  /** What follows `a` in `j == a + b` is `b`, from any position on. */
  lemma Tail(j: string, a: string, b: string, x: nat)
    requires j == a + b && x <= |b|
    ensures j[|a| + x..] == b[x..]
  {
  }

  /** A slice of a suffix `s[o..] == j` is the slice of `s` shifted by `o`. */
  lemma Within(s: string, o: nat, j: string, x: nat, y: nat)
    requires o <= |s| && s[o..] == j && x <= y <= |j|
    ensures o + y <= |s| && s[o + x..o + y] == j[x..y]
  {
    forall i | 0 <= i < y - x ensures s[o + x..o + y][i] == j[x..y][i] {
      assert s[o + x + i] == s[o..][x + i];
    }
  }

  /** Python's `s.startswith(prefix)`. */
  predicate StartsWith(s: string, prefix: string) {
    |prefix| <= |s| && s[..|prefix|] == prefix
  }

  /** Every element of `parts` has already been stripped. */
  predicate AllStripped(parts: seq<string>) {
    forall k :: 0 <= k < |parts| ==> IsStripped(parts[k])
  }

  /** Every element of `parts` is the empty string. */
  predicate AllEmpty(parts: seq<string>) {
    forall k :: 0 <= k < |parts| ==> parts[k] == ""
  }

  /** A list is all empty exactly when its first element is empty and the rest is all empty. */
  lemma AllEmptyCons(parts: seq<string>)
    requires parts != []
    ensures AllEmpty(parts) <==> parts[0] == "" && AllEmpty(parts[1..])
  {
    if parts[0] == "" && AllEmpty(parts[1..]) {
      forall k | 0 < k < |parts| ensures parts[k] == "" { assert parts[k] == parts[1..][k - 1]; }
    }
  }

  /** A list is all empty exactly when its last element is empty and the rest is all empty. */
  lemma AllEmptySnoc(parts: seq<string>)
    requires parts != []
    ensures AllEmpty(parts) <==> parts[|parts| - 1] == "" && AllEmpty(parts[..|parts| - 1])
  {
    if parts[|parts| - 1] == "" && AllEmpty(parts[..|parts| - 1]) {
      forall k | 0 <= k < |parts| - 1 ensures parts[k] == "" { assert parts[k] == parts[..|parts| - 1][k]; }
    }
  }

  /** `parts` without its leading empty strings. */
  function DropLeadingBlank(parts: seq<string>): (r: seq<string>)
    ensures |r| <= |parts| && r == parts[|parts| - |r|..]
    ensures r == [] <==> AllEmpty(parts)
    ensures r != [] ==> r[0] != ""
  {
    if parts != [] && parts[0] == "" then
      var r := DropLeadingBlank(parts[1..]);
      assert parts[1..][|parts| - 1 - |r|..] == parts[|parts| - |r|..];
      AllEmptyCons(parts);
      r
    else
      assert parts != [] ==> parts[0] != "" && parts[|parts| - |parts|..] == parts;
      parts
  }

  /** `parts` without its trailing empty strings. */
  function DropTrailingBlank(parts: seq<string>): (r: seq<string>)
    ensures |r| <= |parts| && r == parts[..|r|]
    ensures r == [] <==> AllEmpty(parts)
    ensures r != [] ==> r[|r| - 1] != ""
  {
    if parts != [] && parts[|parts| - 1] == "" then
      var r := DropTrailingBlank(parts[..|parts| - 1]);
      assert parts[..|parts| - 1][..|r|] == parts[..|r|];
      AllEmptySnoc(parts);
      r
    else
      assert parts[..|parts|] == parts;
      parts
  }

  /** Everything `DropLeadingBlank` removes is an empty string. */
  lemma {:induction false} LeadingDroppedAreBlank(parts: seq<string>)
    ensures AllEmpty(parts[..|parts| - |DropLeadingBlank(parts)|])
  {
    var r := DropLeadingBlank(parts);
    if parts != [] && parts[0] == "" {
      var r1 := DropLeadingBlank(parts[1..]);
      LeadingDroppedAreBlank(parts[1..]);
      assert r == r1;
      EmptyThenEmpty(parts, |parts| - |r|);
    } else {
      assert |r| == |parts|;
      assert parts[..0] == [];
    }
  }

  /** Everything `DropTrailingBlank` removes is an empty string. */
  lemma {:induction false} TrailingDroppedAreBlank(parts: seq<string>)
    ensures AllEmpty(parts[|DropTrailingBlank(parts)|..])
  {
    var r := DropTrailingBlank(parts);
    if parts != [] && parts[|parts| - 1] == "" {
      var r1 := DropTrailingBlank(parts[..|parts| - 1]);
      TrailingDroppedAreBlank(parts[..|parts| - 1]);
      assert r == r1;
      EmptyAfterEmpty(parts, |r|);
    } else {
      assert |r| == |parts|;
      assert parts[|parts|..] == [];
    }
  }

  /** An empty first element in front of an all-empty run gives an all-empty prefix. */
  lemma EmptyThenEmpty(parts: seq<string>, m: nat)
    requires 0 < m <= |parts| && parts[0] == "" && AllEmpty(parts[1..][..m - 1])
    ensures AllEmpty(parts[..m])
  {
    forall k | 0 < k < m ensures parts[..m][k] == "" { assert parts[k] == parts[1..][..m - 1][k - 1]; }
  }

  /** An all-empty run before an empty last element gives an all-empty suffix. */
  lemma EmptyAfterEmpty(parts: seq<string>, m: nat)
    requires m < |parts| && parts[|parts| - 1] == "" && AllEmpty(parts[..|parts| - 1][m..])
    ensures AllEmpty(parts[m..])
  {
    var t, u := parts[m..], parts[..|parts| - 1][m..];
    forall i | 0 <= i < |t| - 1 ensures t[i] == "" { assert t[i] == u[i]; }
    assert t[|t| - 1] == parts[|parts| - 1];
  }

  /** `parts` without the empty strings at either end; interior empty strings stay. */
  function TrimBlankEnds(parts: seq<string>): seq<string> {
    DropTrailingBlank(DropLeadingBlank(parts))
  }

  /** Joining peels off its last part as well as its first. */
  lemma {:induction false} JoinSnoc(parts: seq<string>, sep: string)
    requires |parts| >= 2
    ensures Join(parts, sep) == Join(parts[..|parts| - 1], sep) + sep + parts[|parts| - 1]
  {
    if |parts| > 2 {
      JoinSnoc(parts[1..], sep);
      assert parts[1..][..|parts| - 2] == parts[..|parts| - 1][1..];
    }
  }

  /** Leading empty parts contribute only separators, which are whitespace. */
  lemma {:induction false} JoinDropLeading(parts: seq<string>) returns (pad: string)
    ensures AllSpace(pad) && Join(parts, " ") == pad + Join(DropLeadingBlank(parts), " ")
  {
    if parts == [] || parts[0] != "" || |parts| == 1 {
      pad := "";
      NoBlankToDropAhead(parts);
    } else {
      var rest := JoinDropLeading(parts[1..]);
      pad := DropOneLeading(parts, rest);
    }
  }

  /** Without two or more parts starting with an empty one, dropping the leading blanks leaves the join as it is. */
  lemma NoBlankToDropAhead(parts: seq<string>)
    requires parts == [] || parts[0] != "" || |parts| == 1
    ensures Join(parts, " ") == "" + Join(DropLeadingBlank(parts), " ")
  {
    if parts != [] && parts[0] == "" {
      assert DropLeadingBlank(parts) == DropLeadingBlank([]) == [];
    }
  }

  /** One more empty part in front adds one space to the padding before the trimmed join. */
  lemma DropOneLeading(parts: seq<string>, rest: string) returns (pad: string)
    requires |parts| >= 2 && parts[0] == ""
    requires AllSpace(rest) && Join(parts[1..], " ") == rest + Join(DropLeadingBlank(parts[1..]), " ")
    ensures AllSpace(pad) && Join(parts, " ") == pad + Join(DropLeadingBlank(parts), " ")
  {
    assert DropLeadingBlank(parts) == DropLeadingBlank(parts[1..]);
    JoinEmptyHead(parts, " ");
    pad := SpaceBefore(rest, Join(DropLeadingBlank(parts), " "), Join(parts[1..], " "));
  }

  /** A join whose first part is empty is the separator followed by the join of the rest. */
  lemma JoinEmptyHead(parts: seq<string>, sep: string)
    requires |parts| >= 2 && parts[0] == ""
    ensures Join(parts, sep) == sep + Join(parts[1..], sep)
  {
    assert Join(parts, sep) == "" + sep + Join(parts[1..], sep);
  }

  /** One more space in front of whitespace padding is still whitespace padding. */
  lemma SpaceBefore(rest: string, tail: string, joined: string) returns (pad: string)
    requires AllSpace(rest) && joined == rest + tail
    ensures AllSpace(pad) && " " + joined == pad + tail
  {
    pad := " " + rest;
    forall k | 0 < k < |pad| ensures IsSpace(pad[k]) { assert pad[k] == rest[k - 1]; }
    assert " " + (rest + tail) == pad + tail;
  }

  /** One more space after whitespace padding is still whitespace padding. */
  lemma SpaceAfter(rest: string, head: string, joined: string) returns (pad: string)
    requires AllSpace(rest) && joined == head + rest
    ensures AllSpace(pad) && joined + " " == head + pad
  {
    pad := rest + " ";
    forall k | 0 <= k < |rest| ensures IsSpace(pad[k]) { assert pad[k] == rest[k]; }
    assert (head + rest) + " " == head + pad;
  }

  /** A join whose last part is empty is the join of the others followed by the separator. */
  lemma JoinEmptyLast(parts: seq<string>, sep: string)
    requires |parts| >= 2 && parts[|parts| - 1] == ""
    ensures Join(parts, sep) == Join(parts[..|parts| - 1], sep) + sep
  {
    JoinSnoc(parts, sep);
    assert Join(parts[..|parts| - 1], sep) + sep + "" == Join(parts[..|parts| - 1], sep) + sep;
  }

  /** Trailing empty parts contribute only separators, which are whitespace. */
  lemma {:induction false} JoinDropTrailing(parts: seq<string>) returns (pad: string)
    ensures AllSpace(pad) && Join(parts, " ") == Join(DropTrailingBlank(parts), " ") + pad
  {
    var n := |parts|;
    if parts == [] || parts[n - 1] != "" || n == 1 {
      pad := "";
      NoBlankToDropBehind(parts);
    } else {
      var rest := JoinDropTrailing(parts[..n - 1]);
      pad := DropOneTrailing(parts, rest);
    }
  }

  /** Without two or more parts ending with an empty one, dropping the trailing blanks leaves the join as it is. */
  lemma NoBlankToDropBehind(parts: seq<string>)
    requires parts == [] || parts[|parts| - 1] != "" || |parts| == 1
    ensures Join(parts, " ") == Join(DropTrailingBlank(parts), " ") + ""
  {
    if parts != [] && parts[|parts| - 1] == "" {
      assert parts[..0] == [];
      assert DropTrailingBlank(parts) == DropTrailingBlank([]) == [];
    }
  }

  /** One more empty part behind adds one space to the padding after the trimmed join. */
  lemma DropOneTrailing(parts: seq<string>, rest: string) returns (pad: string)
    requires |parts| >= 2 && parts[|parts| - 1] == ""
    requires AllSpace(rest)
    requires Join(parts[..|parts| - 1], " ") == Join(DropTrailingBlank(parts[..|parts| - 1]), " ") + rest
    ensures AllSpace(pad) && Join(parts, " ") == Join(DropTrailingBlank(parts), " ") + pad
  {
    assert DropTrailingBlank(parts) == DropTrailingBlank(parts[..|parts| - 1]);
    JoinEmptyLast(parts, " ");
    pad := SpaceAfter(rest, Join(DropTrailingBlank(parts), " "), Join(parts[..|parts| - 1], " "));
  }

  /** A join starts with its first part and ends with its last. */
  lemma JoinEnds(parts: seq<string>, sep: string)
    requires parts != []
    ensures Join(parts, sep)[..|parts[0]|] == parts[0]
    ensures var j, last := Join(parts, sep), parts[|parts| - 1];
            |last| <= |j| && j[|j| - |last|..] == last
  {
  }

  /** Stripped parts with non-empty ends join to a stripped string. */
  lemma JoinOfStrippedIsStripped(parts: seq<string>)
    requires AllStripped(parts)
    requires parts != [] ==> parts[0] != "" && parts[|parts| - 1] != ""
    ensures IsStripped(Join(parts, " "))
  {
    if parts != [] {
      JoinEnds(parts, " ");
      var j, first, last := Join(parts, " "), parts[0], parts[|parts| - 1];
      assert IsStripped(first) && IsStripped(last);
      assert j[0] == j[..|first|][0] == first[0];
      assert j[|j| - 1] == j[|j| - |last|..][|last| - 1] == last[|last| - 1];
    }
  }

  /** Trimming keeps stripped parts stripped and leaves non-empty parts at both ends. */
  lemma TrimBlankEndsShape(parts: seq<string>)
    requires AllStripped(parts)
    ensures AllStripped(TrimBlankEnds(parts))
    ensures TrimBlankEnds(parts) != [] ==> TrimBlankEnds(parts)[0] != ""
    ensures TrimBlankEnds(parts) != [] ==> TrimBlankEnds(parts)[|TrimBlankEnds(parts)| - 1] != ""
  {
    var inner := DropLeadingBlank(parts);
    var r := DropTrailingBlank(inner);
    StrippedSlice(parts, |parts| - |inner|, |parts|);
    StrippedSlice(inner, 0, |r|);
    assert r != [] ==> r[0] == inner[0];
  }

  /** Any slice of a list of stripped strings is a list of stripped strings. */
  lemma StrippedSlice(parts: seq<string>, i: nat, j: nat)
    requires AllStripped(parts) && i <= j <= |parts|
    ensures AllStripped(parts[i..j])
  {
    forall k | 0 <= k < j - i ensures IsStripped(parts[i..j][k]) { assert parts[i..j][k] == parts[i + k]; }
  }

  /**
   * Stripping a space-joined list of stripped parts removes exactly the
   * empty parts at either end; empty parts in the middle keep their
   * separators.
   */
  lemma StripJoin(parts: seq<string>)
    requires AllStripped(parts)
    ensures Strip(Join(parts, " ")) == Join(TrimBlankEnds(parts), " ")
  {
    var lead, trail := JoinAroundTrimmed(parts);
    TrimBlankEndsShape(parts);
    JoinOfStrippedIsStripped(TrimBlankEnds(parts));
    StripOfPadded(lead, Join(TrimBlankEnds(parts), " "), trail);
  }

  /** A space-joined list is its trimmed join with whitespace on either side. */
  lemma JoinAroundTrimmed(parts: seq<string>) returns (lead: string, trail: string)
    ensures AllSpace(lead) && AllSpace(trail)
    ensures Join(parts, " ") == lead + Join(TrimBlankEnds(parts), " ") + trail
  {
    lead := JoinDropLeading(parts);
    var inner := DropLeadingBlank(parts);
    trail := JoinDropTrailing(inner);
    var j := Join(DropTrailingBlank(inner), " ");
    assert TrimBlankEnds(parts) == DropTrailingBlank(inner);
    Regroup(lead, j, trail);
  }

  lemma Regroup(a: string, b: string, c: string)
    ensures a + (b + c) == a + b + c
  {
  }

  /** A list of parts trimmed of empty ends joins to "" exactly when every part is empty. */
  lemma JoinTrimmedEmpty(parts: seq<string>)
    ensures Join(TrimBlankEnds(parts), " ") == "" <==> AllEmpty(parts)
  {
  }
}
