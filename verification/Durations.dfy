/** Replacing every duration in a transcript by one placeholder. */
module Durations {
  import opened Prelude
  import opened Text

  /** The units, in the order they are tried. */
  const UNITS := ["ms", "µs", "us", "ns", "s", "m", "h"]

  const PLACEHOLDER := "<DUR>"

  // ---- what a duration is ----

  predicate AllDigits(s: string) {
    forall i :: 0 <= i < |s| ==> IsAsciiDigit(s[i])
  }

  /** Digits, or digits, a point and digits. */
  ghost predicate IsNumber(s: string) {
    s != "" && (AllDigits(s) || exists k: nat :: IsDecimal(s, k))
  }

  ghost predicate IsDecimal(s: string, k: nat) {
    0 < k < |s| - 1 && s[k] == '.' && AllDigits(s[..k]) && AllDigits(s[k + 1..])
  }

  predicate IsUnit(s: string) {
    s == "h" || s == "m" || s == "s" || s == "ms" || s == "us" || s == "µs" || s == "ns"
  }

  /** A number of length `j`, then a unit. */
  ghost predicate IsDurationAt(s: string, j: nat) {
    j <= |s| && IsNumber(s[..j]) && IsUnit(s[j..])
  }

  ghost predicate IsDuration(s: string) {
    exists j: nat :: IsDurationAt(s, j)
  }

  /** No letter or digit follows. */
  predicate Bounded(cc: CharClass, s: string, n: nat) {
    n >= |s| || !cc.alphanumeric(s[n])
  }

  // ---- finding one at the front of a text ----

  /** How many digits the text starts with. */
  function DigitCount(s: string): (n: nat)
    ensures n <= |s| && AllDigits(s[..n]) && (n < |s| ==> !IsAsciiDigit(s[n]))
  {
    if s == "" || !IsAsciiDigit(s[0]) then 0
    else
      var n := DigitCount(s[1..]);
      assert s[..n + 1] == [s[0]] + s[1..][..n];
      n + 1
  }

  /** The end of the first listed unit at `j` that no letter or digit follows. */
  function UnitEnd(cc: CharClass, s: string, j: nat, units: seq<string>): Option<nat>
    requires j <= |s|
  {
    if units == [] then None
    else if units[0] <= s[j..] && Bounded(cc, s, j + |units[0]|) then Some(j + |units[0]|)
    else UnitEnd(cc, s, j, units[1..])
  }

  /** Where the number at the front of the text ends, unless a point without a fraction spoils it. */
  function NumberEnd(s: string): (r: Option<nat>)
    ensures r.Some? ==> r.value <= |s|
  {
    var d := DigitCount(s);
    if d < |s| && s[d] == '.' then
      var f := DigitCount(s[d + 1..]);
      if f == 0 then None else Some(d + 1 + f)
    else Some(d)
  }

  /** The length of the duration the text starts with, if it starts with one. */
  function RunLength(cc: CharClass, s: string): Option<nat> {
    match NumberEnd(s)
    case None => None
    case Some(j) => UnitEnd(cc, s, j, UNITS)
  }

  /** An answer about a suffix, as an index of the whole. */
  function Shift(start: nat, r: Option<nat>): Option<nat> {
    match r case None => None case Some(n) => Some(start + n)
  }

  lemma {:induction false} UnitEndShift(cc: CharClass, s: string, start: nat, j: nat, units: seq<string>)
    requires start <= j <= |s|
    ensures UnitEnd(cc, s, j, units) == Shift(start, UnitEnd(cc, s[start..], j - start, units))
  {
    if units != [] {
      assert s[start..][j - start..] == s[j..];
      var after := j + |units[0]|;
      assert after < |s| ==> s[start..][after - start] == s[after];
      UnitEndShift(cc, s, start, j, units[1..]);
    }
  }

  lemma {:induction false} RunLengthShift(cc: CharClass, s: string, start: nat, j: nat)
    requires start <= j <= |s| && NumberEnd(s[start..]) == Some(j - start)
    ensures Shift(start, RunLength(cc, s[start..])) == UnitEnd(cc, s, j, UNITS)
  {
    UnitEndShift(cc, s, start, j, UNITS);
  }

  lemma {:induction false} NumberEndShift(s: string, start: nat, j: nat)
    requires start <= j <= |s| && j == start + DigitCount(s[start..])
    ensures Shift(start, NumberEnd(s[start..])) ==
      if j == |s| || s[j] != '.' then Some(j)
      else if DigitCount(s[j + 1..]) == 0 then None else Some(j + 1 + DigitCount(s[j + 1..]))
  {
    var t, d := s[start..], j - start;
    if d < |t| {
      assert t[d] == s[j];
      assert t[d + 1..] == s[j + 1..];
    }
  }

  /** `duration_run` as it runs. */
  method DurationRun(cc: CharClass, chars: string, start: nat) returns (end: Option<nat>)
    requires start <= |chars|
    ensures end == Shift(start, RunLength(cc, chars[start..]))
  {
    var j := SkipNumber(chars, start);
    if j.None? {
      return None;
    }
    RunLengthShift(cc, chars, start, j.value);
    end := FindUnit(cc, chars, j.value);
  }

  /** Its number part: the digits, and the fraction where there is a point. */
  method SkipNumber(chars: string, start: nat) returns (end: Option<nat>)
    requires start <= |chars|
    ensures end == Shift(start, NumberEnd(chars[start..]))
    ensures end.Some? ==> start <= end.value <= |chars|
  {
    var j := SkipDigits(chars, start);
    NumberEndShift(chars, start, j);
    if j < |chars| && chars[j] == '.' {
      var k := SkipDigits(chars, j + 1);
      return if k == j + 1 then None else Some(k);
    }
    end := Some(j);
  }

  /** Its unit loop. */
  method FindUnit(cc: CharClass, chars: string, j: nat) returns (end: Option<nat>)
    requires j <= |chars|
    ensures end == UnitEnd(cc, chars, j, UNITS)
  {
    assert UNITS[0..] == UNITS;
    for u := 0 to |UNITS|
      invariant UnitEnd(cc, chars, j, UNITS) == UnitEnd(cc, chars, j, UNITS[u..])
    {
      assert UNITS[u..][1..] == UNITS[u + 1..];
      var after := j + |UNITS[u]|;
      if UNITS[u] <= chars[j..] && (after >= |chars| || !cc.alphanumeric(chars[after])) {
        return Some(after);
      }
    }
    end := None;
  }

  /** One digit loop of `duration_run`. */
  method SkipDigits(chars: string, start: nat) returns (j: nat)
    requires start <= |chars|
    ensures j == start + DigitCount(chars[start..]) && j <= |chars|
  {
    j := start;
    while j < |chars| && IsAsciiDigit(chars[j])
      invariant start <= j <= |chars| && j + DigitCount(chars[j..]) == start + DigitCount(chars[start..])
    {
      assert chars[j..][1..] == chars[j + 1..];
      j := j + 1;
    }
  }

  // ---- the finder is exact ----

  lemma {:induction false} DigitCountIs(s: string, n: nat)
    requires n <= |s| && AllDigits(s[..n]) && (n < |s| ==> !IsAsciiDigit(s[n]))
    ensures DigitCount(s) == n
  {
    var m := DigitCount(s);
    assert forall i :: 0 <= i < n ==> s[..n][i] == s[i];
    assert forall i :: 0 <= i < m ==> s[..m][i] == s[i];
  }

  lemma {:induction false} NumberEndIsNumber(s: string)
    requires s != "" && IsAsciiDigit(s[0]) && NumberEnd(s).Some?
    ensures IsNumber(s[..NumberEnd(s).value])
  {
    var d := DigitCount(s);
    var x := s[..NumberEnd(s).value];
    if d < |s| && s[d] == '.' {
      var f := DigitCount(s[d + 1..]);
      assert x[..d] == s[..d] && x[d + 1..] == s[d + 1..][..f] && x[d] == '.';
      assert IsDecimal(x, d);
    }
  }

  lemma {:induction false} DecimalIsFound(s: string, j: nat, k: nat)
    requires j < |s| && IsDecimal(s[..j], k) && !IsAsciiDigit(s[j])
    ensures NumberEnd(s) == Some(j)
  {
    var x := s[..j];
    assert x[..k] == s[..k];
    assert x[k] == s[k];
    DigitCountIs(s, k);
    var rest := s[k + 1..];
    assert rest[..j - k - 1] == x[k + 1..];
    assert rest[j - k - 1] == s[j];
    DigitCountIs(rest, j - k - 1);
  }

  /** A number that no digit or point follows is the one found. */
  lemma {:induction false} NumberIsFound(s: string, j: nat)
    requires j < |s| && IsNumber(s[..j]) && !IsAsciiDigit(s[j]) && s[j] != '.'
    ensures NumberEnd(s) == Some(j)
  {
    if AllDigits(s[..j]) {
      DigitCountIs(s, j);
    } else {
      var k: nat :| IsDecimal(s[..j], k);
      DecimalIsFound(s, j, k);
    }
  }

  /** What every unit is: one or two characters, none a digit, the last of them a letter of ASCII. */
  lemma {:induction false} UnitFacts(u: string)
    requires IsUnit(u)
    ensures 1 <= |u| <= 2 && !IsAsciiDigit(u[0]) && u[0] != '.' && '<' !in u
    ensures IsAsciiAlphanumeric(u[|u| - 1]) && u[|u| - 1] < 128 as char
    ensures |u| == 1 ==> u[0] == 's' || u[0] == 'm' || u[0] == 'h'
    ensures |u| == 2 ==> u[1] == 's' && u[0] != 's' && u[0] != 'h'
  {
    assert |"ms"| == |"us"| == |"ns"| == |"µs"| == 2;
  }

  lemma {:induction false} UnitEndIsUnit(cc: CharClass, s: string, j: nat, units: seq<string>)
    requires j <= |s| && UnitEnd(cc, s, j, units).Some?
    ensures var n := UnitEnd(cc, s, j, units).value;
      j <= n <= |s| && s[j..n] in units && Bounded(cc, s, n)
  {
    if units[0] <= s[j..] && Bounded(cc, s, j + |units[0]|) {
      assert s[j..j + |units[0]|] == s[j..][..|units[0]|] == units[0];
    } else {
      UnitEndIsUnit(cc, s, j, units[1..]);
    }
  }

  /** The first unit that fits ends no later than any other that fits, and no earlier. */
  lemma {:induction false} UnitIsFound(cc: CharClass, s: string, j: nat, n: nat, units: seq<string>)
    requires Lawful(cc) && j <= n <= |s| && s[j..n] in units && Bounded(cc, s, n)
    requires forall u :: u in units ==> IsUnit(u)
    ensures UnitEnd(cc, s, j, units) == Some(n)
  {
    var u := units[0];
    UnitFacts(s[j..n]);
    UnitFacts(u);
    if u <= s[j..] && Bounded(cc, s, j + |u|) {
      assert s[j..][..|u|] == s[j..j + |u|];
      OneUnitFits(cc, s, j, n, j + |u|);
    } else {
      assert s[j..][..n - j] == s[j..n];
      UnitIsFound(cc, s, j, n, units[1..]);
    }
  }

  lemma {:induction false} OneUnitFits(cc: CharClass, s: string, j: nat, n: nat, m: nat)
    requires Lawful(cc) && j <= n <= |s| && j <= m <= |s| && IsUnit(s[j..n]) && IsUnit(s[j..m])
    requires Bounded(cc, s, n) && Bounded(cc, s, m)
    ensures n == m
  {
    UnitFacts(s[j..n]);
    UnitFacts(s[j..m]);
    assert m == j + 2 ==> s[j..m][1] == s[j + 1];
    assert n == j + 2 ==> s[j..n][1] == s[j + 1];
  }

  /** The finder's answer is the one duration the text starts with that no letter or digit follows. */
  lemma {:induction false} RunExactly(cc: CharClass, s: string, n: nat)
    requires Lawful(cc) && s != "" && IsAsciiDigit(s[0])
    ensures RunLength(cc, s) == Some(n) <==> n <= |s| && IsDuration(s[..n]) && Bounded(cc, s, n)
  {
    if RunLength(cc, s) == Some(n) {
      var j := NumberEnd(s).value;
      NumberEndIsNumber(s);
      UnitEndIsUnit(cc, s, j, UNITS);
      assert s[..n][..j] == s[..j] && s[..n][j..] == s[j..n];
      assert IsDurationAt(s[..n], j);
    }
    if n <= |s| && IsDuration(s[..n]) && Bounded(cc, s, n) {
      var j: nat :| IsDurationAt(s[..n], j);
      assert s[..n][..j] == s[..j] && s[..n][j..] == s[j..n];
      UnitFacts(s[j..n]);
      NumberIsFound(s, j);
      UnitIsFound(cc, s, j, n, UNITS);
    }
  }

  // ---- the redaction ----

  /** A duration starts here: a digit with no letter or digit before it, and a run from it. */
  predicate Starts(cc: CharClass, afterAlnum: bool, s: string) {
    !afterAlnum && s != "" && IsAsciiDigit(s[0]) && RunLength(cc, s).Some?
  }

  lemma {:induction false} RunIsDuration(cc: CharClass, s: string)
    requires Lawful(cc) && s != "" && IsAsciiDigit(s[0]) && RunLength(cc, s).Some?
    ensures var n := RunLength(cc, s).value;
      0 < n <= |s| && IsDuration(s[..n]) && Bounded(cc, s, n) && cc.alphanumeric(s[n - 1])
  {
    var n := RunLength(cc, s).value;
    RunExactly(cc, s, n);
    DurationEnds(s[..n]);
  }

  lemma {:induction false} DurationEnds(s: string)
    requires IsDuration(s)
    ensures s != "" && IsAsciiAlphanumeric(s[|s| - 1]) && s[|s| - 1] < 128 as char && '<' !in s
  {
    var j: nat :| IsDurationAt(s, j);
    UnitFacts(s[j..]);
    NumberHasNoBracket(s[..j]);
    assert s == s[..j] + s[j..];
  }

  lemma {:induction false} NumberHasNoBracket(s: string)
    requires IsNumber(s)
    ensures '<' !in s
  {
    if !AllDigits(s) {
      var k: nat :| IsDecimal(s, k);
      assert s == s[..k] + [s[k]] + s[k + 1..];
    }
  }

  /** A piece of the text: a duration, or a character that is kept. */
  datatype Piece = Duration(text: string) | Kept(c: char)

  /** The text cut into durations and kept characters. */
  function Pieces(cc: CharClass, afterAlnum: bool, s: string): seq<Piece>
    requires Lawful(cc)
    decreases |s|
  {
    if s == "" then []
    else if Starts(cc, afterAlnum, s) then
      RunIsDuration(cc, s);
      var n := RunLength(cc, s).value;
      [Duration(s[..n])] + Pieces(cc, true, s[n..])
    else [Kept(s[0])] + Pieces(cc, cc.alphanumeric(s[0]), s[1..])
  }

  function TextOf(p: Piece): string {
    match p case Duration(text) => text case Kept(c) => [c]
  }

  function OutputOf(p: Piece): string {
    match p case Duration(_) => PLACEHOLDER case Kept(c) => [c]
  }

  function Original(pieces: seq<Piece>): string {
    if pieces == [] then "" else TextOf(pieces[0]) + Original(pieces[1..])
  }

  function Rendered(pieces: seq<Piece>): string {
    if pieces == [] then "" else OutputOf(pieces[0]) + Rendered(pieces[1..])
  }

  /** The redacted text. */
  function Redact(cc: CharClass, afterAlnum: bool, s: string): string
    requires Lawful(cc)
    decreases |s|
  {
    if s == "" then ""
    else if Starts(cc, afterAlnum, s) then
      RunIsDuration(cc, s);
      PLACEHOLDER + Redact(cc, true, s[RunLength(cc, s).value..])
    else [s[0]] + Redact(cc, cc.alphanumeric(s[0]), s[1..])
  }

  /** The previous character, when there is one, is a letter or digit. */
  predicate AfterAlnum(cc: CharClass, chars: string, i: nat)
    requires i <= |chars|
  {
    i > 0 && cc.alphanumeric(chars[i - 1])
  }

  /** What is still to be written at index `i`. */
  ghost function Ahead(cc: CharClass, chars: string, i: nat): string
    requires Lawful(cc) && i <= |chars|
  {
    Redact(cc, AfterAlnum(cc, chars, i), chars[i..])
  }

  lemma {:induction false} KeepAhead(cc: CharClass, chars: string, i: nat)
    requires Lawful(cc) && i < |chars| && !Starts(cc, AfterAlnum(cc, chars, i), chars[i..])
    ensures Ahead(cc, chars, i) == [chars[i]] + Ahead(cc, chars, i + 1)
  {
    assert chars[i..][1..] == chars[i + 1..];
  }

  lemma {:induction false} RunAhead(cc: CharClass, chars: string, i: nat)
    requires Lawful(cc) && i < |chars| && Starts(cc, AfterAlnum(cc, chars, i), chars[i..])
    ensures var end := i + RunLength(cc, chars[i..]).value;
      i < end <= |chars| && Ahead(cc, chars, i) == PLACEHOLDER + Ahead(cc, chars, end)
  {
    var n := RunLength(cc, chars[i..]).value;
    RunIsDuration(cc, chars[i..]);
    assert chars[i..][n..] == chars[i + n..] && chars[i..][n - 1] == chars[i + n - 1];
  }

  lemma {:induction false} RunAheadTo(cc: CharClass, chars: string, i: nat, end: nat)
    requires Lawful(cc) && i < |chars| && !AfterAlnum(cc, chars, i) && IsAsciiDigit(chars[i])
    requires Shift(i, RunLength(cc, chars[i..])) == Some(end)
    ensures i < end <= |chars| && Ahead(cc, chars, i) == PLACEHOLDER + Ahead(cc, chars, end)
  {
    RunAhead(cc, chars, i);
  }

  /** One turn of the `redact_durations` loop: what it writes, and where it goes on. */
  method RedactTurn(cc: CharClass, chars: string, i: nat) returns (written: string, next: nat)
    requires Lawful(cc) && i < |chars|
    ensures i < next <= |chars| && Ahead(cc, chars, i) == written + Ahead(cc, chars, next)
  {
    if !AfterAlnum(cc, chars, i) && IsAsciiDigit(chars[i]) {
      var end := DurationRun(cc, chars, i);
      if end.Some? {
        RunAheadTo(cc, chars, i, end.value);
        return PLACEHOLDER, end.value;
      }
    }
    KeepAhead(cc, chars, i);
    return [chars[i]], i + 1;
  }

  /** `redact_durations` as it runs. */
  method RedactDurations(cc: CharClass, chars: string) returns (out: string)
    requires Lawful(cc)
    ensures out == Redact(cc, false, chars)
  {
    out := "";
    var i := 0;
    assert chars[0..] == chars;
    while i < |chars|
      invariant i <= |chars| && out + Ahead(cc, chars, i) == Redact(cc, false, chars)
    {
      var written, next := RedactTurn(cc, chars, i);
      Regroup(out, written, Ahead(cc, chars, next));
      out, i := out + written, next;
    }
    assert chars[i..] == "";
  }

  lemma {:induction false} Regroup(a: string, b: string, c: string)
    ensures a + (b + c) == (a + b) + c
  {
  }

  // ---- nothing else is touched ----

  /** The first piece of a text, and where the rest goes on. */
  lemma {:induction false} FirstPiece(cc: CharClass, afterAlnum: bool, s: string)
      returns (p: Piece, n: nat, after: bool)
    requires Lawful(cc) && s != ""
    ensures 0 < n <= |s| && TextOf(p) == s[..n] && (p.Duration? ==> IsDuration(p.text))
    ensures Pieces(cc, afterAlnum, s) == [p] + Pieces(cc, after, s[n..])
    ensures Redact(cc, afterAlnum, s) == OutputOf(p) + Redact(cc, after, s[n..])
  {
    if Starts(cc, afterAlnum, s) {
      RunIsDuration(cc, s);
      n, after := RunLength(cc, s).value, true;
      p := Duration(s[..n]);
    } else {
      p, n, after := Kept(s[0]), 1, cc.alphanumeric(s[0]);
    }
  }

  lemma {:induction false} OriginalCons(p: Piece, rest: seq<Piece>)
    ensures Original([p] + rest) == TextOf(p) + Original(rest)
    ensures Rendered([p] + rest) == OutputOf(p) + Rendered(rest)
  {
    assert ([p] + rest)[1..] == rest;
  }

  /** The pieces are the input, cut up. */
  lemma {:induction false} PiecesAreTheInput(cc: CharClass, afterAlnum: bool, s: string)
    requires Lawful(cc)
    ensures Original(Pieces(cc, afterAlnum, s)) == s
    decreases |s|
  {
    if s != "" {
      var p, n, after := FirstPiece(cc, afterAlnum, s);
      PiecesAreTheInput(cc, after, s[n..]);
      OriginalJoins(p, Pieces(cc, after, s[n..]), s, n);
    }
  }

  lemma {:induction false} OriginalJoins(p: Piece, rest: seq<Piece>, s: string, n: nat)
    requires n <= |s| && TextOf(p) == s[..n] && Original(rest) == s[n..]
    ensures Original([p] + rest) == s
  {
    OriginalCons(p, rest);
    assert s[..n] + s[n..] == s;
  }

  /** The output keeps every other piece in order and writes one placeholder for each duration. */
  lemma {:induction false} PiecesAreTheOutput(cc: CharClass, afterAlnum: bool, s: string)
    requires Lawful(cc)
    ensures Rendered(Pieces(cc, afterAlnum, s)) == Redact(cc, afterAlnum, s)
    decreases |s|
  {
    if s != "" {
      var p, n, after := FirstPiece(cc, afterAlnum, s);
      PiecesAreTheOutput(cc, after, s[n..]);
      OriginalCons(p, Pieces(cc, after, s[n..]));
    }
  }

  /** Only durations are replaced. */
  lemma {:induction false} ReplacedAreDurations(cc: CharClass, afterAlnum: bool, s: string, p: Piece)
    requires Lawful(cc) && p in Pieces(cc, afterAlnum, s) && p.Duration?
    ensures IsDuration(p.text)
    decreases |s|
  {
    var first, n, after := FirstPiece(cc, afterAlnum, s);
    if p != first {
      ReplacedAreDurations(cc, after, s[n..], p);
    }
  }

  /** No letter or digit ends the text before. */
  predicate AtBoundary(cc: CharClass, before: string, afterAlnum: bool) {
    if before == "" then !afterAlnum else !cc.alphanumeric(before[|before| - 1])
  }

  /** A duration that no letter or digit follows is at the front of the text. */
  ghost predicate InFront(cc: CharClass, s: string, duration: string) {
    duration <= s && IsDuration(duration) && Bounded(cc, s, |duration|)
  }

  lemma {:induction false} StartsExactly(cc: CharClass, afterAlnum: bool, s: string)
    requires Lawful(cc)
    ensures Starts(cc, afterAlnum, s) <==> !afterAlnum && exists d :: InFront(cc, s, d)
    ensures Starts(cc, afterAlnum, s) ==>
      var n := RunLength(cc, s).value; n <= |s| && InFront(cc, s, s[..n])
  {
    if Starts(cc, afterAlnum, s) {
      RunIsDuration(cc, s);
      assert InFront(cc, s, s[..RunLength(cc, s).value]);
    }
    if exists d :: InFront(cc, s, d) {
      var d :| InFront(cc, s, d);
      DurationStarts(d);
      assert s[..|d|] == d && s[0] == d[0];
      RunExactly(cc, s, |d|);
    }
  }

  lemma {:induction false} DurationStarts(d: string)
    requires IsDuration(d)
    ensures d != "" && IsAsciiDigit(d[0])
  {
    var j: nat :| IsDurationAt(d, j);
    var x := d[..j];
    if AllDigits(x) {
      assert IsAsciiDigit(x[0]);
    } else {
      var k: nat :| IsDecimal(x, k);
      assert x[..k][0] == d[0];
    }
  }

  /** The piece `k` of a text, and what comes before and from it on. */
  ghost predicate PieceFits(cc: CharClass, before: string, afterAlnum: bool, p: Piece, rest: string) {
    && (p.Duration? <==> AtBoundary(cc, before, afterAlnum) && exists d :: InFront(cc, rest, d))
    && (match p case Duration(text) => InFront(cc, rest, text) case Kept(c) => rest != "" && rest[0] == c)
  }

  /**
   * Every piece is the right one: a duration exactly where one that no letter or
   * digit follows starts after no letter or digit, and then that one; else the
   * next character.
   */
  lemma {:induction false} PiecesExactly(cc: CharClass, afterAlnum: bool, s: string, k: nat)
    requires Lawful(cc) && k < |Pieces(cc, afterAlnum, s)|
    ensures var pieces := Pieces(cc, afterAlnum, s);
      var before, rest := Original(pieces[..k]), Original(pieces[k..]);
      s == before + rest && PieceFits(cc, before, afterAlnum, pieces[k], rest)
    decreases |s|
  {
    var pieces := Pieces(cc, afterAlnum, s);
    var n, after := FirstFits(cc, afterAlnum, s);
    var tail := Pieces(cc, after, s[n..]);
    if k == 0 {
      PiecesAreTheInput(cc, afterAlnum, s);
      assert pieces[..0] == [] && pieces[0..] == pieces && "" + s == s;
    } else {
      PiecesExactly(cc, after, s[n..], k - 1);
      LaterFits(cc, afterAlnum, pieces[0], tail, s, n, after, k - 1);
      assert pieces == [pieces[0]] + tail;
    }
  }

  /** A piece that fits a text fits it with another piece in front. */
  lemma {:induction false} LaterFits(
      cc: CharClass, afterAlnum: bool, p: Piece, tail: seq<Piece>, s: string, n: nat, after: bool, k: nat)
    requires 0 < n <= |s| && TextOf(p) == s[..n] && after == cc.alphanumeric(s[n - 1]) && k < |tail|
    requires var before, rest := Original(tail[..k]), Original(tail[k..]);
      s[n..] == before + rest && PieceFits(cc, before, after, tail[k], rest)
    ensures var all := [p] + tail;
      var before, rest := Original(all[..k + 1]), Original(all[k + 1..]);
      s == before + rest && PieceFits(cc, before, afterAlnum, all[k + 1], rest)
  {
    var all := [p] + tail;
    var before, rest := Original(tail[..k]), Original(tail[k..]);
    Shifted(p, tail, k);
    OriginalCons(p, tail[..k]);
    BoundaryMoves(cc, s[..n], before, after, afterAlnum);
    assert s == s[..n] + s[n..];
    Regroup(s[..n], before, rest);
  }

  lemma {:induction false} Shifted(p: Piece, tail: seq<Piece>, k: nat)
    requires k < |tail|
    ensures ([p] + tail)[k + 1..] == tail[k..] && ([p] + tail)[..k + 1] == [p] + tail[..k]
    ensures ([p] + tail)[k + 1] == tail[k]
  {
  }

  lemma {:induction false} BoundaryMoves(cc: CharClass, first: string, before: string, after: bool, afterAlnum: bool)
    requires first != "" && after == cc.alphanumeric(first[|first| - 1])
    ensures AtBoundary(cc, first + before, afterAlnum) == AtBoundary(cc, before, after)
  {
    if before == "" { assert first + before == first; }
  }

  /** The first piece is the right one, and the boundary after it is what its last character makes it. */
  lemma {:induction false} FirstFits(cc: CharClass, afterAlnum: bool, s: string) returns (n: nat, after: bool)
    requires Lawful(cc) && Pieces(cc, afterAlnum, s) != []
    ensures 0 < n <= |s| && after == cc.alphanumeric(s[n - 1])
    ensures var p := Pieces(cc, afterAlnum, s)[0];
      && PieceFits(cc, "", afterAlnum, p, s) && TextOf(p) == s[..n]
      && Pieces(cc, afterAlnum, s) == [p] + Pieces(cc, after, s[n..])
  {
    StartsExactly(cc, afterAlnum, s);
    if Starts(cc, afterAlnum, s) {
      RunIsDuration(cc, s);
      n, after := RunLength(cc, s).value, true;
    } else {
      n, after := 1, cc.alphanumeric(s[0]);
    }
  }

  // ---- no duration is left, so redacting again changes nothing ----

  /** No duration starts anywhere in the text. */
  predicate Clean(cc: CharClass, afterAlnum: bool, s: string)
    decreases |s|
  {
    s == "" || (!Starts(cc, afterAlnum, s) && Clean(cc, cc.alphanumeric(s[0]), s[1..]))
  }

  /** A front of the output without a placeholder is a front of the input, with the same boundary. */
  lemma {:induction false} FrontIsKept(cc: CharClass, afterAlnum: bool, s: string, n: nat)
    requires Lawful(cc)
    requires var out := Redact(cc, afterAlnum, s);
      0 < n <= |out| && '<' !in out[..n] && cc.alphanumeric(out[n - 1]) && Bounded(cc, out, n)
    ensures n <= |s| && s[..n] == Redact(cc, afterAlnum, s)[..n] && Bounded(cc, s, n)
    decreases |s|
  {
    var out := Redact(cc, afterAlnum, s);
    assert out[0] == out[..n][0];
    if !Starts(cc, afterAlnum, s) {
      var next := cc.alphanumeric(s[0]);
      var rest := Redact(cc, next, s[1..]);
      assert out[..n] == [s[0]] + rest[..n - 1];
      if n > 1 {
        FrontIsKept(cc, next, s[1..], n - 1);
        assert s[..n] == [s[0]] + s[1..][..n - 1];
      } else {
        assert next && !Starts(cc, next, s[1..]);
      }
    }
  }

  /** A kept character starts no duration of the output. */
  lemma {:induction false} KeptStartsNothing(cc: CharClass, afterAlnum: bool, s: string)
    requires Lawful(cc) && s != "" && !Starts(cc, afterAlnum, s)
    ensures !Starts(cc, afterAlnum, Redact(cc, afterAlnum, s))
  {
    var out := Redact(cc, afterAlnum, s);
    assert out[0] == s[0];
    if Starts(cc, afterAlnum, out) {
      var n := RunLength(cc, out).value;
      RunIsDuration(cc, out);
      DurationEnds(out[..n]);
      FrontIsKept(cc, afterAlnum, s, n);
      RunExactly(cc, s, n);
    }
  }

  /** Clean whatever comes before. */
  predicate CleanAnyway(cc: CharClass, s: string) {
    Clean(cc, true, s) && Clean(cc, false, s)
  }

  lemma {:induction false} CleanAfterBoundary(cc: CharClass, s: string)
    requires Clean(cc, true, s) && (s != "" ==> !IsAsciiDigit(s[0]))
    ensures CleanAnyway(cc, s)
  {
  }

  lemma {:induction false} CleanCons(cc: CharClass, c: char, rest: string)
    requires !IsAsciiDigit(c) && CleanAnyway(cc, rest)
    ensures CleanAnyway(cc, [c] + rest)
  {
    assert ([c] + rest)[1..] == rest;
  }

  /** A digit-free text before a clean one. */
  lemma {:induction false} CleanPrefix(cc: CharClass, a: string, rest: string)
    requires (forall i :: 0 <= i < |a| ==> !IsAsciiDigit(a[i])) && CleanAnyway(cc, rest)
    ensures CleanAnyway(cc, a + rest)
  {
    if a == "" {
      assert a + rest == rest;
    } else {
      CleanPrefix(cc, a[1..], rest);
      CleanCons(cc, a[0], a[1..] + rest);
      assert a + rest == [a[0]] + (a[1..] + rest);
    }
  }

  lemma {:induction false} PlaceholderIsClean(cc: CharClass, afterAlnum: bool, rest: string)
    requires Clean(cc, true, rest) && (rest != "" ==> !IsAsciiDigit(rest[0]))
    ensures Clean(cc, afterAlnum, PLACEHOLDER + rest)
  {
    CleanAfterBoundary(cc, rest);
    CleanPrefix(cc, PLACEHOLDER, rest);
  }

  /** Complete: no duration is left in the output. */
  lemma {:induction false} RedactIsComplete(cc: CharClass, afterAlnum: bool, s: string)
    requires Lawful(cc)
    ensures Clean(cc, afterAlnum, Redact(cc, afterAlnum, s))
    decreases |s|
  {
    if s != "" {
      if Starts(cc, afterAlnum, s) {
        RunIsDuration(cc, s);
        var n := RunLength(cc, s).value;
        RedactIsComplete(cc, true, s[n..]);
        PlaceholderIsClean(cc, afterAlnum, Redact(cc, true, s[n..]));
      } else {
        var next := cc.alphanumeric(s[0]);
        RedactIsComplete(cc, next, s[1..]);
        KeptStartsNothing(cc, afterAlnum, s);
        assert Redact(cc, afterAlnum, s)[1..] == Redact(cc, next, s[1..]);
      }
    }
  }

  lemma {:induction false} CleanIsUntouched(cc: CharClass, afterAlnum: bool, s: string)
    requires Lawful(cc) && Clean(cc, afterAlnum, s)
    ensures Redact(cc, afterAlnum, s) == s
    decreases |s|
  {
    if s != "" {
      CleanIsUntouched(cc, cc.alphanumeric(s[0]), s[1..]);
    }
  }

  /** Idempotent: redacting twice is redacting once. */
  lemma {:induction false} RedactIsIdempotent(cc: CharClass, s: string)
    requires Lawful(cc)
    ensures Redact(cc, false, Redact(cc, false, s)) == Redact(cc, false, s)
  {
    RedactIsComplete(cc, false, s);
    CleanIsUntouched(cc, false, Redact(cc, false, s));
  }
}
