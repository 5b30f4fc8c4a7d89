/** What the sidecar's reader passes over: text its splitter drops, and noise it accepts around an entry. */
module SidecarLoss {
  import opened Prelude
  import opened Text
  import opened Sidecar

  /** The text after the last closed object, which no returned object holds. */
  function Dropped(rest: string, pending: string, depth: nat): string
    decreases |rest|
  {
    if rest == "" then pending
    else
      var c := rest[0];
      if c == '{' then Dropped(rest[1..], pending + [c], depth + 1)
      else if c != '}' then Dropped(rest[1..], pending + [c], depth)
      else if depth > 1 then Dropped(rest[1..], pending + [c], depth - 1)
      else Dropped(AfterComma(rest[1..]), "", 0)
  }

  /** For each returned object, whether a separator was skipped after it. */
  function Separators(rest: string, depth: nat): seq<bool>
    decreases |rest|
  {
    if rest == "" then []
    else if rest[0] == '{' then Separators(rest[1..], depth + 1)
    else if rest[0] != '}' then Separators(rest[1..], depth)
    else if depth > 1 then Separators(rest[1..], depth - 1)
    else [AfterComma(rest[1..]) != rest[1..]] + Separators(AfterComma(rest[1..]), 0)
  }

  /** Objects with the separators that followed them. */
  function Assemble(objects: seq<string>, separators: seq<bool>): string
    requires |objects| == |separators|
  {
    if objects == [] then ""
    else objects[0] + (if separators[0] then "," else "") + Assemble(objects[1..], separators[1..])
  }

  /** The objects, their separators and the dropped tail are the whole text again. */
  lemma {:induction false} SplitDropsOnlyTheTail(rest: string, pending: string, depth: nat)
    ensures |Split(rest, pending, depth)| == |Separators(rest, depth)|
    ensures Assemble(Split(rest, pending, depth), Separators(rest, depth)) + Dropped(rest, pending, depth) ==
      pending + rest
    decreases |rest|
  {
    if rest != "" {
      var c := rest[0];
      assert pending + rest == (pending + [c]) + rest[1..];
      if c == '{' {
        SplitDropsOnlyTheTail(rest[1..], pending + [c], depth + 1);
      } else if c != '}' {
        SplitDropsOnlyTheTail(rest[1..], pending + [c], depth);
      } else if depth > 1 {
        SplitDropsOnlyTheTail(rest[1..], pending + [c], depth - 1);
      } else {
        SplitDropsOnlyTheTail(AfterComma(rest[1..]), "", 0);
        ClosingReassembles(pending + [c], rest[1..], Split(AfterComma(rest[1..]), "", 0),
                           Separators(AfterComma(rest[1..]), 0), Dropped(AfterComma(rest[1..]), "", 0));
      }
    }
  }

  lemma {:induction false} ClosingReassembles(
      first: string, rest: string, objects: seq<string>, separators: seq<bool>, tail: string)
    requires |objects| == |separators| && Assemble(objects, separators) + tail == "" + AfterComma(rest)
    ensures Assemble([first] + objects, [AfterComma(rest) != rest] + separators) + tail == first + rest
  {
    var comma := if AfterComma(rest) != rest then "," else "";
    assert ([first] + objects)[1..] == objects && ([AfterComma(rest) != rest] + separators)[1..] == separators;
    CommaSkipped(rest);
    Regroup(first, comma, Assemble(objects, separators), tail);
    assert "" + AfterComma(rest) == AfterComma(rest);
  }

  lemma {:induction false} CommaSkipped(rest: string)
    ensures rest == (if AfterComma(rest) != rest then "," else "") + AfterComma(rest)
  {
  }

  lemma {:induction false} Regroup(a: string, b: string, c: string, d: string)
    ensures a + b + c + d == a + (b + (c + d))
  {
  }

  // ---- when nothing is dropped, in the text's own terms ----

  /** The brace depth after one more character; it never goes below zero. */
  function DepthAfter(c: char, depth: nat): nat {
    if c == '{' then depth + 1 else if c == '}' && depth > 0 then depth - 1 else depth
  }

  /** The brace depth after the first `n` characters. */
  function DepthAt(s: string, depth: nat, n: nat): nat
    requires n <= |s|
  {
    if n == 0 then depth else DepthAt(s[1..], DepthAfter(s[0], depth), n - 1)
  }

  /** The character at `n` is a brace that closes an outermost object. */
  predicate ClosesAt(s: string, depth: nat, n: int) {
    0 <= n < |s| && s[n] == '}' && DepthAt(s, depth, n) <= 1
  }

  /** The text ends with such a brace, or with one and a comma. */
  predicate EndsClosed(s: string, depth: nat) {
    ClosesAt(s, depth, |s| - 1) || (s != "" && s[|s| - 1] == ',' && ClosesAt(s, depth, |s| - 2))
  }

  lemma {:induction false} ClosesLater(s: string, depth: nat, n: nat)
    requires s != "" && 0 < n
    ensures ClosesAt(s, depth, n) <==> ClosesAt(s[1..], DepthAfter(s[0], depth), n - 1)
  {
  }

  /** A character that closes no outermost object does not decide how the text ends. */
  lemma {:induction false} EndsClosedLater(s: string, depth: nat)
    requires s != "" && (s[0] == '}' ==> depth > 1)
    ensures EndsClosed(s, depth) <==> EndsClosed(s[1..], DepthAfter(s[0], depth))
  {
    if |s| > 1 { ClosesLater(s, depth, |s| - 1); }
    if |s| > 2 { ClosesLater(s, depth, |s| - 2); }
  }

  /** A brace that closes one decides it only with nothing, or a comma, behind it. */
  lemma {:induction false} EndsClosedAfter(s: string, depth: nat)
    requires s != "" && s[0] == '}' && depth <= 1
    ensures EndsClosed(s, depth) <==> AfterComma(s[1..]) == "" || EndsClosed(AfterComma(s[1..]), 0)
  {
    var rest := s[1..];
    if |s| > 1 { ClosesLater(s, depth, |s| - 1); }
    if |s| > 2 { ClosesLater(s, depth, |s| - 2); }
    if rest != "" && rest[0] == ',' { EndsClosedLater(rest, 0); }
  }

  /** What is dropped is empty exactly when the text ends closed, or there is no text. */
  lemma {:induction false} DropsNothing(rest: string, pending: string, depth: nat)
    ensures Dropped(rest, pending, depth) == "" <==> (rest == "" && pending == "") || EndsClosed(rest, depth)
    decreases |rest|
  {
    if rest != "" {
      var c := rest[0];
      if c == '}' && depth <= 1 {
        EndsClosedAfter(rest, depth);
        DropsNothing(AfterComma(rest[1..]), "", 0);
      } else {
        EndsClosedLater(rest, depth);
        DropsNothing(rest[1..], pending + [c], DepthAfter(c, depth));
      }
    }
  }

  /**
   * Nothing of the array is lost exactly when it is empty or ends with a brace
   * that closes an outermost object, with at most one comma after it.
   */
  lemma {:induction false} NothingDroppedExactly(inner: string)
    ensures |Split(inner, "", 0)| == |Separators(inner, 0)|
    ensures Assemble(Split(inner, "", 0), Separators(inner, 0)) == inner <==> inner == "" || EndsClosed(inner, 0)
  {
    SplitDropsOnlyTheTail(inner, "", 0);
    DropsNothing(inner, "", 0);
    var kept, tail := Assemble(Split(inner, "", 0), Separators(inner, 0)), Dropped(inner, "", 0);
    assert kept + tail == inner && |kept| + |tail| == |inner|;
    assert tail == "" ==> kept + tail == kept;
  }

  /** An object left open at the end is dropped without a word. */
  lemma {:induction false} OpenObjectIsDropped(body: string, open: string)
    requires BraceFree(body) && BraceFree(open)
    ensures Split("{" + body + "},{" + open, "", 0) == ["{" + body + "}"]
  {
    var rest := ",{" + open;
    assert "{" + body + "}" + rest == "{" + body + "},{" + open;
    SplitObject(body, rest);
    assert AfterComma(rest) == "{" + open;
    OpenHasNone(open, "{", 1);
    assert ("{" + open)[1..] == open && "" + ['{'] == "{";
  }

  lemma {:induction false} OpenHasNone(open: string, pending: string, depth: nat)
    requires BraceFree(open)
    ensures Split(open, pending, depth) == []
    decreases |open|
  {
    SplitSkips(open, "", pending, depth);
    assert open + "" == open;
  }

  // ---- noise around an entry ----

  /** Text without braces or quotes. */
  predicate Noise(s: string) {
    BraceFree(s) && '"' !in s
  }

  /** A printed object with noise in front of it and behind its last value. */
  function Noisy(w: Wrapper, before: string, behind: string): string {
    before + ("{" + (Body(w) + behind) + "}")
  }

  /** What is left of it once its braces are trimmed. */
  function Trimmed(w: Wrapper, before: string, behind: string): string {
    (if before == "" then "" else before + "{") + (Body(w) + behind)
  }

  lemma {:induction false} TrimNoisy(w: Wrapper, before: string, behind: string)
    requires Noise(before) && Noise(behind)
    ensures TrimEnd(TrimStart(Noisy(w, before, behind), c => c == '{'), c => c == '}') == Trimmed(w, before, behind)
  {
    var inside := Body(w) + behind;
    var obj := Trimmed(w, before, behind);
    assert inside[0] == '"' && obj[|obj| - 1] == inside[|inside| - 1] != '}' by {
      var t := BoolText(w.generic);
      assert Body(w)[|Body(w)| - 1] == t[|t| - 1] == 'e';
      assert behind != "" ==> inside[|inside| - 1] == behind[|behind| - 1];
    }
    if before == "" {
      assert Noisy(w, before, behind) == "{" + (inside + "}");
      TrimStartDrops("{", inside + "}", c => c == '{');
      assert obj == inside;
    } else {
      assert before[0] in before;
      assert Noisy(w, before, behind) == obj + "}";
      assert TrimStart(obj + "}", c => c == '{') == obj + "}";
    }
    TrimEndDrops(obj, "}", c => c == '}');
  }

  lemma {:induction false} SliceAmid(front: string, s: string, behind: string, i: nat, n: nat)
    requires i + n <= |s|
    ensures (front + (s + behind))[|front| + i..][..n] == s[i..][..n]
  {
    assert (front + (s + behind))[|front|..] == s + behind;
    assert (s + behind)[i..][..n] == s[i..][..n];
  }

  /** A needle occurs amid other text where it occurs in the text itself. */
  lemma {:induction false} OccursAmid(front: string, s: string, behind: string, needle: string, i: nat)
    requires i + |needle| <= |s|
    ensures needle <= (front + (s + behind))[|front| + i..] <==> needle <= s[i..]
  {
    SliceAmid(front, s, behind, i, |needle|);
  }

  lemma {:induction false} NoneInFront(front: string, rest: string, needle: string, i: nat)
    requires '"' !in front && needle != "" && needle[0] == '"' && i < |front|
    ensures !(needle <= (front + rest)[i..])
  {
    assert (front + rest)[i..][0] == front[i] && front[i] in front;
  }

  /** Text without quotes in front, and any text behind, only move the first occurrence of a quoted needle. */
  lemma {:induction false} FirstAmid(front: string, s: string, behind: string, needle: string, k: nat)
    requires '"' !in front && needle != "" && needle[0] == '"' && FirstAt(s, needle, k)
    ensures FirstAt(front + (s + behind), needle, |front| + k)
  {
    OccursAmid(front, s, behind, needle, k);
    forall i | 0 <= i < |front| + k ensures !(needle <= (front + (s + behind))[i..]) {
      if i < |front| {
        NoneInFront(front, s + behind, needle, i);
      } else {
        OccursAmid(front, s, behind, needle, i - |front|);
      }
    }
  }

  lemma {:induction false} FindAmid(front: string, s: string, behind: string, needle: string)
    requires '"' !in front && needle != "" && needle[0] == '"' && Find(s, needle).Some?
    ensures Find(front + (s + behind), needle) == Some(|front| + Find(s, needle).value)
  {
    FindsFirst(s, needle);
    FirstAmid(front, s, behind, needle, Find(s, needle).value);
    FindFirst(front + (s + behind), needle, |front| + Find(s, needle).value);
  }

  lemma {:induction false} AfterIs(s: string, needle: string, k: nat, rest: string)
    requires Find(s, needle) == Some(k) && s[k + |needle|..] == rest
    ensures After(s, needle) == Some(rest)
  {
  }

  lemma {:induction false} AfterAmid(front: string, s: string, behind: string, needle: string)
    requires '"' !in front && needle != "" && needle[0] == '"' && After(s, needle).Some?
    ensures After(front + (s + behind), needle) == Some(After(s, needle).value + behind)
  {
    var m := Find(s, needle).value + |needle|;
    FindAmid(front, s, behind, needle);
    RestMoves(front, s, behind, m);
    AfterIs(front + (s + behind), needle, |front| + Find(s, needle).value, s[m..] + behind);
  }

  lemma {:induction false} RestMoves(front: string, s: string, behind: string, m: nat)
    requires m <= |s|
    ensures (front + (s + behind))[|front| + m..] == s[m..] + behind
  {
  }

  lemma {:induction false} BeforeExtends(s: string, behind: string, needle: string)
    requires needle != "" && needle[0] == '"' && Before(s, needle).Some?
    ensures Before(s + behind, needle) == Before(s, needle)
  {
    FindAmid("", s, behind, needle);
    assert "" + (s + behind) == s + behind;
    FrontStays(s, behind, Find(s, needle).value);
  }

  lemma {:induction false} FrontStays(s: string, behind: string, m: nat)
    requires m <= |s|
    ensures (s + behind)[..m] == s[..m]
  {
  }

  /** A string value is found in spite of noise. */
  lemma {:induction false} NoiseKeepsString(front: string, s: string, behind: string, key: string)
    requires '"' !in front && ExtractString(s, key).Some?
    ensures ExtractString(front + (s + behind), key) == ExtractString(s, key)
  {
    var needle := "\"" + key + "\":\"";
    AfterAmid(front, s, behind, needle);
    BeforeExtends(After(s, needle).value, behind, "\"");
  }

  lemma {:induction false} TrimStartExtends(s: string, behind: string, drop: char -> bool)
    requires TrimStart(s, drop) != ""
    ensures TrimStart(s + behind, drop) == TrimStart(s, drop) + behind
  {
    if drop(s[0]) {
      assert (s + behind)[1..] == s[1..] + behind;
      TrimStartExtends(s[1..], behind, drop);
    }
  }

  lemma {:induction false} ReadBoolExtends(text: string, behind: string)
    requires ReadBool(text).Some?
    ensures text != "" && ReadBool(text + behind) == ReadBool(text)
  {
    assert "true"[0] == 't' && "false"[0] == 'f';
    if StartsWith(text, "true") {
      assert (text + behind)[..4] == text[..4];
    } else {
      assert (text + behind)[..5] == text[..5] && (text + behind)[0] == 'f';
    }
  }

  /** So is a boolean. */
  lemma {:induction false} NoiseKeepsBool(front: string, s: string, behind: string, key: string, cc: CharClass)
    requires '"' !in front && ExtractBool(s, key, cc).Some?
    ensures ExtractBool(front + (s + behind), key, cc) == ExtractBool(s, key, cc)
  {
    var needle := "\"" + key + "\":";
    AfterAmid(front, s, behind, needle);
    var rest := After(s, needle).value;
    ReadBoolExtends(TrimStart(rest, cc.whitespace), behind);
    TrimStartExtends(rest, behind, cc.whitespace);
  }

  lemma {:induction false} NoisyEntry(w: Wrapper, before: string, behind: string, cc: CharClass)
    requires Lawful(cc) && IsWrapperPath(w.path, cc) && Noise(before) && Noise(behind)
    ensures ParseEntry(Noisy(w, before, behind), cc) == Ok(w)
  {
    var front := if before == "" then "" else before + "{";
    assert front + (Body(w) + behind) == Trimmed(w, before, behind);
    PathIsPlain(w.path, cc);
    TrimNoisy(w, before, behind);
    ReadPath(w);
    NoiseKeepsString(front, Body(w), behind, "path");
    ReadGeneric(w, cc);
    NoiseKeepsBool(front, Body(w), behind, "generic", cc);
  }

  lemma {:induction false} SplitNoisy(before: string, body: string)
    requires BraceFree(before) && BraceFree(body)
    ensures Split(before + ("{" + body + "}"), "", 0) == [before + ("{" + body + "}")]
  {
    SplitSkips(before, "{" + body + "}", "", 0);
    var s := "{" + body + "}";
    assert s[1..] == body + "}" && "" + before == before;
    SplitSkips(body, "}", before + ['{'], 1);
    assert (before + ['{'] + body) + ['}'] == before + ("{" + body + "}");
    assert "}"[1..] == "" && AfterComma("") == "";
    assert Split("}", before + ['{'] + body, 1) == [(before + ['{'] + body) + ['}']];
  }

  lemma {:induction false} ReadOne(read: Reader, raw: string, w: Wrapper)
    requires read(raw) == Ok(w)
    ensures ReadEach(read, [raw]) == Ok([w])
  {
    assert [raw][1..] == [] && ReadEach(read, []) == Ok([]) && [w] + [] == [w];
  }

  /**
   * The reader accepts an entry with any text without braces or quotes before its
   * object and behind its last value, so what it accepts need not be JSON.
   */
  lemma {:induction false} NoiseIsAccepted(w: Wrapper, before: string, behind: string, cc: CharClass)
    requires Lawful(cc) && IsWrapperPath(w.path, cc) && Noise(before) && Noise(behind)
    ensures Parse(OPENING + Noisy(w, before, behind) + "]}", cc) == Ok([w])
  {
    var text := Noisy(w, before, behind);
    PlainEnvelope(text, cc);
    PathIsPlain(w.path, cc);
    BodyIsBraceFree(w);
    SplitNoisy(before, Body(w) + behind);
    NoisyEntry(w, before, behind, cc);
    ReadOne(EntryReader(cc), text, w);
    ParsesAs(OPENING + text + "]}", text, [w], cc);
  }

  lemma {:induction false} PlainEnvelope(text: string, cc: CharClass)
    requires Lawful(cc)
    ensures Inner(OPENING + text + "]}", cc) == Some(text)
  {
    EnvelopeReads(text, "", "", cc);
    Unpadded(OPENING + text + "]}");
  }

  lemma {:induction false} Unpadded(s: string)
    ensures "" + s + "" == s
  {
  }

  lemma {:induction false} ParsesAs(text: string, inner: string, ws: seq<Wrapper>, cc: CharClass)
    requires Inner(text, cc) == Some(inner) && inner != "" && ParseEntries(Split(inner, "", 0), cc) == Ok(ws)
    ensures Parse(text, cc) == Ok(ws)
  {
  }
}
