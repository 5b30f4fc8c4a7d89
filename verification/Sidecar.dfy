/**
 * The hand-written reader of the FFI wrapper sidecar.
 *
 * A brace-depth splitter and two needle searches, read against the one-line
 * shape the emitter documents.
 */
module Sidecar {
  import opened Prelude
  import opened Text

  datatype Wrapper = Wrapper(path: string, generic: bool)

  datatype Malformed = NoEnvelope | NoPath | NoGeneric | OutsideFfi | IllegalCharacter

  const OPENING := "{\"wrappers\":["
  const FFI_ROOT := "crate::ffi::"

  // ---- reading ----

  function Trim(text: string, cc: CharClass): string {
    TrimEnd(TrimStart(text, cc.whitespace), cc.whitespace)
  }

  /** What the outer envelope holds. */
  function Inner(text: string, cc: CharClass): Option<string> {
    var t := Trim(text, cc);
    if !StartsWith(t, OPENING) then None
    else
      var s := t[|OPENING|..];
      if EndsWith(s, "]}\n") then Some(s[..|s| - 3])
      else if EndsWith(s, "]}") then Some(s[..|s| - 2])
      else if EndsWith(s, "]}\r\n") then Some(s[..|s| - 4])
      else None
  }

  /** The objects of `rest`, given the text since the last object and the brace depth there. */
  function Split(rest: string, pending: string, depth: nat): seq<string>
    decreases |rest|
  {
    if rest == "" then []
    else
      var c := rest[0];
      if c == '{' then Split(rest[1..], pending + [c], depth + 1)
      else if c == '}' then
        if depth <= 1 then [pending + [c]] + Split(AfterComma(rest[1..]), "", 0)
        else Split(rest[1..], pending + [c], depth - 1)
      else Split(rest[1..], pending + [c], depth)
  }

  function AfterComma(s: string): (r: string)
    ensures |r| <= |s|
  {
    if s != "" && s[0] == ',' then s[1..] else s
  }

  /** What follows the first occurrence. */
  function After(s: string, needle: string): Option<string> {
    match Find(s, needle) case None => None case Some(k) => Some(s[k + |needle|..])
  }

  /** What comes before the first occurrence. */
  function Before(s: string, needle: string): Option<string> {
    match Find(s, needle) case None => None case Some(k) => Some(s[..k])
  }

  function ExtractString(obj: string, key: string): Option<string> {
    match After(obj, "\"" + key + "\":\"") case None => None case Some(rest) => Before(rest, "\"")
  }

  function ReadBool(text: string): Option<bool> {
    if StartsWith(text, "true") then Some(true) else if StartsWith(text, "false") then Some(false) else None
  }

  function ExtractBool(obj: string, key: string, cc: CharClass): Option<bool> {
    match After(obj, "\"" + key + "\":")
    case None => None
    case Some(rest) => ReadBool(TrimStart(rest, cc.whitespace))
  }

  /** A path below the FFI root, made of alphanumerics, `_` and `:`. */
  predicate IsWrapperPath(path: string, cc: CharClass) {
    StartsWith(path, FFI_ROOT) && forall i :: 0 <= i < |path| ==>
      cc.alphanumeric(path[i]) || path[i] == '_' || path[i] == ':'
  }

  function ParseEntry(raw: string, cc: CharClass): (r: Result<Wrapper, Malformed>)
    ensures r.Ok? ==> IsWrapperPath(r.value.path, cc)
  {
    var obj := TrimEnd(TrimStart(raw, c => c == '{'), c => c == '}');
    match ExtractString(obj, "path")
    case None => Err(NoPath)
    case Some(path) =>
      match ExtractBool(obj, "generic", cc)
      case None => Err(NoGeneric)
      case Some(generic) =>
        if !StartsWith(path, FFI_ROOT) then Err(OutsideFfi)
        else if exists i :: 0 <= i < |path| && !cc.alphanumeric(path[i]) && path[i] != '_' && path[i] != ':' then
          Err(IllegalCharacter)
        else Ok(Wrapper(path, generic))
  }

  type Reader = string -> Result<Wrapper, Malformed>

  function EntryReader(cc: CharClass): Reader {
    raw => ParseEntry(raw, cc)
  }

  /** Every raw object in order, or the first refusal. */
  function ReadEach(read: Reader, raws: seq<string>): (r: Result<seq<Wrapper>, Malformed>)
    ensures r.Ok? ==> |r.value| == |raws| && forall i :: 0 <= i < |raws| ==> read(raws[i]) == Ok(r.value[i])
  {
    if raws == [] then Ok([])
    else
      var first :- read(raws[0]);
      var rest :- ReadEach(read, raws[1..]);
      Ok([first] + rest)
  }

  function ParseEntries(raws: seq<string>, cc: CharClass): Result<seq<Wrapper>, Malformed> {
    ReadEach(EntryReader(cc), raws)
  }

  function Parse(text: string, cc: CharClass): (r: Result<seq<Wrapper>, Malformed>)
    ensures r.Ok? ==> forall i :: 0 <= i < |r.value| ==> IsWrapperPath(r.value[i].path, cc)
  {
    match Inner(text, cc)
    case None => Err(NoEnvelope)
    case Some(inner) => if inner == "" then Ok([]) else ParseEntries(Split(inner, "", 0), cc)
  }

  // ---- the documented shape ----

  function BoolText(b: bool): string { if b then "true" else "false" }

  function Body(w: Wrapper): string {
    "\"path\":\"" + w.path + "\",\"generic\":" + BoolText(w.generic)
  }

  function Object(w: Wrapper): string { "{" + Body(w) + "}" }

  function Objects(ws: seq<Wrapper>): string {
    if ws == [] then "" else if |ws| == 1 then Object(ws[0]) else Object(ws[0]) + "," + Objects(ws[1..])
  }

  /** The sidecar as the emitter writes it. */
  function Print(ws: seq<Wrapper>): string {
    OPENING + Objects(ws) + "]}"
  }

  // ---- splitting what was joined ----

  predicate BraceFree(s: string) {
    '{' !in s && '}' !in s
  }

  lemma {:induction false} SplitSkips(a: string, rest: string, pending: string, depth: nat)
    requires BraceFree(a)
    ensures Split(a + rest, pending, depth) == Split(rest, pending + a, depth)
  {
    if a == "" {
      assert a + rest == rest && pending + a == pending;
    } else {
      assert a[0] in a;
      assert (a + rest)[1..] == a[1..] + rest;
      assert (pending + [a[0]]) + a[1..] == pending + a;
      SplitSkips(a[1..], rest, pending + [a[0]], depth);
    }
  }

  lemma {:induction false} SplitObject(body: string, rest: string)
    requires BraceFree(body)
    ensures Split("{" + body + "}" + rest, "", 0) == ["{" + body + "}"] + Split(AfterComma(rest), "", 0)
  {
    var s := "{" + body + "}" + rest;
    assert s[0] == '{' && s[1..] == body + ("}" + rest);
    assert "" + [s[0]] == "{";
    assert Split(s, "", 0) == Split(body + ("}" + rest), "{", 1);
    SplitSkips(body, "}" + rest, "{", 1);
    assert ("}" + rest)[1..] == rest;
    assert ("{" + body) + ['}'] == "{" + body + "}";
  }

  function RawObjects(ws: seq<Wrapper>): seq<string> {
    if ws == [] then [] else [Object(ws[0])] + RawObjects(ws[1..])
  }

  ghost predicate WellPathed(ws: seq<Wrapper>, cc: CharClass) {
    forall i :: 0 <= i < |ws| ==> IsWrapperPath(ws[i].path, cc)
  }

  lemma {:induction false} PathIsPlain(path: string, cc: CharClass)
    requires Lawful(cc) && IsWrapperPath(path, cc)
    ensures BraceFree(path) && '"' !in path && |path| >= |FFI_ROOT| && path[0] == 'c'
  {
    assert path[0] == FFI_ROOT[0];
  }

  lemma {:induction false} SplitJoined(ws: seq<Wrapper>, cc: CharClass)
    requires Lawful(cc) && WellPathed(ws, cc)
    ensures Split(Objects(ws), "", 0) == RawObjects(ws)
  {
    if ws != [] {
      SplitJoined(ws[1..], cc);
      PathIsPlain(ws[0].path, cc);
      SplitFirst(ws);
    }
  }

  lemma {:induction false} SplitFirst(ws: seq<Wrapper>)
    requires ws != [] && BraceFree(ws[0].path)
    ensures Split(Objects(ws), "", 0) == [Object(ws[0])] + Split(Objects(ws[1..]), "", 0)
  {
    BodyIsBraceFree(ws[0]);
    SplitHead(Body(ws[0]), Objects(ws[1..]), |ws| == 1);
  }

  lemma {:induction false} SplitHead(body: string, tail: string, last: bool)
    requires BraceFree(body) && (last ==> tail == "")
    ensures Split(if last then "{" + body + "}" else "{" + body + "}" + "," + tail, "", 0)
         == ["{" + body + "}"] + Split(tail, "", 0)
  {
    var rest := if last then "" else "," + tail;
    SplitObject(body, rest);
    if last {
      assert "{" + body + "}" + "" == "{" + body + "}";
    } else {
      assert "{" + body + "}" + ("," + tail) == "{" + body + "}" + "," + tail;
      assert rest[1..] == tail;
    }
  }

  lemma {:induction false} BodyIsBraceFree(w: Wrapper)
    requires BraceFree(w.path)
    ensures BraceFree(Body(w))
  {
    assert BraceFree("\"path\":\"") && BraceFree("\",\"generic\":") && BraceFree("true") && BraceFree("false");
  }

  // ---- reading one printed object ----

  lemma {:induction false} TrimObject(w: Wrapper)
    ensures TrimEnd(TrimStart(Object(w), c => c == '{'), c => c == '}') == Body(w)
  {
    var body := Body(w);
    assert body[0] == '"';
    assert body[|body| - 1] == 'e' by {
      var t := BoolText(w.generic);
      assert body[|body| - 1] == t[|t| - 1];
    }
    assert Object(w) == "{" + (body + "}");
    TrimStartDrops("{", body + "}", c => c == '{');
    TrimEndDrops(body, "}", c => c == '}');
  }

  /** A quoted value at the front of an object is read back up to its closing quote. */
  lemma {:induction false} ExtractFirst(obj: string, key: string, value: string, after: string)
    requires obj == ("\"" + key + "\":\"") + (value + after)
    requires '"' !in value && after != "" && after[0] == '"'
    ensures ExtractString(obj, key) == Some(value)
  {
    var needle := "\"" + key + "\":\"";
    assert obj[0..] == obj;
    FindFirst(obj, needle, 0);
    var rest := obj[|needle|..];
    assert rest == value + after;
    forall i | 0 <= i < |value| ensures !("\"" <= rest[i..]) {
      assert rest[i..][0] == value[i];
    }
    assert rest[|value|..] == after;
    FindFirst(rest, "\"", |value|);
    assert rest[..|value|] == value;
  }

  lemma {:induction false} ReadPath(w: Wrapper)
    requires '"' !in w.path
    ensures ExtractString(Body(w), "path") == Some(w.path)
  {
    ExtractFirst(Body(w), "path", w.path, "\",\"generic\":" + BoolText(w.generic));
  }

  /** A needle that starts with a quote is found after text none of whose quotes starts it. */
  lemma {:induction false} FindQuoted(obj: string, before: string, needle: string, value: string)
    requires obj == before + (needle + value) && |needle| >= 2 && needle[0] == '"'
    requires forall i :: 0 <= i < |before| && before[i] == '"' ==> obj[i + 1] != needle[1]
    ensures Find(obj, needle) == Some(|before|) && obj[|before| + |needle|..] == value
  {
    forall i | 0 <= i < |before| ensures !(needle <= obj[i..]) {
      assert obj[i] == before[i];
      assert obj[i..][0] == obj[i] && obj[i..][1] == obj[i + 1];
    }
    assert obj[|before|..] == needle + value;
    FindFirst(obj, needle, |before|);
  }

  lemma {:induction false} BoolReads(b: bool, cc: CharClass)
    requires Lawful(cc)
    ensures TrimStart(BoolText(b), cc.whitespace) == BoolText(b)
    ensures StartsWith(BoolText(b), "true") <==> b
    ensures StartsWith(BoolText(b), "false") <==> !b
  {
    var value := BoolText(b);
    assert value[0] == (if b then 't' else 'f');
    assert "true"[0] == 't' && "false"[0] == 'f';
  }

  lemma {:induction false} KeyIsFound(w: Wrapper)
    requires '"' !in w.path && w.path != "" && w.path[0] == 'c'
    ensures var needle := "\"generic\":";
      && Find(Body(w), needle).Some? && Find(Body(w), needle).value + |needle| <= |Body(w)|
      && Body(w)[Find(Body(w), needle).value + |needle|..] == BoolText(w.generic)
  {
    var before := "\"path\":\"" + w.path + "\",";
    var needle := "\"generic\":";
    forall i | 0 <= i < |before| && before[i] == '"' ensures Body(w)[i + 1] != 'g' {
      NoEarlierKey(w.path, i);
      assert Body(w) == (before + "\"") + ("generic\":" + BoolText(w.generic));
    }
    FindQuoted(Body(w), before, needle, BoolText(w.generic));
  }

  lemma {:induction false} ReadGeneric(w: Wrapper, cc: CharClass)
    requires Lawful(cc) && '"' !in w.path && w.path != "" && w.path[0] == 'c'
    ensures ExtractBool(Body(w), "generic", cc) == Some(w.generic)
  {
    KeyIsFound(w);
    assert "\"" + "generic" + "\":" == "\"generic\":";
    BoolReads(w.generic, cc);
  }

  /** No quote before the second key opens a key spelled `g…`. */
  lemma {:induction false} NoEarlierKey(path: string, i: nat)
    requires '"' !in path && path != "" && path[0] == 'c'
    requires i < |"\"path\":\"" + path + "\","|
    ensures var s := "\"path\":\"" + path + "\",\"";
      s[i] == '"' ==> s[i + 1] != 'g'
  {
    var s := "\"path\":\"" + path + "\",\"";
    assert s[..8] == "\"path\":\"" && s[8] == path[0];
    if 8 <= i < 8 + |path| { assert s[i] == path[i - 8]; }
    assert s[8 + |path|..] == "\",\"";
  }

  lemma {:induction false} ReadObject(w: Wrapper, cc: CharClass)
    requires Lawful(cc) && IsWrapperPath(w.path, cc)
    ensures ParseEntry(Object(w), cc) == Ok(w)
  {
    PathIsPlain(w.path, cc);
    TrimObject(w);
    ReadPath(w);
    ReadGeneric(w, cc);
  }

  lemma {:induction false} ReadObjects(ws: seq<Wrapper>, cc: CharClass)
    requires Lawful(cc) && WellPathed(ws, cc)
    ensures ParseEntries(RawObjects(ws), cc) == Ok(ws)
  {
    RawObjectsAre(ws);
    forall i | 0 <= i < |ws| ensures EntryReader(cc)(RawObjects(ws)[i]) == Ok(ws[i]) { ReadObject(ws[i], cc); }
    ReadEachExactly(EntryReader(cc), RawObjects(ws), ws);
  }

  lemma {:induction false} RawObjectsAre(ws: seq<Wrapper>)
    ensures |RawObjects(ws)| == |ws| && forall i :: 0 <= i < |ws| ==> RawObjects(ws)[i] == Object(ws[i])
  {
    if ws != [] { RawObjectsAre(ws[1..]); }
  }

  /** The list is read exactly when each object is, in order. */
  lemma {:induction false} ReadEachExactly(read: Reader, raws: seq<string>, ws: seq<Wrapper>)
    ensures ReadEach(read, raws) == Ok(ws) <==>
      |raws| == |ws| && forall i :: 0 <= i < |raws| ==> read(raws[i]) == Ok(ws[i])
  {
    if raws != [] && |raws| == |ws| {
      ReadEachExactly(read, raws[1..], ws[1..]);
      assert ws == [ws[0]] + ws[1..];
      assert (forall i :: 0 <= i < |raws| ==> read(raws[i]) == Ok(ws[i])) <==>
        read(raws[0]) == Ok(ws[0]) && forall i :: 0 <= i < |raws[1..]| ==> read(raws[1..][i]) == Ok(ws[1..][i]) by {
        assert forall i :: 0 < i < |raws| ==> raws[i] == raws[1..][i - 1] && ws[i] == ws[1..][i - 1];
      }
    }
  }

  /** The printed envelope is recognised, whatever white space surrounds it. */
  lemma {:induction false} EnvelopeReads(objects: string, lead: string, trail: string, cc: CharClass)
    requires Lawful(cc)
    requires forall i :: 0 <= i < |lead| ==> cc.whitespace(lead[i])
    requires forall i :: 0 <= i < |trail| ==> cc.whitespace(trail[i])
    ensures Inner(lead + (OPENING + objects + "]}") + trail, cc) == Some(objects)
  {
    var text := OPENING + objects + "]}";
    assert text[0] == OPENING[0] == '{' && text[|text| - 1] == '}';
    assert lead + text + trail == lead + (text + trail);
    TrimStartDrops(lead, text + trail, cc.whitespace);
    TrimEndDrops(text, trail, cc.whitespace);
    var s := text[|OPENING|..];
    assert s == objects + "]}";
    assert s[|s| - 2..] == "]}" && s[..|s| - 2] == objects;
    assert |s| >= 3 ==> s[|s| - 3..][2] == '}' && "]}\n"[2] == '\n';
  }

  /** Reading what the emitter writes gives the wrappers back, whatever white space surrounds it. */
  lemma {:induction false} RoundTrip(ws: seq<Wrapper>, lead: string, trail: string, cc: CharClass)
    requires Lawful(cc) && WellPathed(ws, cc)
    requires forall i :: 0 <= i < |lead| ==> cc.whitespace(lead[i])
    requires forall i :: 0 <= i < |trail| ==> cc.whitespace(trail[i])
    ensures Parse(lead + Print(ws) + trail, cc) == Ok(ws)
  {
    EnvelopeReads(Objects(ws), lead, trail, cc);
    SplitJoined(ws, cc);
    ReadObjects(ws, cc);
    if ws != [] { assert Objects(ws)[0] == '{'; }
  }

  // ---- when the reader accepts nothing at all ----

  /** Open braces minus close braces. */
  function Braces(s: string): int {
    if s == "" then 0 else Braces(s[..|s| - 1]) + if s[|s| - 1] == '{' then 1 else if s[|s| - 1] == '}' then -1 else 0
  }

  lemma {:induction false} BracesCons(c: char, s: string)
    ensures Braces([c] + s) == Braces([c]) + Braces(s)
  {
    if s == "" {
      assert [c] + s == [c];
    } else {
      assert ([c] + s)[..|s|] == [c] + s[..|s| - 1];
      BracesCons(c, s[..|s| - 1]);
    }
  }

  /** No close brace of `s` brings the depth back to zero. */
  ghost predicate NeverClosed(s: string, depth: int) {
    forall i :: 0 <= i < |s| && s[i] == '}' ==> depth + Braces(s[..i + 1]) >= 1
  }

  lemma {:induction false} NeverClosedStep(s: string, depth: int)
    requires s != ""
    ensures NeverClosed(s, depth) <==> (s[0] == '}' ==> depth >= 2) && NeverClosed(s[1..], depth + Braces([s[0]]))
  {
    assert Braces([s[0]]) == Braces([s[0]][..0]) + if s[0] == '{' then 1 else if s[0] == '}' then -1 else 0;
    forall i | 0 <= i < |s| ensures Braces(s[..i + 1]) == Braces([s[0]]) + Braces(s[1..][..i]) {
      assert s[..i + 1] == [s[0]] + s[1..][..i];
      BracesCons(s[0], s[1..][..i]);
    }
    assert s[1..][..0] == "";
    forall i | 1 <= i < |s| ensures s[i] == s[1..][i - 1] { }
    if NeverClosed(s, depth) {
      forall i | 0 <= i < |s[1..]| && s[1..][i] == '}' ensures depth + Braces([s[0]]) + Braces(s[1..][..i + 1]) >= 1 {
        assert s[i + 1] == '}';
      }
    }
  }

  lemma {:induction false} SplitsToNothing(rest: string, pending: string, depth: nat)
    ensures Split(rest, pending, depth) == [] <==> NeverClosed(rest, depth)
    decreases |rest|
  {
    if rest != "" {
      NeverClosedStep(rest, depth);
      assert Braces([rest[0]]) ==
        Braces([rest[0]][..0]) + if rest[0] == '{' then 1 else if rest[0] == '}' then -1 else 0;
      if rest[0] == '{' {
        SplitsToNothing(rest[1..], pending + [rest[0]], depth + 1);
      } else if rest[0] != '}' {
        SplitsToNothing(rest[1..], pending + [rest[0]], depth);
      } else if depth > 1 {
        SplitsToNothing(rest[1..], pending + [rest[0]], depth - 1);
      }
    }
  }

  // ---- the envelope, on the text ----

  predicate AllWhite(s: string, cc: CharClass) {
    forall i :: 0 <= i < |s| ==> cc.whitespace(s[i])
  }

  predicate IsEnding(s: string) { s == "]}" || s == "]}\n" || s == "]}\r\n" }

  /** The text is `inner` in its envelope, one of the three endings last, and white space around it. */
  predicate EnvelopedAs(text: string, lead: string, inner: string, ending: string, trail: string, cc: CharClass) {
    AllWhite(lead, cc) && AllWhite(trail, cc) && IsEnding(ending) && text == lead + OPENING + inner + ending + trail
  }

  ghost predicate Enveloped(text: string, inner: string, cc: CharClass) {
    exists lead, ending, trail :: EnvelopedAs(text, lead, inner, ending, trail, cc)
  }

  /** What follows the closing `]}` of an ending is white space. */
  lemma {:induction false} EndingIsClosed(ending: string, cc: CharClass)
    requires Lawful(cc) && IsEnding(ending)
    ensures ending == "]}" + ending[2..] && AllWhite(ending[2..], cc)
  {
  }

  lemma {:induction false} Regroup(a: string, b: string, c: string, d: string, e: string, f: string)
    ensures a + b + c + (d + e) + f == a + (b + c + d) + (e + f)
  {
  }

  lemma {:induction false} EnvelopeIsRead(
      text: string, lead: string, inner: string, ending: string, trail: string, cc: CharClass)
    requires Lawful(cc) && EnvelopedAs(text, lead, inner, ending, trail, cc)
    ensures Inner(text, cc) == Some(inner)
  {
    EndingIsClosed(ending, cc);
    EnvelopeReads(inner, lead, ending[2..] + trail, cc);
    Regroup(lead, OPENING, inner, "]}", ending[2..], trail);
  }

  lemma {:induction false} InnerIsInside(text: string, cc: CharClass) returns (ending: string)
    requires Inner(text, cc).Some?
    ensures IsEnding(ending) && Trim(text, cc) == OPENING + Inner(text, cc).value + ending
  {
    var t := Trim(text, cc);
    var s := t[|OPENING|..];
    ending := s[|Inner(text, cc).value|..];
    assert t == OPENING + s;
  }

  lemma {:induction false} ReadIsEnveloped(text: string, cc: CharClass)
    requires Inner(text, cc).Some?
    ensures Enveloped(text, Inner(text, cc).value, cc)
  {
    var lead := TrimStartExactly(text, cc.whitespace);
    var trail := TrimEndExactly(TrimStart(text, cc.whitespace), cc.whitespace);
    var ending := InnerIsInside(text, cc);
    AroundIt(lead, OPENING, Inner(text, cc).value, ending, trail);
    assert EnvelopedAs(text, lead, Inner(text, cc).value, ending, trail, cc);
  }

  lemma {:induction false} AroundIt(a: string, b: string, c: string, d: string, e: string)
    ensures a + ((b + c + d) + e) == a + b + c + d + e
  {
  }

  /** The reader finds what the envelope holds, exactly where the text is one. */
  lemma {:induction false} EnvelopeExactly(text: string, inner: string, cc: CharClass)
    requires Lawful(cc)
    ensures Inner(text, cc) == Some(inner) <==> Enveloped(text, inner, cc)
  {
    if Inner(text, cc) == Some(inner) { ReadIsEnveloped(text, cc); }
    if Enveloped(text, inner, cc) {
      var lead, ending, trail :| EnvelopedAs(text, lead, inner, ending, trail, cc);
      EnvelopeIsRead(text, lead, inner, ending, trail, cc);
    }
  }

  /** A text is refused for its envelope exactly when it is in none. */
  lemma {:induction false} NoEnvelopeExactly(text: string, cc: CharClass)
    requires Lawful(cc)
    ensures Parse(text, cc) == Err(NoEnvelope) <==> !exists inner :: Enveloped(text, inner, cc)
  {
    if exists inner :: Enveloped(text, inner, cc) {
      var inner :| Enveloped(text, inner, cc);
      EnvelopeExactly(text, inner, cc);
      EntriesAreInside(Split(inner, "", 0), cc);
    }
    if Inner(text, cc).Some? { ReadIsEnveloped(text, cc); }
  }

  /** No entry is refused for the envelope. */
  lemma {:induction false} EntriesAreInside(raws: seq<string>, cc: CharClass)
    ensures ParseEntries(raws, cc) != Err(NoEnvelope)
  {
    if raws != [] { EntriesAreInside(raws[1..], cc); }
  }

  /**
   * The reader accepts a sidecar as empty exactly when the envelope is there
   * and no brace inside it ever closes an object, whatever else it holds.
   */
  lemma {:induction false} AcceptsAsEmptyExactly(text: string, cc: CharClass)
    requires Lawful(cc)
    ensures Parse(text, cc) == Ok([]) <==> exists inner :: Enveloped(text, inner, cc) && NeverClosed(inner, 0)
  {
    if Inner(text, cc).Some? {
      var inner := Inner(text, cc).value;
      SplitsToNothing(inner, "", 0);
      ReadIsEnveloped(text, cc);
    }
    if exists inner :: Enveloped(text, inner, cc) && NeverClosed(inner, 0) {
      var inner :| Enveloped(text, inner, cc) && NeverClosed(inner, 0);
      EnvelopeExactly(text, inner, cc);
      SplitsToNothing(inner, "", 0);
    }
  }

  /** So a sidecar that holds no object but is not empty is still a clean, vacuous read. */
  lemma {:induction false} GarbageReadsAsEmpty(cc: CharClass)
    requires Lawful(cc)
    ensures Parse(OPENING + "x" + "]}", cc) == Ok([])
  {
    var text := OPENING + "x" + "]}";
    TrimStartDrops("", text, cc.whitespace);
    TrimEndDrops(text, "", cc.whitespace);
    assert "" + text == text && text + "" == text;
    var s := text[|OPENING|..];
    assert s == "x]}" && s[|s| - 2..] == "]}" && s[..|s| - 2] == "x";
    assert s[|s| - 3..][2] == '}';
    assert Inner(text, cc) == Some("x");
    AcceptsAsEmptyExactly(text, cc);
  }

  // ---- the splitter as it runs ----

  /** What the splitter still yields from index `i`, with the current object starting at `start`. */
  ghost function Remaining(s: string, i: nat, start: nat, depth: nat): seq<string>
    requires i <= |s| && start <= |s|
  {
    if start <= i then Split(s[i..], s[start..i], depth) else Split(s[start..], "", 0)
  }

  lemma {:induction false} StepInside(s: string, i: nat, start: nat, depth: nat)
    requires start <= i < |s| && (s[i] == '}' ==> depth > 1)
    ensures Remaining(s, i, start, depth) ==
      Remaining(s, i + 1, start, if s[i] == '{' then depth + 1 else if s[i] == '}' then depth - 1 else depth)
  {
    assert s[i..][1..] == s[i + 1..] && s[i..][0] == s[i];
    assert s[start..i] + [s[i]] == s[start..i + 1];
  }

  /** The first index of the object after the one that closes at `i`. */
  function NextStart(s: string, i: nat): nat
    requires i < |s|
  {
    if i + 1 < |s| && s[i + 1] == ',' then i + 2 else i + 1
  }

  lemma {:induction false} TailOfTail(s: string, i: nat)
    requires i < |s|
    ensures s[i..][0] == s[i] && s[i..][1..] == s[i + 1..]
  {
  }

  lemma {:induction false} StepClosing(s: string, i: nat, start: nat, depth: nat)
    requires start <= i < |s| && s[i] == '}' && depth <= 1
    ensures Remaining(s, i, start, depth) == [s[start..i + 1]] + Remaining(s, i + 1, NextStart(s, i), 0)
  {
    assert s[i..][1..] == s[i + 1..] && s[i..][0] == s[i];
    assert s[start..i] + [s[i]] == s[start..i + 1];
    assert s[i + 1..i + 1] == "";
    if i + 1 < |s| { TailOfTail(s, i + 1); }
  }

  lemma {:induction false} StepComma(s: string, i: nat)
    requires i < |s|
    ensures Remaining(s, i, i + 1, 0) == Remaining(s, i + 1, i + 1, 0)
  {
    assert s[i + 1..i + 1] == "";
  }

  /** One turn of the loop: a closing brace moves an object to the output, anything else only moves on. */
  lemma {:induction false} TurnKeeps(s: string, out: seq<string>, i: nat, start: nat, depth: nat)
    requires i < |s| && start <= |s| && (start <= i || (start == i + 1 && s[i] == ',' && depth == 0))
    ensures s[i] == '}' && depth <= 1 ==>
      out + Remaining(s, i, start, depth) == (out + [s[start..i + 1]]) + Remaining(s, i + 1, NextStart(s, i), 0)
    ensures !(s[i] == '}' && depth <= 1) ==>
      Remaining(s, i, start, depth) ==
      Remaining(s, i + 1, start, if s[i] == '{' then depth + 1 else if s[i] == '}' then depth - 1 else depth)
  {
    if start == i + 1 {
      StepComma(s, i);
    } else if s[i] == '}' && depth <= 1 {
      StepClosing(s, i, start, depth);
      MoveOne(out, s[start..i + 1], Remaining(s, i + 1, NextStart(s, i), 0));
    } else {
      StepInside(s, i, start, depth);
    }
  }

  lemma {:induction false} MoveOne(out: seq<string>, one: string, rest: seq<string>)
    ensures out + ([one] + rest) == (out + [one]) + rest
  {
  }

  /** `split_json_objects`: one pass with a start index and a saturating depth. */
  method SplitJsonObjects(s: string) returns (out: seq<string>)
    ensures out == Split(s, "", 0)
  {
    out := [];
    var depth: nat, start: nat, i := 0, 0, 0;
    assert s[0..] == s && s[0..0] == "";
    while i < |s|
      invariant i <= |s| && start <= |s|
      invariant start <= i || (start == i + 1 && i < |s| && s[i] == ',' && depth == 0)
      invariant Split(s, "", 0) == out + Remaining(s, i, start, depth)
    {
      TurnKeeps(s, out, i, start, depth);
      match s[i] {
        case '{' => depth := depth + 1;
        case '}' =>
          depth := if depth == 0 then 0 else depth - 1;
          if depth == 0 {
            out := out + [s[start..i + 1]];
            start := i + 1;
            if start < |s| && s[start] == ',' {
              start := start + 1;
            }
          }
        case _ =>
      }
      i := i + 1;
    }
    assert s[|s|..] == "";
  }

  method ReadAll(read: Reader, raws: seq<string>) returns (r: Result<seq<Wrapper>, Malformed>)
    ensures r == ReadEach(read, raws)
  {
    var entries := [];
    assert raws[0..] == raws;
    PrefixedFromStart(ReadEach(read, raws));
    for i := 0 to |raws|
      invariant ReadEach(read, raws) == Prefixed(entries, ReadEach(read, raws[i..]))
    {
      assert raws[i..][1..] == raws[i + 1..];
      var entry := read(raws[i]);
      if entry.Err? {
        return Err(entry.error);
      }
      PrefixedStep(entries, entry.value, ReadEach(read, raws[i + 1..]));
      entries := entries + [entry.value];
    }
    assert entries + [] == entries;
    return Ok(entries);
  }

  /** `parse_ffi_wrappers_sidecar` as it runs. */
  method ParseSidecar(text: string, cc: CharClass) returns (r: Result<seq<Wrapper>, Malformed>)
    ensures r == Parse(text, cc)
  {
    var inner := Inner(text, cc);
    if inner.None? {
      return Err(NoEnvelope);
    }
    if inner.value == "" {
      return Ok([]);
    }
    var raws := SplitJsonObjects(inner.value);
    r := ReadAll(EntryReader(cc), raws);
  }

  lemma {:induction false} PrefixedFromStart(r: Result<seq<Wrapper>, Malformed>)
    ensures Prefixed([], r) == r
  {
    if r.Ok? { assert [] + r.value == r.value; }
  }

  lemma {:induction false} PrefixedStep(done: seq<Wrapper>, w: Wrapper, rest: Result<seq<Wrapper>, Malformed>)
    ensures rest.Ok? ==> Prefixed(done, Ok([w] + rest.value)) == Prefixed(done + [w], rest)
  {
    if rest.Ok? { assert done + ([w] + rest.value) == (done + [w]) + rest.value; }
  }

  ghost function Prefixed(done: seq<Wrapper>, rest: Result<seq<Wrapper>, Malformed>): Result<seq<Wrapper>, Malformed> {
    match rest
    case Err(e) => Err(e)
    case Ok(ws) => Ok(done + ws)
  }
}
