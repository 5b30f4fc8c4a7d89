/** What the sidecar's reader accepts as entries, on the text alone. */
module SidecarEntries {
  import opened Prelude
  import opened Text
  import opened Sidecar

  /** The first occurrence of the needle, at `k`, is followed by `value` and a quote, the first one after it. */
  predicate QuotedAt(obj: string, needle: string, k: nat, value: string) {
    && FirstAt(obj, needle, k)
    && var rest := obj[k + |needle|..];
       |value| < |rest| && rest[..|value|] == value && rest[|value|] == '"' && '"' !in value
  }

  /** It is followed by `value`, after white space. */
  predicate WordAt(obj: string, needle: string, k: nat, value: string, cc: CharClass) {
    FirstAt(obj, needle, k) && StartsWith(TrimStart(obj[k + |needle|..], cc.whitespace), value)
  }

  lemma {:induction false} FirstQuote(rest: string, value: string)
    ensures Before(rest, "\"") == Some(value) <==>
      |value| < |rest| && rest[..|value|] == value && rest[|value|] == '"' && '"' !in value
  {
    var m := Find(rest, "\"");
    if m.Some? {
      FindExactly(rest, "\"", m.value);
      QuoteIs(rest, m.value);
    }
    if |value| < |rest| && rest[..|value|] == value && rest[|value|] == '"' && '"' !in value {
      QuoteIs(rest, |value|);
      FindExactly(rest, "\"", |value|);
    }
  }

  lemma {:induction false} QuoteIs(rest: string, m: nat)
    requires m <= |rest|
    ensures FirstAt(rest, "\"", m) <==> m < |rest| && rest[m] == '"' && '"' !in rest[..m]
  {
    forall i | 0 <= i < |rest| ensures "\"" <= rest[i..] <==> rest[i] == '"' { assert rest[i..][0] == rest[i]; }
    assert forall i :: 0 <= i < m ==> rest[..m][i] == rest[i];
  }

  /** A string value is the text between the first occurrence of its key and the next quote. */
  lemma {:induction false} ExtractStringExactly(obj: string, key: string, value: string)
    ensures ExtractString(obj, key) == Some(value) <==>
      exists k :: QuotedAt(obj, "\"" + key + "\":\"", k, value)
  {
    var needle := "\"" + key + "\":\"";
    if Find(obj, needle).Some? {
      var k := Find(obj, needle).value;
      FindExactly(obj, needle, k);
      FirstQuote(obj[k + |needle|..], value);
      assert ExtractString(obj, key) == Some(value) ==> QuotedAt(obj, needle, k, value);
    }
    if exists k :: QuotedAt(obj, needle, k, value) {
      var k: nat :| QuotedAt(obj, needle, k, value);
      FindExactly(obj, needle, k);
      FirstQuote(obj[k + |needle|..], value);
    }
  }

  lemma {:induction false} ReadBoolExactly(text: string, value: bool)
    ensures ReadBool(text) == Some(value) <==> StartsWith(text, BoolText(value))
  {
    assert "true"[0] == 't' && "false"[0] == 'f';
  }

  lemma {:induction false} BoolAfter(obj: string, needle: string, value: bool, cc: CharClass)
    ensures (exists k :: WordAt(obj, needle, k, BoolText(value), cc)) <==>
      match After(obj, needle)
      case None => false
      case Some(rest) => ReadBool(TrimStart(rest, cc.whitespace)) == Some(value)
  {
    if Find(obj, needle).Some? {
      var k := Find(obj, needle).value;
      FindExactly(obj, needle, k);
      ReadBoolExactly(TrimStart(obj[k + |needle|..], cc.whitespace), value);
      assert ReadBool(TrimStart(obj[k + |needle|..], cc.whitespace)) == Some(value) ==>
        WordAt(obj, needle, k, BoolText(value), cc);
    }
    if exists k :: WordAt(obj, needle, k, BoolText(value), cc) {
      var k: nat :| WordAt(obj, needle, k, BoolText(value), cc);
      FindExactly(obj, needle, k);
      ReadBoolExactly(TrimStart(obj[k + |needle|..], cc.whitespace), value);
    }
  }

  /** A boolean is the word after the first occurrence of its key, past white space. */
  lemma {:induction false} ExtractBoolExactly(obj: string, key: string, value: bool, cc: CharClass)
    ensures ExtractBool(obj, key, cc) == Some(value) <==>
      exists k :: WordAt(obj, "\"" + key + "\":", k, BoolText(value), cc)
  {
    BoolAfter(obj, "\"" + key + "\":", value, cc);
  }

  predicate AllAre(s: string, c: char) {
    forall i :: 0 <= i < |s| ==> s[i] == c
  }

  /** The object's braces around its text, which neither starts with an open nor ends with a close. */
  predicate Braced(raw: string, opens: string, obj: string, closes: string) {
    && raw == opens + obj + closes && AllAre(opens, '{') && AllAre(closes, '}')
    && (obj != "" ==> obj[0] != '{' && obj[|obj| - 1] != '}')
  }

  /** The object's text gives this path and this boolean, and the path is well formed. */
  ghost predicate Gives(obj: string, w: Wrapper, cc: CharClass) {
    && (exists k :: QuotedAt(obj, "\"path\":\"", k, w.path))
    && (exists k :: WordAt(obj, "\"generic\":", k, BoolText(w.generic), cc))
    && IsWrapperPath(w.path, cc)
  }

  ghost predicate EntryOf(raw: string, w: Wrapper, cc: CharClass) {
    exists opens, obj, closes :: Braced(raw, opens, obj, closes) && Gives(obj, w, cc)
  }

  function Unbraced(raw: string): string {
    TrimEnd(TrimStart(raw, c => c == '{'), c => c == '}')
  }

  lemma {:induction false} GivesExactly(obj: string, w: Wrapper, cc: CharClass)
    ensures Gives(obj, w, cc) <==>
      && ExtractString(obj, "path") == Some(w.path) && ExtractBool(obj, "generic", cc) == Some(w.generic)
      && IsWrapperPath(w.path, cc)
  {
    ExtractStringExactly(obj, "path", w.path);
    ExtractBoolExactly(obj, "generic", w.generic, cc);
    assert "\"" + "path" + "\":\"" == "\"path\":\"" && "\"" + "generic" + "\":" == "\"generic\":";
  }

  /** The entry read from an object's text, whatever braces were trimmed off it. */
  function ReadText(obj: string, cc: CharClass): Option<Wrapper> {
    match ExtractString(obj, "path")
    case None => None
    case Some(path) =>
      match ExtractBool(obj, "generic", cc)
      case None => None
      case Some(generic) => if IsWrapperPath(path, cc) then Some(Wrapper(path, generic)) else None
  }

  lemma {:induction false} EntryIsReadText(raw: string, w: Wrapper, cc: CharClass)
    ensures ParseEntry(raw, cc) == Ok(w) <==> ReadText(Unbraced(raw), cc) == Some(w)
  {
  }

  lemma {:induction false} ReadsExactly(obj: string, w: Wrapper, cc: CharClass)
    ensures ReadText(obj, cc) == Some(w) <==> Gives(obj, w, cc)
    ensures Gives(obj, w, cc) ==> obj != ""
  {
    GivesExactly(obj, w, cc);
    if Gives(obj, w, cc) {
      var k: nat :| QuotedAt(obj, "\"path\":\"", k, w.path);
    }
  }

  lemma {:induction false} UnbracedIs(raw: string) returns (opens: string, closes: string)
    ensures Braced(raw, opens, Unbraced(raw), closes)
  {
    var front := TrimStart(raw, c => c == '{');
    opens := TrimStartExactly(raw, c => c == '{');
    closes := TrimEndExactly(front, c => c == '}');
    assert raw == opens + Unbraced(raw) + closes;
    assert Unbraced(raw) != "" ==> front[0] == Unbraced(raw)[0];
  }

  lemma {:induction false} BracedIs(raw: string, opens: string, obj: string, closes: string)
    requires Braced(raw, opens, obj, closes) && obj != ""
    ensures Unbraced(raw) == obj
  {
    assert raw == opens + (obj + closes);
    TrimStartDrops(opens, obj + closes, c => c == '{');
    TrimEndDrops(obj, closes, c => c == '}');
  }

  /** An object is accepted as an entry exactly when its text gives the entry. */
  lemma {:induction false} EntryExactly(raw: string, w: Wrapper, cc: CharClass)
    ensures ParseEntry(raw, cc) == Ok(w) <==> EntryOf(raw, w, cc)
  {
    EntryIsReadText(raw, w, cc);
    ReadsExactly(Unbraced(raw), w, cc);
    if Gives(Unbraced(raw), w, cc) {
      var opens, closes := UnbracedIs(raw);
    }
    if EntryOf(raw, w, cc) {
      var opens, obj, closes :| Braced(raw, opens, obj, closes) && Gives(obj, w, cc);
      ReadsExactly(obj, w, cc);
      BracedIs(raw, opens, obj, closes);
    }
  }

  /** A text is accepted as these wrappers exactly when each object of its envelope gives one, in order. */
  lemma {:induction false} ParseExactly(text: string, ws: seq<Wrapper>, cc: CharClass)
    requires Lawful(cc)
    ensures Parse(text, cc) == Ok(ws) <==>
      exists inner :: Enveloped(text, inner, cc) && EntriesOf(Split(inner, "", 0), ws, cc)
  {
    if Parse(text, cc) == Ok(ws) {
      var inner := Inner(text, cc).value;
      ReadIsEnveloped(text, cc);
      EntriesExactly(Split(inner, "", 0), ws, cc);
    }
    if exists inner :: Enveloped(text, inner, cc) && EntriesOf(Split(inner, "", 0), ws, cc) {
      var inner :| Enveloped(text, inner, cc) && EntriesOf(Split(inner, "", 0), ws, cc);
      EnvelopeExactly(text, inner, cc);
      EntriesExactly(Split(inner, "", 0), ws, cc);
    }
  }

  ghost predicate EntriesOf(raws: seq<string>, ws: seq<Wrapper>, cc: CharClass) {
    |raws| == |ws| && forall i :: 0 <= i < |raws| ==> EntryOf(raws[i], ws[i], cc)
  }

  lemma {:induction false} EntriesExactly(raws: seq<string>, ws: seq<Wrapper>, cc: CharClass)
    ensures ParseEntries(raws, cc) == Ok(ws) <==> EntriesOf(raws, ws, cc)
  {
    ReadEachExactly(EntryReader(cc), raws, ws);
    if |raws| == |ws| {
      forall i | 0 <= i < |raws| ensures EntryReader(cc)(raws[i]) == Ok(ws[i]) <==> EntryOf(raws[i], ws[i], cc) {
        EntryExactly(raws[i], ws[i], cc);
      }
    }
  }
}
