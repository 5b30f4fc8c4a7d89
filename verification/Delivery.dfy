/** The delivery grammar: shapes, runtimes, hosts and targets, their words, and which combinations are valid. */
module Delivery {
  import opened Prelude

  datatype Shape = Script | Tui | Cli | Worker | Web
  datatype Runtime = Served | Solo
  datatype Host = Default | Desktop | Ios | Android

  /** A supported musl-static triple. */
  datatype StaticTriple = X8664LinuxMusl | Aarch64LinuxMusl

  /** An explicit compile target; the host's own triple is the absence of one. */
  datatype TargetTriple = BrowserWasm | Wasm32Wasip1 | Native(triple: StaticTriple)

  datatype DeliveryError = ServedNotAWord | DuplicateToken | UnknownToken | RuntimeOnNonWeb | HostOnNonWeb
                         | ServedHostNotMobile | StaticNotAllowed | RepeatedEntry | WebEntryOnNonWeb

  function ShapeWord(s: Shape): string {
    match s
    case Script => "script"
    case Tui => "tui"
    case Cli => "cli"
    case Worker => "worker"
    case Web => "web"
  }

  function ShapeFromWord(word: string): Option<Shape> {
    if word == "script" then Some(Script)
    else if word == "tui" then Some(Tui)
    else if word == "cli" then Some(Cli)
    else if word == "worker" then Some(Worker)
    else if word == "web" then Some(Web)
    else None
  }

  /** The word of a host; the implicit host is never written. */
  function HostWord(h: Host): Option<string> {
    match h
    case Default => None
    case Desktop => Some("desktop")
    case Ios => Some("ios")
    case Android => Some("android")
  }

  function HostFromWord(word: string): Option<Host> {
    if word == "desktop" then Some(Desktop)
    else if word == "ios" then Some(Ios)
    else if word == "android" then Some(Android)
    else None
  }

  function TripleText(t: StaticTriple): string {
    match t
    case X8664LinuxMusl => "x86_64-unknown-linux-musl"
    case Aarch64LinuxMusl => "aarch64-unknown-linux-musl"
  }

  function TripleParse(text: string): Option<StaticTriple> {
    if text == "x86_64-unknown-linux-musl" then Some(X8664LinuxMusl)
    else if text == "aarch64-unknown-linux-musl" then Some(Aarch64LinuxMusl)
    else None
  }

  /** The `--target` vocabulary. */
  function TargetFromFlag(word: string): Option<TargetTriple> {
    if word == "wasm" then Some(BrowserWasm)
    else if word == "wasi" then Some(Wasm32Wasip1)
    else match TripleParse(word)
      case None => None
      case Some(t) => Some(Native(t))
  }

  function TargetWord(t: TargetTriple): string {
    match t
    case BrowserWasm => "wasm"
    case Wasm32Wasip1 => "wasi"
    case Native(triple) => TripleText(triple)
  }

  lemma {:induction false} WordsParseBack(s: Shape, h: Host, t: TargetTriple)
    ensures ShapeFromWord(ShapeWord(s)) == Some(s)
    ensures HostWord(h).Some? ==> HostFromWord(HostWord(h).value) == Some(h)
    ensures TargetFromFlag(TargetWord(t)) == Some(t)
  {
    assert "tui"[0] == 't' && "cli"[0] == 'c' && "web"[0] == 'w' && "ios"[0] == 'i';
    assert "desktop"[0] == 'd' && "android"[0] == 'a' && "wasm"[3] == 'm' && "wasi"[3] == 'i';
    assert "script"[0] == 's' && "worker"[0] == 'w';
    assert |"x86_64-unknown-linux-musl"| == 25 && |"aarch64-unknown-linux-musl"| == 26;
  }

  /** Each word table reads its own words and no other. */
  lemma {:induction false} WordsExactly(word: string, s: Shape, h: Host, t: TargetTriple)
    ensures ShapeFromWord(word) == Some(s) <==> word == ShapeWord(s)
    ensures HostFromWord(word) == Some(h) <==> HostWord(h) == Some(word)
    ensures TargetFromFlag(word) == Some(t) <==> word == TargetWord(t)
  {
    WordsParseBack(s, h, t);
  }

  // ---- the positional tail ----

  /** The `[runtime] [host]` tail; an absent runtime means served. */
  datatype Tokens = Tokens(runtime: Option<Runtime>, host: Host)

  /** The tail's state while it is read: what was parsed and which axes were seen. */
  function ParseTail(
      words: seq<string>, sofar: Tokens, sawRuntime: bool, sawHost: bool): Result<Tokens, DeliveryError> {
    if words == [] then Ok(sofar)
    else if words[0] == "served" then Err(ServedNotAWord)
    else if words[0] == "solo" then
      if sawRuntime then Err(DuplicateToken) else ParseTail(words[1..], sofar.(runtime := Some(Solo)), true, sawHost)
    else match HostFromWord(words[0])
      case Some(h) =>
        if sawHost then Err(DuplicateToken) else ParseTail(words[1..], sofar.(host := h), sawRuntime, true)
      case None => Err(UnknownToken)
  }

  function ParseTokens(words: seq<string>): Result<Tokens, DeliveryError> {
    ParseTail(words, Tokens(None, Default), false, false)
  }

  /** `DeliveryTokens::parse` as it runs. */
  method ReadTokens(words: seq<string>) returns (r: Result<Tokens, DeliveryError>)
    ensures r == ParseTokens(words)
  {
    var out := Tokens(None, Default);
    var sawRuntime, sawHost := false, false;
    assert words[0..] == words;
    for i := 0 to |words|
      invariant ParseTokens(words) == ParseTail(words[i..], out, sawRuntime, sawHost)
    {
      assert words[i..][1..] == words[i + 1..];
      if words[i] == "served" {
        return Err(ServedNotAWord);
      }
      if words[i] == "solo" {
        if sawRuntime {
          return Err(DuplicateToken);
        }
        sawRuntime := true;
        out := out.(runtime := Some(Solo));
        continue;
      }
      var host := HostFromWord(words[i]);
      if host.None? {
        return Err(UnknownToken);
      }
      if sawHost {
        return Err(DuplicateToken);
      }
      sawHost := true;
      out := out.(host := host.value);
    }
    return Ok(out);
  }

  /** The host words. */
  predicate IsHostWord(word: string) {
    word == "desktop" || word == "ios" || word == "android"
  }

  /** What is wrong with one word of a tail, given those before it. */
  function WordError(before: seq<string>, word: string): Option<DeliveryError> {
    if word == "served" then Some(ServedNotAWord)
    else if word != "solo" && !IsHostWord(word) then Some(UnknownToken)
    else if word == "solo" && "solo" in before then Some(DuplicateToken)
    else if IsHostWord(word) && exists j :: 0 <= j < |before| && IsHostWord(before[j]) then Some(DuplicateToken)
    else None
  }

  /** Every word of the tail is in order. */
  predicate TailInOrder(words: seq<string>) {
    forall i :: 0 <= i < |words| ==> WordError(words[..i], words[i]) == None
  }

  /** The tail says what its words say, in whatever order they stand. */
  predicate TailSays(words: seq<string>, t: Tokens) {
    && t.runtime == (if "solo" in words then Some(Solo) else None)
    && t.host == (if "desktop" in words then Desktop else if "ios" in words then Ios
                  else if "android" in words then Android else Default)
  }

  /** What the parse holds after reading `seen`. */
  predicate TailTracks(seen: seq<string>, sofar: Tokens, sawRuntime: bool, sawHost: bool) {
    && TailSays(seen, sofar) && (sawRuntime <==> "solo" in seen)
    && (sawHost <==> exists j :: 0 <= j < |seen| && IsHostWord(seen[j]))
  }

  lemma {:induction false} HostFromWordIs(word: string)
    ensures HostFromWord(word).Some? <==> IsHostWord(word)
    ensures IsHostWord(word) ==> word != "solo" && word != "served"
  {
    assert |"desktop"| == |"android"| == 7 && |"ios"| == 3 && |"solo"| == 4 && |"served"| == 6;
  }

  lemma {:induction false} SeenOneMore(seen: seq<string>, word: string, w: string)
    ensures w in seen + [word] <==> w in seen || w == word
    ensures (exists j :: 0 <= j < |seen + [word]| && IsHostWord((seen + [word])[j])) <==>
      (exists j :: 0 <= j < |seen| && IsHostWord(seen[j])) || IsHostWord(word)
  {
    assert (seen + [word])[|seen|] == word;
    assert forall j :: 0 <= j < |seen| ==> (seen + [word])[j] == seen[j];
  }

  lemma {:induction false} HostsSeen(seen: seq<string>)
    ensures (exists j :: 0 <= j < |seen| && IsHostWord(seen[j])) <==>
      "desktop" in seen || "ios" in seen || "android" in seen
  {
    assert forall w :: w in seen && IsHostWord(w) ==> exists j :: 0 <= j < |seen| && IsHostWord(seen[j]);
  }

  /** A word in order extends what the parse holds. */
  lemma {:induction false} TailTracksOn(seen: seq<string>, word: string, sofar: Tokens, sawRuntime: bool, sawHost: bool)
    requires TailTracks(seen, sofar, sawRuntime, sawHost) && WordError(seen, word) == None
    ensures word == "solo" ==> TailTracks(seen + [word], sofar.(runtime := Some(Solo)), true, sawHost)
    ensures word != "solo" ==>
      HostFromWord(word).Some? &&
      TailTracks(seen + [word], sofar.(host := HostFromWord(word).value), sawRuntime, true)
  {
    HostFromWordIs(word);
    HostsSeen(seen);
    SeenOneMore(seen, word, "solo");
    SeenOneMore(seen, word, "desktop");
    SeenOneMore(seen, word, "ios");
    SeenOneMore(seen, word, "android");
    assert "desktop"[0] == 'd' && "ios"[0] == 'i' && "android"[0] == 'a' && "solo"[0] == 's';
  }

  /** The word at `i` is the first out of order, and this is what is wrong with it. */
  predicate FirstWrongWord(words: seq<string>, i: int, e: DeliveryError) {
    0 <= i < |words| && TailInOrder(words[..i]) && WordError(words[..i], words[i]) == Some(e)
  }

  lemma {:induction false} InOrderOneMore(words: seq<string>, n: nat)
    requires n < |words| && TailInOrder(words[..n]) && WordError(words[..n], words[n]) == None
    ensures TailInOrder(words[..n + 1])
  {
    var longer := words[..n + 1];
    forall i | 0 <= i < |longer| ensures WordError(longer[..i], longer[i]) == None {
      assert longer[..i] == if i < n then words[..n][..i] else words[..n];
    }
  }

  /** From word `n` on the parse stops at the first word out of order, or says the whole tail. */
  lemma {:induction false} TailExactly(words: seq<string>, n: nat, sofar: Tokens, sawRuntime: bool, sawHost: bool)
    requires n <= |words| && TailTracks(words[..n], sofar, sawRuntime, sawHost) && TailInOrder(words[..n])
    ensures match ParseTail(words[n..], sofar, sawRuntime, sawHost)
      case Ok(t) => TailInOrder(words) && TailSays(words, t)
      case Err(e) => exists i :: FirstWrongWord(words, i, e)
    decreases |words| - n
  {
    if n == |words| {
      assert words[..n] == words;
    } else {
      TurnExactly(words, n, sofar, sawRuntime, sawHost);
      if WordError(words[..n], words[n]) == None {
        TailTracksOn(words[..n], words[n], sofar, sawRuntime, sawHost);
        InOrderOneMore(words, n);
        assert words[..n] + [words[n]] == words[..n + 1];
        if words[n] == "solo" {
          TailExactly(words, n + 1, sofar.(runtime := Some(Solo)), true, sawHost);
        } else {
          TailExactly(words, n + 1, sofar.(host := HostFromWord(words[n]).value), sawRuntime, true);
        }
      } else {
        assert FirstWrongWord(words, n, WordError(words[..n], words[n]).value);
      }
    }
  }

  /** One turn of the parse. */
  lemma {:induction false} TurnExactly(words: seq<string>, n: nat, sofar: Tokens, sawRuntime: bool, sawHost: bool)
    requires n < |words| && TailTracks(words[..n], sofar, sawRuntime, sawHost)
    ensures ParseTail(words[n..], sofar, sawRuntime, sawHost) ==
      match WordError(words[..n], words[n])
      case Some(e) => Err(e)
      case None =>
        if words[n] == "solo" then ParseTail(words[n + 1..], sofar.(runtime := Some(Solo)), true, sawHost)
        else ParseTail(words[n + 1..], sofar.(host := HostFromWord(words[n]).GetOr(Default)), sawRuntime, true)
  {
    HostFromWordIs(words[n]);
    assert words[n..][1..] == words[n + 1..] && words[n..][0] == words[n];
  }

  /**
   * A tail is accepted exactly when every word is in order, in whatever order
   * they stand, and then it says what its words say; a refused one is refused for
   * its first word out of order.
   */
  lemma {:induction false} ParseTokensExactly(words: seq<string>)
    ensures ParseTokens(words).Ok? <==> TailInOrder(words)
    ensures ParseTokens(words).Ok? ==> TailSays(words, ParseTokens(words).value)
    ensures ParseTokens(words).Err? ==> exists i :: FirstWrongWord(words, i, ParseTokens(words).error)
  {
    assert words[..0] == [] && words[0..] == words;
    TailExactly(words, 0, Tokens(None, Default), false, false);
  }

  /** In order means: only `solo` and host words, and at most one of each kind. */
  lemma {:induction false} InOrderExactly(words: seq<string>)
    ensures TailInOrder(words) <==>
      && (forall i :: 0 <= i < |words| ==> words[i] == "solo" || IsHostWord(words[i]))
      && (forall i, j :: 0 <= i < j < |words| ==> IsHostWord(words[i]) != IsHostWord(words[j]))
  {
    assert |"served"| == 6 && |"solo"| == 4 && |"desktop"| == |"android"| == 7 && |"ios"| == 3;
    forall i | 0 <= i < |words|
      ensures WordError(words[..i], words[i]) == None <==>
        (words[i] == "solo" || IsHostWord(words[i])) &&
        forall j :: 0 <= j < i && (words[j] == "solo" || IsHostWord(words[j])) ==>
          IsHostWord(words[j]) != IsHostWord(words[i])
    {
      assert forall j :: 0 <= j < i ==> words[..i][j] == words[j];
      assert "solo" in words[..i] <==> exists j :: 0 <= j < i && words[j] == "solo";
    }
  }

  /** The words of a tail, as they are typed. */
  function TokenWords(t: Tokens): seq<string> {
    (if t.runtime == Some(Solo) then ["solo"] else []) + HostWords(t.host)
  }

  function HostWords(h: Host): seq<string> {
    match HostWord(h) case None => [] case Some(w) => [w]
  }

  /** Written tails: the served runtime has no word. */
  predicate Writable(t: Tokens) {
    t.runtime.None? || t.runtime.value.Solo?
  }

  lemma {:induction false} HostTail(h: Host, sofar: Tokens, sawRuntime: bool)
    requires sofar.host == Default
    ensures ParseTail(HostWords(h), sofar, sawRuntime, false) == Ok(sofar.(host := h))
  {
    WordsParseBack(Script, h, BrowserWasm);
    if HostWord(h).Some? {
      var w := HostWord(h).value;
      assert w != "served" && w != "solo" by {
        assert |"desktop"| == |"android"| == 7 && |"ios"| == 3 && |"solo"| == 4 && |"served"| == 6;
      }
      assert [w][1..] == [];
    }
  }

  /** A written tail reads back as itself. */
  lemma {:induction false} TokensRoundTrip(t: Tokens)
    requires Writable(t)
    ensures ParseTokens(TokenWords(t)) == Ok(t)
  {
    assert "solo" != "served" by { assert |"solo"| == 4 && |"served"| == 6; }
    HostTail(t.host, Tokens(t.runtime, Default), t.runtime.Some?);
    if t.runtime == Some(Solo) {
      assert TokenWords(t)[0] == "solo" && TokenWords(t)[1..] == HostWords(t.host);
    } else {
      assert TokenWords(t) == HostWords(t.host);
    }
  }

  lemma {:induction false} ParsedTailIsWritable(words: seq<string>, sofar: Tokens, sawRuntime: bool, sawHost: bool)
    requires Writable(sofar)
    ensures ParseTail(words, sofar, sawRuntime, sawHost).Ok? ==>
      Writable(ParseTail(words, sofar, sawRuntime, sawHost).value)
  {
    if words != [] {
      ParsedTailIsWritable(words[1..], sofar.(runtime := Some(Solo)), true, sawHost);
      if HostFromWord(words[0]).Some? {
        ParsedTailIsWritable(words[1..], sofar.(host := HostFromWord(words[0]).value), sawRuntime, true);
      }
    }
  }

  // ---- resolved deliveries ----

  datatype Delivery = Delivery(shape: Shape, runtime: Option<Runtime>, host: Host)

  function ResolveDelivery(shape: Shape, runtime: Option<Runtime>, host: Host): Result<Delivery, DeliveryError> {
    if !shape.Web? then
      if runtime.Some? then Err(RuntimeOnNonWeb)
      else if !host.Default? then Err(HostOnNonWeb)
      else Ok(Delivery(shape, None, Default))
    else
      var r := runtime.GetOr(Served);
      if r.Served? && (host.Ios? || host.Android?) then Err(ServedHostNotMobile)
      else Ok(Delivery(shape, Some(r), host))
  }

  /** The deliveries there are: off the web neither axis; on it a runtime, and no phone host for a served one. */
  predicate IsDelivery(d: Delivery) {
    if d.shape.Web? then d.runtime.Some? && !(d.runtime == Some(Served) && d.host in {Ios, Android})
    else d.runtime.None? && d.host == Default
  }

  /** The axes resolve exactly to the delivery that has them, served where no runtime is given on the web. */
  lemma {:induction false} ResolveDeliveryExactly(shape: Shape, runtime: Option<Runtime>, host: Host, d: Delivery)
    ensures ResolveDelivery(shape, runtime, host) == Ok(d) <==>
      && IsDelivery(d) && d.shape == shape && d.host == host
      && d.runtime == (if shape.Web? && runtime.None? then Some(Served) else runtime)
  {
  }

  function AllowsStatic(d: Delivery): bool {
    !d.shape.Web? || (d.runtime == Some(Served) && d.host.Default?)
  }

  /** The words after the shape: the solo runtime, then a written host. */
  function DeliveryWords(d: Delivery): seq<string> {
    (if d.runtime == Some(Solo) then ["solo"] else []) + HostWords(d.host)
  }

  /** A static link is allowed exactly for the deliveries written as their bare shape word. */
  lemma {:induction false} StaticExactly(d: Delivery)
    requires IsDelivery(d)
    ensures AllowsStatic(d) <==> DeliveryWords(d) == []
  {
    if d.runtime == Some(Solo) {
      assert DeliveryWords(d)[0] == "solo";
    } else {
      assert DeliveryWords(d) == HostWords(d.host);
      match d.runtime
      case None =>
      case Some(r) =>
        match r
        case Served =>
        case Solo =>
    }
  }

  /** Words, each led by a separator. */
  function Led(sep: string, words: seq<string>): string {
    if words == [] then "" else sep + words[0] + Led(sep, words[1..])
  }

  /** The CLI words of a delivery, space separated. */
  function Display(d: Delivery): string {
    ShapeWord(d.shape) + Led(" ", DeliveryWords(d))
  }
}
