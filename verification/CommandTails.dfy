/**
 * The tails of `ipe build` and `ipe run` as wholes: the parsed values are exactly the representable
 * ones, and each of them reads back from its printed tail.
 */
module CommandTails {
  import opened Prelude
  import opened Delivery
  import opened FormatFlags
  import opened CommandLine
  import opened CommandMeaning

  // ---- the positionals ----

  /** An entry is never a flag or a delivery word, and the served runtime is never written. */
  predicate RepresentableLead(entry: Option<string>, delivery: Positionals) {
    && (entry.Some? ==> !IsFlag(entry.value) && !IsDeliveryWord(entry.value))
    && Writable(delivery.tail)
  }

  function DeliveryTokens(d: Positionals): seq<string> {
    (if d.shape.Some? then [ShapeWord(d.shape.value)] else []) + TokenWords(d.tail)
  }

  function PrintLead(entry: Option<string>, d: Positionals): seq<string> {
    OperandTokens(entry) + DeliveryTokens(d)
  }

  /** Shape words, `solo` and host words are delivery words, are not flags, and only the first are shapes. */
  lemma {:induction false} WordFacts(s: Shape, h: Host)
    ensures IsDeliveryWord(ShapeWord(s)) && !IsFlag(ShapeWord(s))
    ensures IsDeliveryWord("solo") && !IsFlag("solo") && ShapeFromWord("solo").None?
    ensures HostWord(h).Some? ==> var w := HostWord(h).value; IsDeliveryWord(w) && !IsFlag(w) && ShapeFromWord(w).None?
  {
    WordsParseBack(s, h, BrowserWasm);
    assert "script"[0] == 's' && "script"[1] == 'c' && "solo"[1] == 'o' && "tui"[0] == 't' && "cli"[0] == 'c';
    assert "worker"[0] == "web"[0] == 'w' && "desktop"[0] == 'd' && "ios"[0] == 'i' && "android"[0] == 'a';
  }

  lemma {:induction false} TokenWordsAreWords(t: Tokens)
    ensures forall i :: 0 <= i < |TokenWords(t)| ==>
      var w := TokenWords(t)[i]; IsDeliveryWord(w) && !IsFlag(w) && ShapeFromWord(w).None?
  {
    WordFacts(Script, t.host);
  }

  lemma {:induction false} DeliveryTokensAreWords(d: Positionals)
    ensures forall i :: 0 <= i < |DeliveryTokens(d)| ==>
      IsDeliveryWord(DeliveryTokens(d)[i]) && !IsFlag(DeliveryTokens(d)[i])
  {
    TokenWordsAreWords(d.tail);
    if d.shape.Some? {
      WordFacts(d.shape.value, Default);
    }
  }

  lemma {:induction false} WordCountOf(words: seq<string>, flags: seq<string>)
    requires AtFlag(flags) && forall i :: 0 <= i < |words| ==> !IsFlag(words[i])
    ensures WordCount(words + flags) == |words|
  {
    if words == [] {
      assert words + flags == flags;
    } else {
      assert (words + flags)[1..] == words[1..] + flags;
      WordCountOf(words[1..], flags);
    }
  }

  lemma {:induction false} DeliveryReads(d: Positionals)
    requires Writable(d.tail)
    ensures TakePositionals(DeliveryTokens(d)) == Ok(d)
  {
    TokensRoundTrip(d.tail);
    TokenWordsAreWords(d.tail);
    if d.shape.Some? {
      WordsParseBack(d.shape.value, Default, BrowserWasm);
      assert DeliveryTokens(d)[0] == ShapeWord(d.shape.value) && DeliveryTokens(d)[1..] == TokenWords(d.tail);
    } else {
      assert DeliveryTokens(d) == TokenWords(d.tail);
    }
  }

  lemma {:induction false} LeadAfterReads(entry: Option<string>, d: Positionals, flags: seq<string>)
    requires Writable(d.tail) && AtFlag(flags)
    ensures LeadAfter(entry, DeliveryTokens(d) + flags) == Ok(Lead(entry, d, flags))
  {
    var words := DeliveryTokens(d);
    DeliveryTokensAreWords(d);
    WordCountOf(words, flags);
    assert (words + flags)[..|words|] == words && (words + flags)[|words|..] == flags;
    DeliveryReads(d);
  }

  /** A written entry is taken; delivery words are never taken for one. */
  lemma {:induction false} EntryReads(entry: Option<string>, words: seq<string>, flags: seq<string>)
    requires AtFlag(flags) && forall i :: 0 <= i < |words| ==> IsDeliveryWord(words[i])
    requires entry.Some? ==> !IsFlag(entry.value) && !IsDeliveryWord(entry.value)
    ensures LeadOf(OperandTokens(entry) + words + flags) == LeadAfter(entry, words + flags)
  {
    var tokens := OperandTokens(entry) + words + flags;
    if entry.Some? {
      assert tokens[0] == entry.value && tokens[1..] == words + flags;
    } else {
      assert tokens == words + flags;
      NoEntryBefore(words, flags);
    }
  }

  /** Printed positionals read back, whatever flags follow. */
  lemma {:induction false} LeadRoundTrip(entry: Option<string>, d: Positionals, flags: seq<string>)
    requires RepresentableLead(entry, d) && AtFlag(flags)
    ensures LeadOf(PrintLead(entry, d) + flags) == Ok(Lead(entry, d, flags))
  {
    LeadAfterReads(entry, d, flags);
    DeliveryTokensAreWords(d);
    EntryReads(entry, DeliveryTokens(d), flags);
  }

  lemma {:induction false} NoEntryBefore(words: seq<string>, flags: seq<string>)
    requires AtFlag(flags) && forall i :: 0 <= i < |words| ==> IsDeliveryWord(words[i])
    ensures LeadingEntry(words + flags) == None
  {
    if words == [] {
      assert words + flags == flags;
    } else {
      assert (words + flags)[0] == words[0];
    }
  }

  lemma {:induction false} PositionalsAreWritable(words: seq<string>)
    requires TakePositionals(words).Ok?
    ensures Writable(TakePositionals(words).value.tail)
  {
    ParsedTailIsWritable(words, Tokens(None, Default), false, false);
    if words != [] {
      ParsedTailIsWritable(words[1..], Tokens(None, Default), false, false);
    }
  }

  /** The words before the flags ask for no format, so the peek sees only the flags. */
  lemma {:induction false} PeekSkipsWords(words: seq<string>, flags: seq<string>)
    requires forall i :: 0 <= i < |words| ==> !IsFlag(words[i])
    ensures Peek(words + flags) == Peek(flags)
  {
    PeekConcat(words, flags);
    WordsAreQuiet(words);
  }

  lemma {:induction false} LeadAfterIsRepresentable(entry: Option<string>, tokens: seq<string>)
    requires LeadAfter(entry, tokens).Ok?
    ensures var lead := LeadAfter(entry, tokens).value;
      && lead.entry == entry && Writable(lead.delivery.tail) && AtFlag(lead.rest)
      && Peek(tokens) == Peek(lead.rest) && forall t :: t in lead.rest ==> t in tokens
  {
    var n := WordCount(tokens);
    PositionalsAreWritable(tokens[..n]);
    assert tokens == tokens[..n] + tokens[n..];
    PeekSkipsWords(tokens[..n], tokens[n..]);
  }

  /** Whatever precedes the flags is representable; what is left starts with a flag and holds every format flag. */
  lemma {:induction false} LeadIsRepresentable(tokens: seq<string>)
    requires LeadOf(tokens).Ok?
    ensures var lead := LeadOf(tokens).value;
      && RepresentableLead(lead.entry, lead.delivery) && AtFlag(lead.rest)
      && Peek(tokens) == Peek(lead.rest) && forall t :: t in lead.rest ==> t in tokens
  {
    var entry := LeadingEntry(tokens);
    if entry.Some? {
      LeadAfterIsRepresentable(entry, tokens[1..]);
      assert tokens == [tokens[0]] + tokens[1..];
      PeekSkipsWords([tokens[0]], tokens[1..]);
    } else {
      LeadAfterIsRepresentable(entry, tokens);
    }
  }

  /** Tokens that are not flags hold no format flag. */
  lemma {:induction false} WordsAreQuiet(words: seq<string>)
    requires forall i :: 0 <= i < |words| ==> !IsFlag(words[i])
    ensures Peek(words) == Human
  {
    assert IsFlag("--json") && IsFlag("--plain");
  }

  // ---- the flags ----

  /** One turn keeps the slots printable. */
  lemma {:induction false} StepKeepsPrintable(cmd: Command, s: Slots, f: Flag, rest: seq<string>, k: Kind)
    requires PrintableAt(cmd, s, k) && Step(cmd, s, f, rest).Ok?
    ensures PrintableAt(cmd, Step(cmd, s, f, rest).value.slots, k)
  {
  }

  lemma {:induction false} LoopKeepsPrintable(cmd: Command, s: Slots, tokens: seq<string>, k: Kind)
    requires PrintableAt(cmd, s, k) && Loop(cmd, s, tokens).Ok?
    ensures PrintableAt(cmd, Loop(cmd, s, tokens).value, k)
    decreases |tokens|
  {
    if tokens != [] {
      var f := FlagOf(tokens[0]).value;
      StepKeepsPrintable(cmd, s, f, tokens[1..], k);
      var turn := Step(cmd, s, f, tokens[1..]).value;
      LoopKeepsPrintable(cmd, turn.slots, turn.rest, k);
    }
  }

  /** Every tail the loop accepts leaves slots it would read back from their own printing. */
  lemma {:induction false} AcceptedFlagsPrint(cmd: Command, tokens: seq<string>)
    requires Loop(cmd, START, tokens).Ok?
    ensures Printable(cmd, Loop(cmd, START, tokens).value)
  {
    forall k ensures PrintableAt(cmd, Loop(cmd, START, tokens).value, k) {
      LoopKeepsPrintable(cmd, START, tokens, k);
    }
  }

  // ---- what a build or a run can be ----

  /** The target axis and the native layer a parse can produce together. */
  predicate RepresentableTarget(wasm: WasmKind, layer: StaticLayer) {
    if wasm.NoWasm? then
      && layer.staticBuild != Some(false) && layer.cFree != Some(false)
      && (layer.target.Some? ==> TripleParse(layer.target.value).Some?)
    else layer == EMPTY_LAYER
  }

  predicate RepresentableBuild(a: BuildArgs) {
    && RepresentableLead(a.entry, a.delivery)
    && (a.mode.Emit? ==> RepresentableTarget(a.mode.wasm, a.mode.layer))
  }

  predicate RepresentableRun(a: RunArgs) {
    && RepresentableLead(a.entry, a.delivery)
    && RepresentableTarget(a.wasm, a.layer) && !a.wasm.Client?
    && (a.session.Replay? && a.session.log.Some? ==> !IsFlag(a.session.log.value))
    && a.out != Some("--") && a.runtime != Some("--")
  }

  function TargetOf(wasm: WasmKind, layer: StaticLayer): Option<TargetTriple> {
    match wasm
    case Client => Some(BrowserWasm)
    case Wasi => Some(Wasm32Wasip1)
    case NoWasm =>
      if layer.target.None? then None
      else match TripleParse(layer.target.value) case None => None case Some(t) => Some(Native(t))
  }

  function FormatSlot(format: OutputFormat): Option<OutputFormat> {
    if format.Human? then None else Some(format)
  }

  /** The slots a build's own tail fills. */
  function BuildSlots(a: BuildArgs): Slots {
    var base := Slots(false, None, None, false, FormatSlot(a.format), None, a.runtime, a.emitPermissions,
                      a.mode.EmitIr?, a.fix, a.acceptRisks, a.debugger, a.quiet, Live);
    match a.mode
    case EmitIr => base
    case Emit(out, wasm, layer) =>
      base.(out := out, target := TargetOf(wasm, layer), isStatic := layer.staticBuild.Some?,
            allocator := layer.allocator, cFree := layer.cFree.Some?)
  }

  function RunSlots(a: RunArgs): Slots {
    Slots(a.layer.staticBuild.Some?, TargetOf(a.wasm, a.layer), a.layer.allocator, a.layer.cFree.Some?,
          FormatSlot(a.format), a.out, a.runtime, None, false, false, a.acceptRisks, a.debugger, a.quiet, a.session)
  }

  lemma {:induction false} LayerReads(wasm: WasmKind, layer: StaticLayer, s: Slots)
    requires RepresentableTarget(wasm, layer)
    requires s.target == TargetOf(wasm, layer) && s.isStatic == layer.staticBuild.Some?
    requires s.allocator == layer.allocator && s.cFree == layer.cFree.Some?
    ensures WasmKindOf(s.target) == wasm && (wasm.NoWasm? ==> LayerOf(s) == layer)
    ensures !wasm.NoWasm? ==> !s.isStatic && s.allocator.None? && !s.cFree
  {
    assert layer.staticBuild.Some? ==> layer.staticBuild.value;
    assert layer.cFree.Some? ==> layer.cFree.value;
    if wasm.NoWasm? && layer.target.Some? {
      TripleReads(layer.target.value);
    }
  }

  lemma {:induction false} TripleReads(text: string)
    requires TripleParse(text).Some?
    ensures TripleText(TripleParse(text).value) == text
  {
  }

  lemma {:induction false} TripleIsParsed(t: StaticTriple)
    ensures TripleParse(TripleText(t)) == Some(t)
  {
    WordsParseBack(Script, Default, Native(t));
    assert |"x86_64-unknown-linux-musl"| == 25 && |"aarch64-unknown-linux-musl"| == 26;
  }

  /** The layer and target axis of accepted slots are representable. */
  lemma {:induction false} SlotsRepresentable(s: Slots)
    ensures RepresentableTarget(NoWasm, LayerOf(s))
    ensures RepresentableTarget(Client, EMPTY_LAYER) && RepresentableTarget(Wasi, EMPTY_LAYER)
  {
    if s.target.Some? && s.target.value.Native? {
      TripleIsParsed(s.target.value.triple);
    }
  }

  // ---- ipe build ----

  function PrintBuild(a: BuildArgs): seq<string> {
    PrintLead(a.entry, a.delivery) + Print(BuildSlots(a), ORDER)
  }

  lemma {:induction false} BuildFinishes(a: BuildArgs)
    requires RepresentableBuild(a)
    ensures FinishBuild(Lead(a.entry, a.delivery, Print(BuildSlots(a), ORDER)), BuildSlots(a)) == Ok(a)
  {
    if a.mode.Emit? {
      LayerReads(a.mode.wasm, a.mode.layer, BuildSlots(a));
    }
  }

  /** Every representable build reads back from its printed tail. */
  lemma {:induction false} BuildRoundTrip(a: BuildArgs)
    requires RepresentableBuild(a)
    ensures BuildArgsOf(PrintBuild(a)) == Ok(a)
  {
    PrintStartsWithFlag(BuildSlots(a), ORDER);
    LeadRoundTrip(a.entry, a.delivery, Print(BuildSlots(a), ORDER));
    forall k ensures PrintableAt(Build, BuildSlots(a), k) {}
    FlagsRoundTrip(Build, BuildSlots(a));
    BuildFinishes(a);
  }

  /** Every accepted tail parses to a representable build. */
  lemma {:induction false} BuildIsRepresentable(tokens: seq<string>)
    requires BuildArgsOf(tokens).Ok?
    ensures RepresentableBuild(BuildArgsOf(tokens).value)
  {
    LeadIsRepresentable(tokens);
    SlotsRepresentable(Loop(Build, START, LeadOf(tokens).value.rest).value);
  }

  // ---- ipe run ----

  function Forwarded(binArgs: seq<string>): seq<string> {
    if binArgs == [] then [] else ["--"] + binArgs
  }

  /** The part of a printed run that `ipe` itself reads. */
  function PrintOwn(a: RunArgs): seq<string> {
    PrintLead(a.entry, a.delivery) + Print(RunSlots(a), ORDER)
  }

  function PrintRun(a: RunArgs): seq<string> {
    PrintOwn(a) + Forwarded(a.binArgs)
  }

  /** No option value is the separator. */
  predicate Undivided(s: Slots) {
    s.out != Some("--") && s.runtime != Some("--")
  }

  lemma {:induction false} PieceIsUndivided(s: Slots, k: Kind)
    requires Undivided(s) && PrintableAt(Run, s, k)
    ensures "--" !in Piece(s, k)
  {
    SpellingReadsBack(FlagFor(s, k));
    if k.KTarget? && s.target.Some? {
      WordsParseBack(Script, Default, s.target.value);
      VocabularyIsPlain(TargetWord(s.target.value));
    } else if k.KAllocator? && s.allocator.Some? {
      AllocatorReadsBack(s.allocator.value);
      VocabularyIsPlain(AllocatorWord(s.allocator.value));
    }
    assert IsFlag("--");
  }

  lemma {:induction false} PrintIsUndivided(s: Slots, ks: seq<Kind>)
    requires Undivided(s) && Printable(Run, s)
    ensures "--" !in Print(s, ks)
  {
    if ks != [] {
      assert PrintableAt(Run, s, ks[0]);
      PieceIsUndivided(s, ks[0]);
      PrintIsUndivided(s, ks[1..]);
    }
  }

  lemma {:induction false} SplitAt(before: seq<string>, binArgs: seq<string>)
    requires "--" !in before
    ensures var tokens := before + Forwarded(binArgs);
      tokens[..DashDash(tokens)] == before && BinArgs(tokens) == binArgs
  {
    var tokens := before + Forwarded(binArgs);
    assert forall i :: 0 <= i < |before| ==> tokens[i] == before[i];
    if binArgs == [] {
      assert tokens == before;
    } else {
      assert tokens[|before|] == "--" && tokens[|before| + 1..] == binArgs;
    }
    SeparatorIs(tokens, |before|);
  }

  /** The first `--` is the one with none before it. */
  lemma {:induction false} SeparatorIs(tokens: seq<string>, n: nat)
    requires n <= |tokens| && (forall i :: 0 <= i < n ==> tokens[i] != "--") && (n < |tokens| ==> tokens[n] == "--")
    ensures DashDash(tokens) == n
  {
    var d := DashDash(tokens);
    assert !(d < n) && !(n < d);
  }

  lemma {:induction false} OwnIsUndivided(a: RunArgs)
    requires RepresentableRun(a)
    ensures "--" !in PrintOwn(a) && Printable(Run, RunSlots(a))
  {
    forall k ensures PrintableAt(Run, RunSlots(a), k) {}
    PrintIsUndivided(RunSlots(a), ORDER);
    DeliveryTokensAreWords(a.delivery);
    assert IsFlag("--");
  }

  lemma {:induction false} RunFinishes(a: RunArgs)
    requires RepresentableRun(a)
    ensures FinishRun(Lead(a.entry, a.delivery, Print(RunSlots(a), ORDER)), RunSlots(a), a.binArgs) == Ok(a)
  {
    LayerReads(a.wasm, a.layer, RunSlots(a));
  }

  /** Every representable run reads back from its printed tail, the forwarded arguments verbatim. */
  lemma {:induction false} RunRoundTrip(a: RunArgs)
    requires RepresentableRun(a)
    ensures RunArgsOf(PrintRun(a)) == Ok(a)
  {
    OwnIsUndivided(a);
    SplitAt(PrintOwn(a), a.binArgs);
    PrintStartsWithFlag(RunSlots(a), ORDER);
    LeadRoundTrip(a.entry, a.delivery, Print(RunSlots(a), ORDER));
    FlagsRoundTrip(Run, RunSlots(a));
    RunFinishes(a);
  }

  lemma {:induction false} LoopStaysUndivided(s: Slots, tokens: seq<string>)
    requires Undivided(s) && "--" !in tokens && Loop(Run, s, tokens).Ok?
    ensures Undivided(Loop(Run, s, tokens).value)
    decreases |tokens|
  {
    if tokens != [] {
      var turn := Step(Run, s, FlagOf(tokens[0]).value, tokens[1..]).value;
      StepStaysUndivided(s, FlagOf(tokens[0]).value, tokens[1..]);
      LoopStaysUndivided(turn.slots, turn.rest);
    }
  }

  lemma {:induction false} StepStaysUndivided(s: Slots, f: Flag, rest: seq<string>)
    requires Undivided(s) && "--" !in rest && Step(Run, s, f, rest).Ok?
    ensures Undivided(Step(Run, s, f, rest).value.slots)
  {
    assert rest != [] ==> rest[0] != "--";
  }

  /** Every accepted tail parses to a representable run. */
  lemma {:induction false} RunIsRepresentable(tokens: seq<string>)
    requires RunArgsOf(tokens).Ok?
    ensures RepresentableRun(RunArgsOf(tokens).value)
  {
    var own := tokens[..DashDash(tokens)];
    LeadIsRepresentable(own);
    var flags := LeadOf(own).value.rest;
    AcceptedFlagsPrint(Run, flags);
    LoopStaysUndivided(START, flags);
    RunSlotsRepresent(Loop(Run, START, flags).value, LeadOf(own).value, BinArgs(tokens));
  }

  lemma {:induction false} RunSlotsRepresent(s: Slots, lead: Lead, binArgs: seq<string>)
    requires Undivided(s) && Printable(Run, s) && RepresentableLead(lead.entry, lead.delivery)
    requires FinishRun(lead, s, binArgs).Ok?
    ensures RepresentableRun(FinishRun(lead, s, binArgs).value)
  {
    SlotsRepresentable(s);
    assert PrintableAt(Run, s, KSession);
  }
}
