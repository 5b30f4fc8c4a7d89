/**
 * The exact acceptance and meaning of whole `ipe build` and `ipe run` tails, on
 * their tokens.
 */
module CommandExact {
  import opened Prelude
  import opened Delivery
  import opened FormatFlags
  import opened CommandLine
  import opened CommandMeaning
  import opened CommandTails
  import opened CommandAsks

  // ---- the leading words ----

  /** The words of the delivery grammar, the refused `served` among them. */
  predicate ReservedWord(word: string) {
    || word == "script" || word == "tui" || word == "cli" || word == "worker" || word == "web"
    || word == "solo" || word == "served" || IsHostWord(word)
  }

  lemma {:induction false} ReservedExactly(word: string)
    ensures IsDeliveryWord(word) <==> ReservedWord(word)
    ensures ReservedWord(word) ==> !IsFlag(word)
    ensures word == "solo" || IsHostWord(word) ==> ShapeFromWord(word).None?
  {
    HostFromWordIs(word);
    assert "script"[0] == 's' && "script"[1] == 'c' && "solo"[0] == "served"[0] == 's' && "solo"[1] == 'o';
    assert "tui"[0] == 't' && "cli"[0] == 'c' && "worker"[0] == "web"[0] == 'w';
    assert "desktop"[0] == 'd' && "ios"[0] == 'i' && "android"[0] == 'a';
  }

  function ShapeTokens(shape: Option<Shape>): seq<string> {
    if shape.Some? then [ShapeWord(shape.value)] else []
  }

  /** The tail's positional tokens are an entry, a shape and these words; then come the flags. */
  ghost predicate LeadsWith(tokens: seq<string>, lead: Lead, words: seq<string>) {
    && tokens == OperandTokens(lead.entry) + (ShapeTokens(lead.delivery.shape) + words) + lead.rest
    && (lead.entry.Some? ==> !IsFlag(lead.entry.value) && !ReservedWord(lead.entry.value))
    && TailInOrder(words) && TailSays(words, lead.delivery.tail) && AtFlag(lead.rest)
  }

  ghost predicate Leads(tokens: seq<string>, lead: Lead) {
    exists words :: LeadsWith(tokens, lead, words)
  }

  lemma {:induction false} WordsInOrder(words: seq<string>)
    requires TailInOrder(words)
    ensures forall i :: 0 <= i < |words| ==> words[i] == "solo" || IsHostWord(words[i])
  {
    forall i | 0 <= i < |words| ensures words[i] == "solo" || IsHostWord(words[i]) {
      assert WordError(words[..i], words[i]) == None;
    }
  }

  /** The shape word and the words after it are read as the delivery they say. */
  lemma {:induction false} PositionalsRead(shape: Option<Shape>, words: seq<string>, t: Tokens)
    requires TailInOrder(words) && TailSays(words, t)
    ensures TakePositionals(ShapeTokens(shape) + words) == Ok(Positionals(shape, t))
  {
    var all := ShapeTokens(shape) + words;
    ParseTokensExactly(words);
    WordsInOrder(words);
    if shape.Some? {
      WordsParseBack(shape.value, Default, BrowserWasm);
      assert all[0] == ShapeWord(shape.value) && all[1..] == words;
    } else {
      assert all == words;
      if words != [] { ReservedExactly(words[0]); }
    }
  }

  lemma {:induction false} LeadingWordsAreReserved(shape: Option<Shape>, words: seq<string>)
    requires TailInOrder(words)
    ensures var all := ShapeTokens(shape) + words;
      forall i :: 0 <= i < |all| ==> IsDeliveryWord(all[i]) && !IsFlag(all[i])
  {
    var all := ShapeTokens(shape) + words;
    WordsInOrder(words);
    forall i | 0 <= i < |all| ensures IsDeliveryWord(all[i]) && !IsFlag(all[i]) { ReservedExactly(all[i]); }
  }

  lemma {:induction false} LeadReads(tokens: seq<string>, lead: Lead, words: seq<string>)
    requires LeadsWith(tokens, lead, words)
    ensures LeadOf(tokens) == Ok(lead)
  {
    var all := ShapeTokens(lead.delivery.shape) + words;
    LeadingWordsAreReserved(lead.delivery.shape, words);
    if lead.entry.Some? { ReservedExactly(lead.entry.value); }
    EntryReads(lead.entry, all, lead.rest);
    WordCountOf(all, lead.rest);
    assert (all + lead.rest)[..|all|] == all && (all + lead.rest)[|all|..] == lead.rest;
    PositionalsRead(lead.delivery.shape, words, lead.delivery.tail);
  }

  lemma {:induction false} PositionalsSay(all: seq<string>) returns (words: seq<string>)
    requires TakePositionals(all).Ok?
    ensures var d := TakePositionals(all).value;
      all == ShapeTokens(d.shape) + words && TailInOrder(words) && TailSays(words, d.tail)
  {
    var shape := if all == [] then None else ShapeFromWord(all[0]);
    words := if shape.Some? then all[1..] else all;
    ParseTokensExactly(words);
    if shape.Some? { WordsExactly(all[0], shape.value, Default, BrowserWasm); }
  }

  function AfterEntry(tokens: seq<string>): seq<string> {
    if LeadingEntry(tokens).Some? then tokens[1..] else tokens
  }

  /** The tokens before the first flag, after the entry. */
  function LeadingWords(tokens: seq<string>): seq<string> {
    AfterEntry(tokens)[..WordCount(AfterEntry(tokens))]
  }

  function FlagPart(tokens: seq<string>): seq<string> {
    AfterEntry(tokens)[WordCount(AfterEntry(tokens))..]
  }

  lemma {:induction false} EntryPart(tokens: seq<string>)
    ensures tokens == OperandTokens(LeadingEntry(tokens)) + AfterEntry(tokens)
    ensures LeadingEntry(tokens).Some? ==>
      !IsFlag(LeadingEntry(tokens).value) && !ReservedWord(LeadingEntry(tokens).value)
  {
    if LeadingEntry(tokens).Some? { ReservedExactly(tokens[0]); }
  }

  lemma {:induction false} LeadParts(tokens: seq<string>)
    ensures tokens == OperandTokens(LeadingEntry(tokens)) + LeadingWords(tokens) + FlagPart(tokens)
  {
    EntryPart(tokens);
    Cut(OperandTokens(LeadingEntry(tokens)), AfterEntry(tokens), WordCount(AfterEntry(tokens)));
  }

  lemma {:induction false} FlagPartIsFlags(tokens: seq<string>)
    ensures AtFlag(FlagPart(tokens))
  {
  }

  lemma {:induction false} Cut(a: seq<string>, w: seq<string>, n: nat)
    requires n <= |w|
    ensures a + w == a + w[..n] + w[n..]
  {
  }

  lemma {:induction false} LeadSays(tokens: seq<string>) returns (words: seq<string>)
    requires LeadOf(tokens).Ok?
    ensures LeadsWith(tokens, LeadOf(tokens).value, words)
  {
    words := PositionalsSay(LeadingWords(tokens));
    EntryPart(tokens);
    LeadParts(tokens);
    FlagPartIsFlags(tokens);
  }

  /** The leading part is read exactly as it says. */
  lemma {:induction false} LeadExactly(tokens: seq<string>, lead: Lead)
    ensures LeadOf(tokens) == Ok(lead) <==> Leads(tokens, lead)
  {
    if LeadOf(tokens) == Ok(lead) {
      var words := LeadSays(tokens);
    }
    if Leads(tokens, lead) {
      var words :| LeadsWith(tokens, lead, words);
      LeadReads(tokens, lead, words);
    }
  }

  /** A leading part is refused only for its first delivery word out of order. */
  lemma {:induction false} LeadRefused(tokens: seq<string>)
      returns (entry: Option<string>, shape: Option<Shape>, words: seq<string>, rest: seq<string>, i: nat)
    requires LeadOf(tokens).Err?
    ensures tokens == OperandTokens(entry) + (ShapeTokens(shape) + words) + rest
    ensures LeadOf(tokens).error.DeliveryRefused? && FirstWrongWord(words, i, LeadOf(tokens).error.why)
  {
    entry, rest := LeadingEntry(tokens), FlagPart(tokens);
    shape, words, i := PositionalsRefused(LeadingWords(tokens));
    LeadParts(tokens);
  }

  lemma {:induction false} PositionalsRefused(all: seq<string>)
      returns (shape: Option<Shape>, words: seq<string>, i: nat)
    requires TakePositionals(all).Err?
    ensures all == ShapeTokens(shape) + words
    ensures TakePositionals(all).error.DeliveryRefused? && FirstWrongWord(words, i, TakePositionals(all).error.why)
  {
    shape := if all == [] then None else ShapeFromWord(all[0]);
    words := if shape.Some? then all[1..] else all;
    if shape.Some? { WordsExactly(all[0], shape.value, Default, BrowserWasm); }
    ParseTokensExactly(words);
    var k :| FirstWrongWord(words, k, ParseTokens(words).error);
    i := k;
  }

  // ---- what the asks say together ----

  predicate WasmAsked(asks: seq<Ask>) {
    ValueOf(asks, FTarget) == Some("wasm") || ValueOf(asks, FTarget) == Some("wasi")
  }

  /** `--emit-ir` stands alone but for `--fix` and the like, and a WebAssembly target takes no native flag. */
  predicate BuildComposes(asks: seq<Ask>) {
    && (WasmAsked(asks) ==> !Asked(asks, FStatic) && !Asked(asks, FAllocator) && !Asked(asks, FCFree))
    && (Asked(asks, FEmitIr) ==>
          && !Asked(asks, FOut) && !Asked(asks, FStatic) && !Asked(asks, FTarget)
          && !Asked(asks, FAllocator) && !Asked(asks, FCFree))
  }

  /** A browser bundle cannot be run, and a WASI module takes no native flag. */
  predicate RunComposes(asks: seq<Ask>) {
    && ValueOf(asks, FTarget) != Some("wasm")
    && (ValueOf(asks, FTarget) == Some("wasi") ==>
          !Asked(asks, FStatic) && !Asked(asks, FAllocator) && !Asked(asks, FCFree))
  }

  predicate FormatSays(format: OutputFormat, asks: seq<Ask>) {
    (format.Json? <==> Asked(asks, FJson)) && (format.Plain? <==> Asked(asks, FPlain))
  }

  /** The target axis and the native layer say their flags; only a native triple enters the layer. */
  predicate TargetSays(wasm: WasmKind, layer: StaticLayer, asks: seq<Ask>) {
    && (wasm.Client? <==> ValueOf(asks, FTarget) == Some("wasm"))
    && (wasm.Wasi? <==> ValueOf(asks, FTarget) == Some("wasi"))
    && layer.target == (if wasm.NoWasm? then ValueOf(asks, FTarget) else None)
    && layer.staticBuild == (if Asked(asks, FStatic) then Some(true) else None)
    && layer.cFree == (if Asked(asks, FCFree) then Some(true) else None)
    && (layer.allocator.Some? <==> Asked(asks, FAllocator))
    && (layer.allocator.Some? ==> ValueOf(asks, FAllocator) == Some(AllocatorWord(layer.allocator.value)))
  }

  /** Each field of a build says its own flag. */
  predicate BuildSays(a: BuildArgs, asks: seq<Ask>) {
    && a.runtime == ValueOf(asks, FRuntime) && a.emitPermissions == ValueOf(asks, FEmitPermissions)
    && (a.fix <==> Asked(asks, FFix)) && (a.acceptRisks <==> Asked(asks, FAcceptRisks))
    && (a.debugger <==> Asked(asks, FDebugger)) && (a.quiet <==> Asked(asks, FQuiet))
    && FormatSays(a.format, asks) && (a.mode.EmitIr? <==> Asked(asks, FEmitIr))
    && (a.mode.Emit? ==> a.mode.out == ValueOf(asks, FOut) && TargetSays(a.mode.wasm, a.mode.layer, asks))
  }

  /** Each field of a run says its own flag. */
  predicate RunSays(a: RunArgs, asks: seq<Ask>) {
    && a.out == ValueOf(asks, FOut) && a.runtime == ValueOf(asks, FRuntime)
    && (a.acceptRisks <==> Asked(asks, FAcceptRisks))
    && (a.debugger <==> Asked(asks, FDebugger)) && (a.quiet <==> Asked(asks, FQuiet))
    && FormatSays(a.format, asks) && TargetSays(a.wasm, a.layer, asks)
    && (a.session.Record? <==> Asked(asks, FRecord)) && (a.session.Replay? <==> Asked(asks, FReplay))
    && (a.session.Replay? ==> a.session.log == ValueOf(asks, FReplay))
  }

  // ---- finishing ----

  lemma {:induction false} TargetWordsDiffer(t: TargetTriple)
    ensures TargetWord(t) == "wasm" <==> t.BrowserWasm?
    ensures TargetWord(t) == "wasi" <==> t.Wasm32Wasip1?
  {
    WordsParseBack(Script, Default, t);
    WordsParseBack(Script, Default, BrowserWasm);
    WordsParseBack(Script, Default, Wasm32Wasip1);
  }

  /** What filled slots say of the axes that must compose. */
  lemma {:induction false} AxesSay(s: Slots, asks: seq<Ask>)
    requires SlotsSay(s, asks) && (!Asked(asks, FTarget) ==> ValueOf(asks, FTarget) == None)
    ensures WasmKindOf(s.target).Client? <==> ValueOf(asks, FTarget) == Some("wasm")
    ensures WasmKindOf(s.target).Wasi? <==> ValueOf(asks, FTarget) == Some("wasi")
    ensures s.target.Some? && s.target.value.Native? ==>
      ValueOf(asks, FTarget) == Some(TripleText(s.target.value.triple))
    ensures s.isStatic <==> Asked(asks, FStatic)
    ensures s.cFree <==> Asked(asks, FCFree)
    ensures s.allocator.Some? <==> Asked(asks, FAllocator)
    ensures s.target.Some? <==> Asked(asks, FTarget)
    ensures s.out.Some? <==> Asked(asks, FOut)
    ensures s.emitIr <==> Asked(asks, FEmitIr)
    ensures s.allocator.Some? ==> ValueOf(asks, FAllocator) == Some(AllocatorWord(s.allocator.value))
  {
    assert SaysAt(s, asks, FTarget) && SaysAt(s, asks, FStatic) && SaysAt(s, asks, FCFree) && SaysAt(s, asks, FOut);
    assert SaysAt(s, asks, FAllocator) && SaysAt(s, asks, FEmitIr);
    if s.target.Some? { TargetWordsDiffer(s.target.value); }
  }

  lemma {:induction false} UnaskedHasNoValue(asks: seq<Ask>, f: Flag)
    requires !Asked(asks, f)
    ensures ValueOf(asks, f) == None
  {
    if asks != [] {
      var front := asks[..|asks| - 1];
      assert asks[|asks| - 1].flag != Some(f);
      forall j | 0 <= j < |front| ensures front[j].flag != Some(f) { assert asks[j].flag != Some(f); }
      UnaskedHasNoValue(front, f);
    }
  }

  lemma {:induction false} LayerSays(s: Slots, asks: seq<Ask>)
    requires SlotsSay(s, asks)
    requires WasmAsked(asks) ==> !Asked(asks, FStatic) && !Asked(asks, FAllocator) && !Asked(asks, FCFree)
    ensures var wasm := WasmKindOf(s.target);
      TargetSays(wasm, if wasm.NoWasm? then LayerOf(s) else EMPTY_LAYER, asks)
  {
    if !Asked(asks, FTarget) { UnaskedHasNoValue(asks, FTarget); }
    AxesSay(s, asks);
  }

  lemma {:induction false} SharedSay(s: Slots, asks: seq<Ask>)
    requires SlotsSay(s, asks)
    ensures s.out == ValueOf(asks, FOut) && s.runtime == ValueOf(asks, FRuntime)
    ensures s.emitPermissions == ValueOf(asks, FEmitPermissions)
    ensures (s.fix <==> Asked(asks, FFix)) && (s.acceptRisks <==> Asked(asks, FAcceptRisks))
    ensures (s.debugger <==> Asked(asks, FDebugger)) && (s.quiet <==> Asked(asks, FQuiet))
  {
    assert SaysAt(s, asks, FOut) && SaysAt(s, asks, FRuntime) && SaysAt(s, asks, FEmitPermissions);
    assert SaysAt(s, asks, FFix) && SaysAt(s, asks, FAcceptRisks);
    assert SaysAt(s, asks, FDebugger) && SaysAt(s, asks, FQuiet);
  }

  lemma {:induction false} ModesSay(s: Slots, asks: seq<Ask>)
    requires SlotsSay(s, asks)
    ensures FormatSays(s.format.GetOr(Human), asks)
    ensures (s.session.Record? <==> Asked(asks, FRecord)) && (s.session.Replay? <==> Asked(asks, FReplay))
    ensures s.session.Replay? ==> s.session.log == ValueOf(asks, FReplay)
  {
    assert SaysAt(s, asks, FPlain) && SaysAt(s, asks, FJson);
    assert SaysAt(s, asks, FRecord) && SaysAt(s, asks, FReplay);
  }

  /** The refusals of a build name a combination that was asked for. */
  predicate BuildConflict(e: UsageError, asks: seq<Ask>) {
    match e
    case StaticFlagsWithWasm => WasmAsked(asks) && (Asked(asks, FStatic) || Asked(asks, FAllocator))
    case CFreeWithWasm => WasmAsked(asks) && Asked(asks, FCFree)
    case EmitIrWithOut => Asked(asks, FEmitIr) && Asked(asks, FOut)
    case EmitIrWithStatic => Asked(asks, FEmitIr) && Asked(asks, FStatic)
    case EmitIrWithTarget => Asked(asks, FEmitIr) && Asked(asks, FTarget)
    case EmitIrWithAllocator => Asked(asks, FEmitIr) && Asked(asks, FAllocator)
    case EmitIrWithCFree => Asked(asks, FEmitIr) && Asked(asks, FCFree)
    case _ => false
  }

  predicate RunConflict(e: UsageError, asks: seq<Ask>) {
    match e
    case RunWasmTarget => ValueOf(asks, FTarget) == Some("wasm")
    case RunWasiNativeFlags =>
      && ValueOf(asks, FTarget) == Some("wasi")
      && (Asked(asks, FStatic) || Asked(asks, FAllocator) || Asked(asks, FCFree))
    case _ => false
  }

  /** The mode exists exactly when the asks compose, and says them. */
  lemma {:induction false} ModeExactly(s: Slots, asks: seq<Ask>)
    requires SlotsSay(s, asks)
    ensures match ModeOf(s)
      case Ok(EmitIr) => BuildComposes(asks) && Asked(asks, FEmitIr)
      case Ok(Emit(out, wasm, layer)) =>
        BuildComposes(asks) && !Asked(asks, FEmitIr) && out == ValueOf(asks, FOut) && TargetSays(wasm, layer, asks)
      case Err(e) => BuildConflict(e, asks)
  {
    if !Asked(asks, FTarget) { UnaskedHasNoValue(asks, FTarget); }
    AxesSay(s, asks);
    if ModeOf(s).Ok? {
      LayerSays(s, asks);
      SharedSay(s, asks);
    }
  }

  lemma {:induction false} BuildFinishesExactly(lead: Lead, s: Slots, asks: seq<Ask>)
    requires SlotsSay(s, asks)
    ensures match FinishBuild(lead, s)
      case Ok(a) => BuildComposes(asks) && BuildSays(a, asks) && a.entry == lead.entry && a.delivery == lead.delivery
      case Err(e) => BuildConflict(e, asks)
  {
    ModeExactly(s, asks);
    SharedSay(s, asks);
    ModesSay(s, asks);
  }

  lemma {:induction false} RunFinishesExactly(lead: Lead, s: Slots, binArgs: seq<string>, asks: seq<Ask>)
    requires SlotsSay(s, asks)
    ensures match FinishRun(lead, s, binArgs)
      case Ok(a) =>
        && RunComposes(asks) && RunSays(a, asks)
        && a.entry == lead.entry && a.delivery == lead.delivery && a.binArgs == binArgs
      case Err(e) => RunConflict(e, asks)
  {
    if !Asked(asks, FTarget) { UnaskedHasNoValue(asks, FTarget); }
    AxesSay(s, asks);
    SharedSay(s, asks);
    ModesSay(s, asks);
    if FinishRun(lead, s, binArgs).Ok? { LayerSays(s, asks); }
  }

  // ---- one value for each tail ----

  lemma {:induction false} TargetSaysOne(v: WasmKind, a: StaticLayer, w: WasmKind, b: StaticLayer, asks: seq<Ask>)
    requires TargetSays(v, a, asks) && TargetSays(w, b, asks)
    ensures v == w && a == b
  {
    if a.allocator.Some? {
      AllocatorReadsBack(a.allocator.value);
      AllocatorReadsBack(b.allocator.value);
    }
    assert "wasm"[3] != "wasi"[3];
  }

  lemma {:induction false} BuildSaysOne(a: BuildArgs, b: BuildArgs, asks: seq<Ask>)
    requires BuildSays(a, asks) && BuildSays(b, asks) && a.entry == b.entry && a.delivery == b.delivery
    ensures a == b
  {
    if a.mode.Emit? { TargetSaysOne(a.mode.wasm, a.mode.layer, b.mode.wasm, b.mode.layer, asks); }
    assert a.format == b.format;
  }

  lemma {:induction false} RunSaysOne(a: RunArgs, b: RunArgs, asks: seq<Ask>)
    requires RunSays(a, asks) && RunSays(b, asks)
    requires a.entry == b.entry && a.delivery == b.delivery && a.binArgs == b.binArgs
    ensures a == b
  {
    TargetSaysOne(a.wasm, a.layer, b.wasm, b.layer, asks);
    assert a.format == b.format && a.session == b.session;
  }

  // ---- ipe build ----

  /** The tail is this lead, then asks in order that compose, and the build says them. */
  ghost predicate BuildTail(tokens: seq<string>, lead: Lead, a: BuildArgs) {
    && Leads(tokens, lead) && a.entry == lead.entry && a.delivery == lead.delivery
    && InOrder(Build, Asks(lead.rest)) && BuildComposes(Asks(lead.rest)) && BuildSays(a, Asks(lead.rest))
  }

  /** A tail of `ipe build` is accepted as `a` exactly when it is such a tail. */
  lemma {:induction false} BuildExactly(tokens: seq<string>, a: BuildArgs)
    ensures BuildArgsOf(tokens) == Ok(a) <==> exists lead :: BuildTail(tokens, lead, a)
  {
    if LeadOf(tokens).Ok? {
      var lead := LeadOf(tokens).value;
      LeadExactly(tokens, lead);
      LoopExactly(Build, lead.rest);
      if Loop(Build, START, lead.rest).Ok? {
        BuildFinishesExactly(lead, Loop(Build, START, lead.rest).value, Asks(lead.rest));
        if BuildArgsOf(tokens) == Ok(a) {
          assert BuildTail(tokens, lead, a);
        }
      }
    }
    if exists lead :: BuildTail(tokens, lead, a) {
      var lead :| BuildTail(tokens, lead, a);
      BuildTailReads(tokens, lead, a);
    }
  }

  lemma {:induction false} BuildTailReads(tokens: seq<string>, lead: Lead, a: BuildArgs)
    requires BuildTail(tokens, lead, a)
    ensures BuildArgsOf(tokens) == Ok(a)
  {
    LeadExactly(tokens, lead);
    LoopExactly(Build, lead.rest);
    var s := Loop(Build, START, lead.rest).value;
    BuildFinishesExactly(lead, s, Asks(lead.rest));
    var r := FinishBuild(lead, s);
    if r.Ok? { BuildSaysOne(r.value, a, Asks(lead.rest)); }
  }

  /** A refused tail is refused for its first delivery word or ask out of order, or for asks that do not compose. */
  lemma {:induction false} BuildRefusedFor(tokens: seq<string>)
    requires BuildArgsOf(tokens).Err?
    ensures var e := BuildArgsOf(tokens).error;
      if LeadOf(tokens).Err? then e == LeadOf(tokens).error && e.DeliveryRefused?
      else
        var asks := Asks(LeadOf(tokens).value.rest);
        RefusedFor(Build, asks, e) || (InOrder(Build, asks) && BuildConflict(e, asks))
  {
    if LeadOf(tokens).Ok? {
      var lead := LeadOf(tokens).value;
      LoopExactly(Build, lead.rest);
      if Loop(Build, START, lead.rest).Ok? {
        BuildFinishesExactly(lead, Loop(Build, START, lead.rest).value, Asks(lead.rest));
      }
    } else {
      var entry, shape, words, rest, i := LeadRefused(tokens);
    }
  }

  // ---- ipe run ----

  /** The tail is `own`, which `ipe` reads, then the first `--` and what is forwarded, if anything is. */
  predicate DividedAs(tokens: seq<string>, own: seq<string>, binArgs: seq<string>) {
    "--" !in own && ((tokens == own && binArgs == []) || tokens == own + ["--"] + binArgs)
  }

  lemma {:induction false} DividedExactly(tokens: seq<string>, own: seq<string>, binArgs: seq<string>)
    ensures DividedAs(tokens, own, binArgs) <==> own == tokens[..DashDash(tokens)] && binArgs == BinArgs(tokens)
  {
    var n := DashDash(tokens);
    if DividedAs(tokens, own, binArgs) {
      assert forall i :: 0 <= i < |own| ==> tokens[i] == own[i] && own[i] in own;
      if tokens != own {
        assert tokens[|own|] == "--" && tokens[|own| + 1..] == binArgs && tokens[..|own|] == own;
      }
      SeparatorIs(tokens, |own|);
      assert tokens == own ==> tokens[..|own|] == own;
    }
    if own == tokens[..n] && binArgs == BinArgs(tokens) {
      assert forall i :: 0 <= i < |own| ==> own[i] == tokens[i];
      if n < |tokens| {
        assert tokens == tokens[..n] + ["--"] + tokens[n + 1..];
      } else {
        assert tokens == own;
      }
    }
  }

  ghost predicate RunTail(tokens: seq<string>, own: seq<string>, lead: Lead, a: RunArgs) {
    && DividedAs(tokens, own, a.binArgs)
    && Leads(own, lead) && a.entry == lead.entry && a.delivery == lead.delivery
    && InOrder(Run, Asks(lead.rest)) && RunComposes(Asks(lead.rest)) && RunSays(a, Asks(lead.rest))
  }

  /** A tail of `ipe run` is accepted as `a` exactly when it is such a tail. */
  lemma {:induction false} RunExactly(tokens: seq<string>, a: RunArgs)
    ensures RunArgsOf(tokens) == Ok(a) <==> exists own, lead :: RunTail(tokens, own, lead, a)
  {
    var own := tokens[..DashDash(tokens)];
    if RunArgsOf(tokens) == Ok(a) {
      var lead := LeadOf(own).value;
      LeadExactly(own, lead);
      LoopExactly(Run, lead.rest);
      RunFinishesExactly(lead, Loop(Run, START, lead.rest).value, BinArgs(tokens), Asks(lead.rest));
      DividedExactly(tokens, own, BinArgs(tokens));
      assert RunTail(tokens, own, lead, a);
    }
    if exists own, lead :: RunTail(tokens, own, lead, a) {
      var own, lead :| RunTail(tokens, own, lead, a);
      RunTailReads(tokens, own, lead, a);
    }
  }

  lemma {:induction false} RunTailReads(tokens: seq<string>, own: seq<string>, lead: Lead, a: RunArgs)
    requires RunTail(tokens, own, lead, a)
    ensures RunArgsOf(tokens) == Ok(a)
  {
    DividedExactly(tokens, own, a.binArgs);
    LeadExactly(own, lead);
    LoopExactly(Run, lead.rest);
    var s := Loop(Run, START, lead.rest).value;
    RunFinishesExactly(lead, s, a.binArgs, Asks(lead.rest));
    var r := FinishRun(lead, s, a.binArgs);
    if r.Ok? { RunSaysOne(r.value, a, Asks(lead.rest)); }
  }

  lemma {:induction false} RunRefusedFor(tokens: seq<string>)
    requires RunArgsOf(tokens).Err?
    ensures var e, own := RunArgsOf(tokens).error, tokens[..DashDash(tokens)];
      if LeadOf(own).Err? then e == LeadOf(own).error && e.DeliveryRefused?
      else
        var asks := Asks(LeadOf(own).value.rest);
        RefusedFor(Run, asks, e) || (InOrder(Run, asks) && RunConflict(e, asks))
  {
    var own := tokens[..DashDash(tokens)];
    if LeadOf(own).Ok? {
      var lead := LeadOf(own).value;
      LoopExactly(Run, lead.rest);
      if Loop(Run, START, lead.rest).Ok? {
        RunFinishesExactly(lead, Loop(Run, START, lead.rest).value, BinArgs(tokens), Asks(lead.rest));
      }
    } else {
      var entry, shape, words, rest, i := LeadRefused(own);
    }
  }
}
