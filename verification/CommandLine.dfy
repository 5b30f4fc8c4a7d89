/** The argument tails of `ipe build` and `ipe run`, and how they are read. */
module CommandLine {
  import opened Prelude
  import opened Delivery
  import opened FormatFlags

  datatype Command = Build | Run

  datatype Allocator = Auto | System | Dlmalloc | Talc | Mimalloc

  /** What a run does with the program's session. */
  datatype Session = Live | Record | Replay(log: Option<string>)

  /** The flags of the two commands. */
  datatype Flag = FStatic | FTarget | FAllocator | FCFree | FPlain | FJson | FOut | FRuntime | FEmitPermissions
                | FEmitIr | FFix | FAcceptRisks | FDebugger | FQuiet | FRecord | FReplay

  function Spelling(f: Flag): string {
    match f
    case FStatic => "--static"
    case FTarget => "--target"
    case FAllocator => "--allocator"
    case FCFree => "--cfree"
    case FPlain => "--plain"
    case FJson => "--json"
    case FOut => "--out"
    case FRuntime => "--runtime"
    case FEmitPermissions => "--emit-permissions"
    case FEmitIr => "--emit-ir"
    case FFix => "--fix"
    case FAcceptRisks => "--accept-risks"
    case FDebugger => "--debugger"
    case FQuiet => "--quiet"
    case FRecord => "--record"
    case FReplay => "--replay"
  }

  function FlagOf(token: string): Option<Flag> {
    if token == "--plain" then Some(FPlain)
    else if token == "--json" then Some(FJson)
    else if token == "--static" then Some(FStatic)
    else if token == "--target" then Some(FTarget)
    else if token == "--allocator" then Some(FAllocator)
    else if token == "--cfree" then Some(FCFree)
    else if token == "--out" then Some(FOut)
    else if token == "--runtime" then Some(FRuntime)
    else if token == "--emit-permissions" then Some(FEmitPermissions)
    else if token == "--emit-ir" then Some(FEmitIr)
    else if token == "--fix" then Some(FFix)
    else if token == "--accept-risks" then Some(FAcceptRisks)
    else if token == "--debugger" then Some(FDebugger)
    else if token == "-q" || token == "--quiet" then Some(FQuiet)
    else if token == "--record" then Some(FRecord)
    else if token == "--replay" then Some(FReplay)
    else None
  }

  /** Length, then the first distinguishing character, tells every spelling apart. */
  lemma {:induction false} SpellingReadsBack(f: Flag)
    ensures FlagOf(Spelling(f)) == Some(f) && IsFlag(Spelling(f)) && Spelling(f) != "--"
  {
    var s := Spelling(f);
    assert |"-q"| == 2 && |"--out"| == |"--fix"| == 5 && |"--json"| == 6 &&
      |"--plain"| == |"--cfree"| == |"--quiet"| == 7;
    assert |"--static"| == |"--target"| == |"--record"| == |"--replay"| == 8;
    assert |"--runtime"| == |"--emit-ir"| == 9 && |"--debugger"| == 10 && |"--allocator"| == 11;
    assert |"--accept-risks"| == 14 && |"--emit-permissions"| == 18;
    assert "--out"[2] == 'o' && "--fix"[2] == 'f';
    assert "--plain"[2] == 'p' && "--cfree"[2] == 'c' && "--quiet"[2] == 'q';
    assert "--static"[2] == 's' && "--target"[2] == 't' && "--record"[4] == 'c' && "--replay"[4] == 'p';
    assert "--record"[2] == 'r' && "--replay"[2] == 'r' && "--runtime"[2] == 'r' && "--emit-ir"[2] == 'e';
  }

  /** The format flags are the same tokens here and in the peek. */
  lemma {:induction false} FormatsAgree(token: string)
    ensures FormatOf(token) == match FlagOf(token)
      case Some(FPlain) => Some(Plain)
      case Some(FJson) => Some(Json)
      case _ => None
  {
    assert |"--json"| == 6 && |"--plain"| == 7;
  }

  function AllocatorParse(word: string): Option<Allocator> {
    if word == "auto" then Some(Auto)
    else if word == "system" then Some(System)
    else if word == "dlmalloc" then Some(Dlmalloc)
    else if word == "talc" then Some(Talc)
    else if word == "mimalloc" then Some(Mimalloc)
    else None
  }

  function AllocatorWord(a: Allocator): string {
    match a
    case Auto => "auto"
    case System => "system"
    case Dlmalloc => "dlmalloc"
    case Talc => "talc"
    case Mimalloc => "mimalloc"
  }

  lemma {:induction false} AllocatorReadsBack(a: Allocator)
    ensures AllocatorParse(AllocatorWord(a)) == Some(a)
  {
    assert "auto"[0] == 'a' && "system"[0] == 's' && "dlmalloc"[0] == 'd' && "talc"[0] == 't' && "mimalloc"[0] == 'm';
  }

  /** The words of the closed vocabularies are not flags. */
  lemma {:induction false} VocabularyIsPlain(word: string)
    requires TargetFromFlag(word).Some? || AllocatorParse(word).Some?
    ensures !IsFlag(word)
  {
    assert "wasm"[0] == 'w' && "wasi"[0] == 'w' && "auto"[0] == 'a' && "system"[0] == 's';
    assert "dlmalloc"[0] == 'd' && "talc"[0] == 't' && "mimalloc"[0] == 'm';
    assert "x86_64-unknown-linux-musl"[0] == 'x' && "aarch64-unknown-linux-musl"[0] == 'a';
  }

  lemma {:induction false} FormatIsFlag(token: string)
    ensures !IsFlag(token) ==> FormatOf(token) == None
  {
  }

  // ---- the flag loop ----

  /** The locals the flag loop fills. */
  datatype Slots = Slots(isStatic: bool, target: Option<TargetTriple>, allocator: Option<Allocator>, cFree: bool,
                         format: Option<OutputFormat>, out: Option<string>, runtime: Option<string>,
                         emitPermissions: Option<string>, emitIr: bool, fix: bool, acceptRisks: bool, debugger: bool,
                         quiet: bool, session: Session)

  const START := Slots(false, None, None, false, None, None, None, None, false, false, false, false, false, Live)

  /** The slots after one flag, and the tokens still to read. */
  datatype Turn = Turn(slots: Slots, rest: seq<string>)

  function TakeValue(rest: seq<string>): Result<string, UsageError> {
    if rest == [] then Err(FlagNeedsValue) else Ok(rest[0])
  }

  function SetOnce<T>(slot: Option<T>, value: T): Result<Option<T>, UsageError> {
    if slot.Some? then Err(FlagRepeated) else Ok(Some(value))
  }

  function SetSession(slot: Session, mode: Session): Result<Session, UsageError> {
    match slot
    case Live => Ok(mode)
    case Record => Err(if mode.Replay? then SessionFlagsExclusive else FlagRepeated)
    case Replay(_) => Err(if mode.Record? then SessionFlagsExclusive else FlagRepeated)
  }

  /** A replay's log: the next token, unless it is a flag. */
  function ReplayLog(rest: seq<string>): Option<string> {
    if rest != [] && !IsFlag(rest[0]) then Some(rest[0]) else None
  }

  /** One turn of the flag loop of `parse_build` or `parse_run`. */
  function Step(cmd: Command, s: Slots, flag: Flag, rest: seq<string>): (r: Result<Turn, UsageError>)
    ensures r.Ok? ==> r.value.rest == rest || (rest != [] && r.value.rest == rest[1..])
  {
    match flag
    case FStatic => Ok(Turn(s.(isStatic := true), rest))
    case FTarget =>
      var v :- TakeValue(rest);
      if TargetFromFlag(v).None? then Err(UnsupportedTarget)
      else var t :- SetOnce(s.target, TargetFromFlag(v).value); Ok(Turn(s.(target := t), rest[1..]))
    case FAllocator =>
      var v :- TakeValue(rest);
      if AllocatorParse(v).None? then Err(UnknownAllocator)
      else var a :- SetOnce(s.allocator, AllocatorParse(v).value); Ok(Turn(s.(allocator := a), rest[1..]))
    case FCFree => Ok(Turn(s.(cFree := true), rest))
    case FPlain => var f :- Request(s.format, Plain); Ok(Turn(s.(format := f), rest))
    case FJson => var f :- Request(s.format, Json); Ok(Turn(s.(format := f), rest))
    case FOut => var v :- TakeValue(rest); var o :- SetOnce(s.out, v); Ok(Turn(s.(out := o), rest[1..]))
    case FRuntime => var v :- TakeValue(rest); var o :- SetOnce(s.runtime, v); Ok(Turn(s.(runtime := o), rest[1..]))
    case FEmitPermissions =>
      if cmd.Run? then Err(UnknownFlag)
      else
        var v :- TakeValue(rest);
        var p :- SetOnce(s.emitPermissions, v);
        Ok(Turn(s.(emitPermissions := p), rest[1..]))
    case FEmitIr => if cmd.Run? then Err(UnknownFlag) else Ok(Turn(s.(emitIr := true), rest))
    case FFix => if cmd.Run? then Err(UnknownFlag) else Ok(Turn(s.(fix := true), rest))
    case FAcceptRisks => Ok(Turn(s.(acceptRisks := true), rest))
    case FDebugger => Ok(Turn(s.(debugger := true), rest))
    case FQuiet => Ok(Turn(s.(quiet := true), rest))
    case FRecord =>
      if cmd.Build? then Err(UnknownFlag)
      else var m :- SetSession(s.session, Record); Ok(Turn(s.(session := m), rest))
    case FReplay =>
      if cmd.Build? then Err(UnknownFlag)
      else
        var log := ReplayLog(rest);
        var m :- SetSession(s.session, Replay(log));
        Ok(Turn(s.(session := m), if log.Some? then rest[1..] else rest))
  }

  /** The whole flag loop. */
  function Loop(cmd: Command, s: Slots, tokens: seq<string>): Result<Slots, UsageError>
    decreases |tokens|
  {
    if tokens == [] then Ok(s)
    else if FlagOf(tokens[0]).None? then Err(UnknownFlag)
    else
      var turn :- Step(cmd, s, FlagOf(tokens[0]).value, tokens[1..]);
      Loop(cmd, turn.slots, turn.rest)
  }

  /** The flag loop as it runs. */
  method ReadFlags(cmd: Command, tokens: seq<string>) returns (r: Result<Slots, UsageError>)
    ensures r == Loop(cmd, START, tokens)
  {
    var s, rest := START, tokens;
    while rest != []
      invariant Loop(cmd, s, rest) == Loop(cmd, START, tokens)
      decreases |rest|
    {
      var flag := FlagOf(rest[0]);
      if flag.None? {
        return Err(UnknownFlag);
      }
      var turn :- Step(cmd, s, flag.value, rest[1..]);
      s, rest := turn.slots, turn.rest;
    }
    return Ok(s);
  }

  // ---- the positionals ----

  predicate IsDeliveryWord(token: string) {
    ShapeFromWord(token).Some? || token == "solo" || token == "served" || HostFromWord(token).Some?
  }

  datatype Positionals = Positionals(shape: Option<Shape>, tail: Tokens)

  /** The leading entry path: the first token, unless it is a flag or a delivery word. */
  function LeadingEntry(tokens: seq<string>): Option<string> {
    if tokens != [] && !IsFlag(tokens[0]) && !IsDeliveryWord(tokens[0]) then Some(tokens[0]) else None
  }

  /** How many tokens precede the first flag. */
  function WordCount(tokens: seq<string>): (n: nat)
    ensures n <= |tokens| && (n < |tokens| ==> IsFlag(tokens[n]))
    ensures forall i :: 0 <= i < n ==> !IsFlag(tokens[i])
  {
    if tokens == [] || IsFlag(tokens[0]) then 0 else 1 + WordCount(tokens[1..])
  }

  /** `take_delivery_words` as it runs: the tokens before the first flag. */
  method TakeDeliveryWords(tokens: seq<string>) returns (words: seq<string>, rest: seq<string>)
    ensures words + rest == tokens && |words| == WordCount(tokens)
  {
    words, rest := [], tokens;
    while rest != [] && !IsFlag(rest[0])
      invariant words + rest == tokens && |words| + WordCount(rest) == WordCount(tokens)
      decreases |rest|
    {
      assert words + rest == (words + [rest[0]]) + rest[1..];
      words, rest := words + [rest[0]], rest[1..];
    }
  }

  function TakePositionals(words: seq<string>): Result<Positionals, UsageError> {
    var shape := if words == [] then None else ShapeFromWord(words[0]);
    match ParseTokens(if shape.Some? then words[1..] else words)
    case Ok(tail) => Ok(Positionals(shape, tail))
    case Err(why) => Err(DeliveryRefused(why))
  }

  /** What precedes the flags: the entry, the delivery positionals, and the tokens left for the loop. */
  datatype Lead = Lead(entry: Option<string>, delivery: Positionals, rest: seq<string>)

  function LeadAfter(entry: Option<string>, tokens: seq<string>): Result<Lead, UsageError> {
    var n := WordCount(tokens);
    var delivery :- TakePositionals(tokens[..n]);
    Ok(Lead(entry, delivery, tokens[n..]))
  }

  function LeadOf(tokens: seq<string>): Result<Lead, UsageError> {
    var entry := LeadingEntry(tokens);
    LeadAfter(entry, if entry.Some? then tokens[1..] else tokens)
  }

  method ReadLead(tokens: seq<string>) returns (r: Result<Lead, UsageError>)
    ensures r == LeadOf(tokens)
  {
    var entry, rest := LeadingEntry(tokens), tokens;
    if entry.Some? {
      rest := rest[1..];
    }
    var words, flags := TakeDeliveryWords(rest);
    assert words == rest[..|words|] && flags == rest[|words|..];
    var delivery :- TakePositionals(words);
    return Ok(Lead(entry, delivery, flags));
  }

  // ---- the parsed values ----

  datatype WasmKind = NoWasm | Client | Wasi

  function WasmKindOf(target: Option<TargetTriple>): WasmKind {
    match target
    case Some(BrowserWasm) => Client
    case Some(Wasm32Wasip1) => Wasi
    case _ => NoWasm
  }

  /** The command line's layer of the static request. */
  datatype StaticLayer = StaticLayer(
    staticBuild: Option<bool>, target: Option<string>, allocator: Option<Allocator>, cFree: Option<bool>)

  const EMPTY_LAYER := StaticLayer(None, None, None, None)

  function ThenTrue(b: bool): Option<bool> {
    if b then Some(true) else None
  }

  function LayerOf(s: Slots): StaticLayer {
    var target := if s.target.Some? && s.target.value.Native? then Some(TripleText(s.target.value.triple)) else None;
    StaticLayer(ThenTrue(s.isStatic), target, s.allocator, ThenTrue(s.cFree))
  }

  datatype BuildMode = EmitIr | Emit(out: Option<string>, wasm: WasmKind, layer: StaticLayer)

  datatype BuildArgs = BuildArgs(entry: Option<string>, delivery: Positionals, runtime: Option<string>, fix: bool,
                                 acceptRisks: bool, debugger: bool, mode: BuildMode, emitPermissions: Option<string>,
                                 format: OutputFormat, quiet: bool)

  datatype RunArgs = RunArgs(entry: Option<string>, delivery: Positionals, out: Option<string>, runtime: Option<string>,
                             layer: StaticLayer, wasm: WasmKind, acceptRisks: bool, debugger: bool, session: Session,
                             binArgs: seq<string>, format: OutputFormat, quiet: bool)

  function ModeOf(s: Slots): Result<BuildMode, UsageError> {
    var wasm := WasmKindOf(s.target);
    if !wasm.NoWasm? && (s.isStatic || s.allocator.Some?) then Err(StaticFlagsWithWasm)
    else if !wasm.NoWasm? && s.cFree then Err(CFreeWithWasm)
    else if s.emitIr then
      if s.out.Some? then Err(EmitIrWithOut)
      else if s.isStatic then Err(EmitIrWithStatic)
      else if s.target.Some? then Err(EmitIrWithTarget)
      else if s.allocator.Some? then Err(EmitIrWithAllocator)
      else if s.cFree then Err(EmitIrWithCFree)
      else Ok(EmitIr)
    else if !wasm.NoWasm? then Ok(Emit(s.out, wasm, EMPTY_LAYER))
    else Ok(Emit(s.out, NoWasm, LayerOf(s)))
  }

  function FinishBuild(lead: Lead, s: Slots): Result<BuildArgs, UsageError> {
    var mode :- ModeOf(s);
    Ok(BuildArgs(lead.entry, lead.delivery, s.runtime, s.fix, s.acceptRisks, s.debugger, mode, s.emitPermissions,
                 s.format.GetOr(Human), s.quiet))
  }

  function FinishRun(lead: Lead, s: Slots, binArgs: seq<string>): Result<RunArgs, UsageError> {
    var wasm := WasmKindOf(s.target);
    if wasm.Client? then Err(RunWasmTarget)
    else if wasm.Wasi? && (s.isStatic || s.allocator.Some? || s.cFree) then Err(RunWasiNativeFlags)
    else
      Ok(RunArgs(lead.entry, lead.delivery, s.out, s.runtime, if wasm.NoWasm? then LayerOf(s) else EMPTY_LAYER, wasm,
                 s.acceptRisks, s.debugger, s.session, binArgs, s.format.GetOr(Human), s.quiet))
  }

  function BuildArgsOf(tokens: seq<string>): Result<BuildArgs, UsageError> {
    var lead :- LeadOf(tokens);
    var s :- Loop(Build, START, lead.rest);
    FinishBuild(lead, s)
  }

  /** The index of the first `--`, or the length. */
  function DashDash(tokens: seq<string>): (n: nat)
    ensures n <= |tokens| && (n < |tokens| ==> tokens[n] == "--")
    ensures forall i :: 0 <= i < n ==> tokens[i] != "--"
  {
    if tokens == [] || tokens[0] == "--" then 0 else 1 + DashDash(tokens[1..])
  }

  /** The program's own arguments: everything after the first `--`. */
  function BinArgs(tokens: seq<string>): seq<string> {
    var n := DashDash(tokens);
    if n < |tokens| then tokens[n + 1..] else []
  }

  function RunArgsOf(tokens: seq<string>): Result<RunArgs, UsageError> {
    var lead :- LeadOf(tokens[..DashDash(tokens)]);
    var s :- Loop(Run, START, lead.rest);
    FinishRun(lead, s, BinArgs(tokens))
  }
}
