/**
 * Which tails of `ipe build` and `ipe run` are accepted, and what they mean,
 * read off the tokens: a tail is a leading part of words, then asks, each one
 * flag and, where it takes one, its value.
 */
module CommandAsks {
  import opened Prelude
  import opened Delivery
  import opened FormatFlags
  import opened CommandLine

  // ---- the tokens as asks ----

  /** A token is a flag exactly when it is its spelling; `-q` is short for `--quiet`. */
  lemma {:induction false} FlagOfExactly(token: string, f: Flag)
    ensures FlagOf(token) == Some(f) <==> token == Spelling(f) || (f.FQuiet? && token == "-q")
  {
    SpellingReadsBack(f);
    assert |"-q"| == 2 && "-q"[1] == 'q';
  }

  predicate OptionFlag(f: Flag) {
    f.FTarget? || f.FAllocator? || f.FOut? || f.FRuntime? || f.FEmitPermissions?
  }

  predicate FormatFlag(f: Flag) { f.FPlain? || f.FJson? }

  predicate SessionFlag(f: Flag) { f.FRecord? || f.FReplay? }

  /** The flags of each command. */
  predicate OfCommand(cmd: Command, f: Flag) {
    match f
    case FEmitPermissions => cmd.Build?
    case FEmitIr => cmd.Build?
    case FFix => cmd.Build?
    case FRecord => cmd.Run?
    case FReplay => cmd.Run?
    case _ => true
  }

  /** One flag with the value that follows it; a token that is no flag asks for nothing. */
  datatype Ask = Ask(flag: Option<Flag>, value: Option<string>)

  /** An option takes the next token whatever it is, a replay takes it unless it is a flag. */
  function ValueAfter(f: Flag, rest: seq<string>): Option<string> {
    if rest != [] && (OptionFlag(f) || (f.FReplay? && !IsFlag(rest[0]))) then Some(rest[0]) else None
  }

  function FirstAsk(tokens: seq<string>): Ask
    requires tokens != []
  {
    match FlagOf(tokens[0])
    case None => Ask(None, None)
    case Some(f) => Ask(Some(f), ValueAfter(f, tokens[1..]))
  }

  function Asks(tokens: seq<string>): seq<Ask>
    decreases |tokens|
  {
    if tokens == [] then []
    else if FirstAsk(tokens).value.Some? then [FirstAsk(tokens)] + Asks(tokens[2..])
    else [FirstAsk(tokens)] + Asks(tokens[1..])
  }

  predicate Asked(asks: seq<Ask>, f: Flag) {
    exists j :: 0 <= j < |asks| && asks[j].flag == Some(f)
  }

  /** The value of the last ask for `f`. */
  function ValueOf(asks: seq<Ask>, f: Flag): Option<string> {
    if asks == [] then None
    else if asks[|asks| - 1].flag == Some(f) then asks[|asks| - 1].value
    else ValueOf(asks[..|asks| - 1], f)
  }

  lemma {:induction false} OneMore(seen: seq<Ask>, a: Ask, f: Flag)
    ensures Asked(seen + [a], f) <==> Asked(seen, f) || a.flag == Some(f)
    ensures ValueOf(seen + [a], f) == if a.flag == Some(f) then a.value else ValueOf(seen, f)
  {
    var all := seen + [a];
    assert all[|seen|] == a && all[..|seen|] == seen;
    assert forall j :: 0 <= j < |seen| ==> all[j] == seen[j];
  }

  predicate IsTargetWord(word: string) {
    || word == "wasm" || word == "wasi"
    || word == "x86_64-unknown-linux-musl" || word == "aarch64-unknown-linux-musl"
  }

  predicate IsAllocatorWord(word: string) {
    word == "auto" || word == "system" || word == "dlmalloc" || word == "talc" || word == "mimalloc"
  }

  /** Nothing like it may have been asked before. */
  predicate OnlyOnce(f: Flag) { OptionFlag(f) || FormatFlag(f) || SessionFlag(f) }

  /** What is wrong with an ask, given those before it. */
  ghost function AskError(cmd: Command, before: seq<Ask>, a: Ask): Option<UsageError> {
    if a.flag.None? || !OfCommand(cmd, a.flag.value) then Some(UnknownFlag)
    else
      var f := a.flag.value;
      if OptionFlag(f) && a.value.None? then Some(FlagNeedsValue)
      else if f.FTarget? && !IsTargetWord(a.value.value) then Some(UnsupportedTarget)
      else if f.FAllocator? && !IsAllocatorWord(a.value.value) then Some(UnknownAllocator)
      else if OnlyOnce(f) && Asked(before, f) then Some(FlagRepeated)
      else if FormatFlag(f) && (Asked(before, FPlain) || Asked(before, FJson)) then Some(PlainJsonExclusive)
      else if SessionFlag(f) && (Asked(before, FRecord) || Asked(before, FReplay)) then Some(SessionFlagsExclusive)
      else None
  }

  ghost predicate InOrder(cmd: Command, asks: seq<Ask>) {
    forall i :: 0 <= i < |asks| ==> AskError(cmd, asks[..i], asks[i]) == None
  }

  /** The ask at `i` is the first out of order, and this is what is wrong with it. */
  ghost predicate FirstWrong(cmd: Command, asks: seq<Ask>, i: int, e: UsageError) {
    0 <= i < |asks| && InOrder(cmd, asks[..i]) && AskError(cmd, asks[..i], asks[i]) == Some(e)
  }

  /** Some ask is the first out of order, for this reason. */
  ghost predicate RefusedFor(cmd: Command, asks: seq<Ask>, e: UsageError) {
    exists i :: FirstWrong(cmd, asks, i, e)
  }

  // ---- the slots say what was asked ----

  /** What the slots say about one flag: whether it was asked for, and with which value. */
  predicate SaysAt(s: Slots, asks: seq<Ask>, f: Flag) {
    match f
    case FStatic => s.isStatic <==> Asked(asks, f)
    case FTarget =>
      && (s.target.Some? <==> Asked(asks, f))
      && (s.target.Some? ==> ValueOf(asks, f) == Some(TargetWord(s.target.value)))
    case FAllocator =>
      && (s.allocator.Some? <==> Asked(asks, f))
      && (s.allocator.Some? ==> ValueOf(asks, f) == Some(AllocatorWord(s.allocator.value)))
    case FCFree => s.cFree <==> Asked(asks, f)
    case FPlain => (s.format == Some(Plain) <==> Asked(asks, f)) && s.format != Some(Human)
    case FJson => s.format == Some(Json) <==> Asked(asks, f)
    case FOut => (s.out.Some? <==> Asked(asks, f)) && s.out == ValueOf(asks, f)
    case FRuntime => (s.runtime.Some? <==> Asked(asks, f)) && s.runtime == ValueOf(asks, f)
    case FEmitPermissions => (s.emitPermissions.Some? <==> Asked(asks, f)) && s.emitPermissions == ValueOf(asks, f)
    case FEmitIr => s.emitIr <==> Asked(asks, f)
    case FFix => s.fix <==> Asked(asks, f)
    case FAcceptRisks => s.acceptRisks <==> Asked(asks, f)
    case FDebugger => s.debugger <==> Asked(asks, f)
    case FQuiet => s.quiet <==> Asked(asks, f)
    case FRecord => s.session.Record? <==> Asked(asks, f)
    case FReplay =>
      (s.session.Replay? <==> Asked(asks, f)) && (s.session.Replay? ==> s.session.log == ValueOf(asks, f))
  }

  ghost predicate SlotsSay(s: Slots, asks: seq<Ask>) {
    forall f :: SaysAt(s, asks, f)
  }

  /** Two states of the slots agree on what one flag asks for. */
  predicate AlikeAt(s: Slots, t: Slots, f: Flag) {
    match f
    case FStatic => s.isStatic == t.isStatic
    case FTarget => s.target == t.target
    case FAllocator => s.allocator == t.allocator
    case FCFree => s.cFree == t.cFree
    case FPlain => s.format == t.format || (s.format in {None, Some(Json)} && t.format in {None, Some(Json)})
    case FJson => s.format == Some(Json) <==> t.format == Some(Json)
    case FOut => s.out == t.out
    case FRuntime => s.runtime == t.runtime
    case FEmitPermissions => s.emitPermissions == t.emitPermissions
    case FEmitIr => s.emitIr == t.emitIr
    case FFix => s.fix == t.fix
    case FAcceptRisks => s.acceptRisks == t.acceptRisks
    case FDebugger => s.debugger == t.debugger
    case FQuiet => s.quiet == t.quiet
    case FRecord => s.session.Record? <==> t.session.Record?
    case FReplay => s.session.Replay? == t.session.Replay? && (s.session.Replay? ==> s.session == t.session)
  }

  lemma {:induction false} SaysStill(s: Slots, t: Slots, seen: seq<Ask>, a: Ask, f: Flag)
    requires SaysAt(s, seen, f) && AlikeAt(s, t, f) && a.flag != Some(f)
    ensures SaysAt(t, seen + [a], f)
  {
    OneMore(seen, a, f);
  }

  // ---- one turn ----

  lemma {:induction false} VocabularyExactly(word: string)
    ensures TargetFromFlag(word).Some? <==> IsTargetWord(word)
    ensures TargetFromFlag(word).Some? ==> TargetWord(TargetFromFlag(word).value) == word
    ensures AllocatorParse(word).Some? <==> IsAllocatorWord(word)
    ensures AllocatorParse(word).Some? ==> AllocatorWord(AllocatorParse(word).value) == word
  {
    if TargetFromFlag(word).Some? { WordsExactly(word, Script, Default, TargetFromFlag(word).value); }
  }

  /** A turn fails for the ask's error, or leaves the tokens after the ask. */
  ghost predicate StepFits(cmd: Command, s: Slots, seen: seq<Ask>, f: Flag, rest: seq<string>) {
    var value, r := ValueAfter(f, rest), Step(cmd, s, f, rest);
    match AskError(cmd, seen, Ask(Some(f), value))
    case Some(e) => r == Err(e)
    case None => r.Ok? && r.value.rest == (if value.Some? then rest[1..] else rest)
  }

  lemma {:induction false} VocabularyFits(cmd: Command, s: Slots, seen: seq<Ask>, f: Flag, rest: seq<string>)
    requires (f.FTarget? || f.FAllocator?) && SaysAt(s, seen, f)
    ensures StepFits(cmd, s, seen, f, rest)
  {
    if rest != [] { VocabularyExactly(rest[0]); }
  }

  lemma {:induction false} OptionFits(cmd: Command, s: Slots, seen: seq<Ask>, f: Flag, rest: seq<string>)
    requires OptionFlag(f) && !f.FTarget? && !f.FAllocator? && SaysAt(s, seen, f)
    ensures StepFits(cmd, s, seen, f, rest)
  {
  }

  lemma {:induction false} ModeFits(cmd: Command, s: Slots, seen: seq<Ask>, f: Flag, rest: seq<string>)
    requires FormatFlag(f) || SessionFlag(f)
    requires SaysAt(s, seen, FPlain) && SaysAt(s, seen, FJson)
    requires SaysAt(s, seen, FRecord) && SaysAt(s, seen, FReplay)
    ensures StepFits(cmd, s, seen, f, rest)
  {
  }

  lemma {:induction false} SwitchFits(cmd: Command, s: Slots, seen: seq<Ask>, f: Flag, rest: seq<string>)
    requires !OnlyOnce(f)
    ensures StepFits(cmd, s, seen, f, rest)
  {
  }

  /** A turn changes nothing another flag asks for. */
  lemma {:induction false} OptionAlike(cmd: Command, s: Slots, f: Flag, rest: seq<string>, g: Flag)
    requires OptionFlag(f) && g != f && Step(cmd, s, f, rest).Ok?
    ensures AlikeAt(s, Step(cmd, s, f, rest).value.slots, g)
  {
  }

  lemma {:induction false} FormatAlike(cmd: Command, s: Slots, f: Flag, rest: seq<string>, g: Flag)
    requires FormatFlag(f) && g != f && Step(cmd, s, f, rest).Ok?
    ensures AlikeAt(s, Step(cmd, s, f, rest).value.slots, g)
  {
    var t := Step(cmd, s, f, rest).value.slots;
    assert t == s.(format := Some(if f.FPlain? then Plain else Json)) && s.format == None;
  }

  lemma {:induction false} SessionAlike(cmd: Command, s: Slots, f: Flag, rest: seq<string>, g: Flag)
    requires SessionFlag(f) && g != f && Step(cmd, s, f, rest).Ok?
    ensures AlikeAt(s, Step(cmd, s, f, rest).value.slots, g)
  {
    var t := Step(cmd, s, f, rest).value.slots;
    assert t == s.(session := if f.FRecord? then Record else Replay(ReplayLog(rest))) && s.session == Live;
  }

  /** What a switch sets. */
  function Switched(s: Slots, f: Flag): Slots {
    s.(isStatic := s.isStatic || f.FStatic?, cFree := s.cFree || f.FCFree?, emitIr := s.emitIr || f.FEmitIr?,
       fix := s.fix || f.FFix?, acceptRisks := s.acceptRisks || f.FAcceptRisks?,
       debugger := s.debugger || f.FDebugger?, quiet := s.quiet || f.FQuiet?)
  }

  lemma {:induction false} SwitchSets(cmd: Command, s: Slots, f: Flag, rest: seq<string>)
    requires !OnlyOnce(f) && Step(cmd, s, f, rest).Ok?
    ensures Step(cmd, s, f, rest).value.slots == Switched(s, f)
  {
  }

  lemma {:induction false} SwitchAlike(cmd: Command, s: Slots, f: Flag, rest: seq<string>, g: Flag)
    requires !OnlyOnce(f) && g != f && Step(cmd, s, f, rest).Ok?
    ensures AlikeAt(s, Step(cmd, s, f, rest).value.slots, g)
  {
    SwitchSets(cmd, s, f, rest);
    SwitchedAlike(s, f, g);
  }

  lemma {:induction false} SwitchedAlike(s: Slots, f: Flag, g: Flag)
    requires g != f
    ensures AlikeAt(s, Switched(s, f), g)
  {
  }

  /** A turn leaves what its own flag asks for. */
  lemma {:induction false} OptionSays(cmd: Command, s: Slots, seen: seq<Ask>, f: Flag, rest: seq<string>)
    requires OptionFlag(f) && Step(cmd, s, f, rest).Ok?
    ensures SaysAt(Step(cmd, s, f, rest).value.slots, seen + [Ask(Some(f), ValueAfter(f, rest))], f)
  {
    OneMore(seen, Ask(Some(f), ValueAfter(f, rest)), f);
    VocabularyExactly(rest[0]);
  }

  lemma {:induction false} ModeSays(cmd: Command, s: Slots, seen: seq<Ask>, f: Flag, rest: seq<string>)
    requires (FormatFlag(f) || SessionFlag(f)) && Step(cmd, s, f, rest).Ok?
    ensures SaysAt(Step(cmd, s, f, rest).value.slots, seen + [Ask(Some(f), ValueAfter(f, rest))], f)
  {
    OneMore(seen, Ask(Some(f), ValueAfter(f, rest)), f);
  }

  lemma {:induction false} SwitchSays(cmd: Command, s: Slots, seen: seq<Ask>, f: Flag, rest: seq<string>)
    requires !OnlyOnce(f) && Step(cmd, s, f, rest).Ok?
    ensures SaysAt(Step(cmd, s, f, rest).value.slots, seen + [Ask(Some(f), ValueAfter(f, rest))], f)
  {
    OneMore(seen, Ask(Some(f), ValueAfter(f, rest)), f);
  }

  lemma {:induction false} TurnAlike(cmd: Command, s: Slots, f: Flag, rest: seq<string>, g: Flag)
    requires g != f && Step(cmd, s, f, rest).Ok?
    ensures AlikeAt(s, Step(cmd, s, f, rest).value.slots, g)
  {
    if OptionFlag(f) {
      OptionAlike(cmd, s, f, rest, g);
    } else if OnlyOnce(f) {
      if FormatFlag(f) { FormatAlike(cmd, s, f, rest, g); } else { SessionAlike(cmd, s, f, rest, g); }
    } else {
      SwitchAlike(cmd, s, f, rest, g);
    }
  }

  lemma {:induction false} TurnSays(cmd: Command, s: Slots, seen: seq<Ask>, f: Flag, rest: seq<string>)
    requires Step(cmd, s, f, rest).Ok?
    ensures SaysAt(Step(cmd, s, f, rest).value.slots, seen + [Ask(Some(f), ValueAfter(f, rest))], f)
  {
    if OptionFlag(f) {
      OptionSays(cmd, s, seen, f, rest);
    } else if OnlyOnce(f) {
      ModeSays(cmd, s, seen, f, rest);
    } else {
      SwitchSays(cmd, s, seen, f, rest);
    }
  }

  lemma {:induction false} TurnFits(cmd: Command, s: Slots, seen: seq<Ask>, f: Flag, rest: seq<string>)
    requires SlotsSay(s, seen)
    ensures StepFits(cmd, s, seen, f, rest)
  {
    assert SaysAt(s, seen, f) && SaysAt(s, seen, FPlain) && SaysAt(s, seen, FJson);
    assert SaysAt(s, seen, FRecord) && SaysAt(s, seen, FReplay);
    if f.FTarget? || f.FAllocator? {
      VocabularyFits(cmd, s, seen, f, rest);
    } else if OptionFlag(f) {
      OptionFits(cmd, s, seen, f, rest);
    } else if OnlyOnce(f) {
      ModeFits(cmd, s, seen, f, rest);
    } else {
      SwitchFits(cmd, s, seen, f, rest);
    }
  }

  /** A turn that goes on leaves slots that say one ask more. */
  lemma {:induction false} TurnSlots(cmd: Command, s: Slots, seen: seq<Ask>, f: Flag, rest: seq<string>)
    requires SlotsSay(s, seen) && Step(cmd, s, f, rest).Ok?
    ensures SlotsSay(Step(cmd, s, f, rest).value.slots, seen + [Ask(Some(f), ValueAfter(f, rest))])
  {
    var t, a := Step(cmd, s, f, rest).value.slots, Ask(Some(f), ValueAfter(f, rest));
    forall g ensures SaysAt(t, seen + [a], g) {
      if g == f {
        TurnSays(cmd, s, seen, f, rest);
      } else {
        TurnAlike(cmd, s, f, rest, g);
        assert SaysAt(s, seen, g);
        SaysStill(s, t, seen, a, g);
      }
    }
  }

  // ---- the whole loop ----

  lemma {:induction false} InOrderOneMore(cmd: Command, asks: seq<Ask>, n: nat)
    requires n < |asks| && InOrder(cmd, asks[..n]) && AskError(cmd, asks[..n], asks[n]) == None
    ensures InOrder(cmd, asks[..n + 1])
  {
    var longer := asks[..n + 1];
    forall i | 0 <= i < |longer| ensures AskError(cmd, longer[..i], longer[i]) == None {
      assert longer[..i] == if i < n then asks[..n][..i] else asks[..n];
    }
  }

  lemma {:induction false} LoopExactlyFrom(cmd: Command, s: Slots, asks: seq<Ask>, n: nat, tokens: seq<string>)
    requires n <= |asks| && asks[n..] == Asks(tokens)
    requires SlotsSay(s, asks[..n]) && InOrder(cmd, asks[..n])
    ensures match Loop(cmd, s, tokens)
      case Ok(t) => InOrder(cmd, asks) && SlotsSay(t, asks)
      case Err(e) => RefusedFor(cmd, asks, e)
    decreases |tokens|
  {
    if tokens == [] {
      assert asks[..n] == asks;
    } else {
      assert asks[n..][0] == asks[n] == FirstAsk(tokens) && asks[n..][1..] == asks[n + 1..];
      var f := FlagOf(tokens[0]);
      if f.Some? {
        TurnFits(cmd, s, asks[..n], f.value, tokens[1..]);
      }
      if AskError(cmd, asks[..n], asks[n]) == None {
        var t := Step(cmd, s, f.value, tokens[1..]).value;
        TurnSlots(cmd, s, asks[..n], f.value, tokens[1..]);
        InOrderOneMore(cmd, asks, n);
        assert asks[..n] + [asks[n]] == asks[..n + 1];
        if |tokens| > 1 { assert tokens[1..][1..] == tokens[2..]; }
        assert Loop(cmd, s, tokens) == Loop(cmd, t.slots, t.rest);
        LoopExactlyFrom(cmd, t.slots, asks, n + 1, t.rest);
      } else {
        var e := AskError(cmd, asks[..n], asks[n]).value;
        assert Loop(cmd, s, tokens) == Err(e);
        assert FirstWrong(cmd, asks, n, e);
      }
    }
  }

  /**
   * The flag loop accepts exactly the tails whose asks are in order, and its slots
   * then say what was asked; a refused tail is refused for its first ask out of
   * order.
   */
  lemma {:induction false} LoopExactly(cmd: Command, tokens: seq<string>)
    ensures Loop(cmd, START, tokens).Ok? <==> InOrder(cmd, Asks(tokens))
    ensures Loop(cmd, START, tokens).Ok? ==> SlotsSay(Loop(cmd, START, tokens).value, Asks(tokens))
    ensures Loop(cmd, START, tokens).Err? ==> RefusedFor(cmd, Asks(tokens), Loop(cmd, START, tokens).error)
  {
    var asks := Asks(tokens);
    assert asks[..0] == [] && asks[0..] == asks;
    LoopExactlyFrom(cmd, START, asks, 0, tokens);
  }
}
