/** Printing the settings of an `ipe build` or `ipe run` tail as flags, and reading them back. */
module CommandMeaning {
  import opened Prelude
  import opened Delivery
  import opened FormatFlags
  import opened CommandLine

  // ---- printing ----

  /** The independent settings of a tail. */
  datatype Kind = KStatic | KTarget | KAllocator | KCFree | KFormat | KOut | KRuntime | KEmitPermissions
                | KEmitIr | KFix | KAcceptRisks | KDebugger | KQuiet | KSession

  /** The setting is at its default, so no token asks for it. */
  predicate Unset(s: Slots, k: Kind) {
    Same(s, START, k)
  }

  /** The flag that asks for a setting. */
  function FlagFor(s: Slots, k: Kind): Flag {
    match k
    case KStatic => FStatic
    case KTarget => FTarget
    case KAllocator => FAllocator
    case KCFree => FCFree
    case KFormat => if s.format == Some(Plain) then FPlain else FJson
    case KOut => FOut
    case KRuntime => FRuntime
    case KEmitPermissions => FEmitPermissions
    case KEmitIr => FEmitIr
    case KFix => FFix
    case KAcceptRisks => FAcceptRisks
    case KDebugger => FDebugger
    case KQuiet => FQuiet
    case KSession => if s.session.Record? then FRecord else FReplay
  }

  /** The value that follows the flag, where there is one. */
  function Operand(s: Slots, k: Kind): Option<string> {
    match k
    case KTarget => if s.target.Some? then Some(TargetWord(s.target.value)) else None
    case KAllocator => if s.allocator.Some? then Some(AllocatorWord(s.allocator.value)) else None
    case KOut => s.out
    case KRuntime => s.runtime
    case KEmitPermissions => s.emitPermissions
    case KSession => if s.session.Replay? then s.session.log else None
    case _ => None
  }

  function OperandTokens(operand: Option<string>): seq<string> {
    if operand.Some? then [operand.value] else []
  }

  /** The tokens that ask for one setting. */
  function Piece(s: Slots, k: Kind): seq<string> {
    if Unset(s, k) then [] else [Spelling(FlagFor(s, k))] + OperandTokens(Operand(s, k))
  }

  function Print(s: Slots, ks: seq<Kind>): seq<string> {
    if ks == [] then [] else Piece(s, ks[0]) + Print(s, ks[1..])
  }

  const ORDER := [KStatic, KTarget, KAllocator, KCFree, KFormat, KOut, KRuntime, KEmitPermissions,
                  KEmitIr, KFix, KAcceptRisks, KDebugger, KQuiet, KSession]

  /** `a` with one setting taken from `b`. */
  function Copy(a: Slots, b: Slots, k: Kind): Slots {
    Slots(if k.KStatic? then b.isStatic else a.isStatic,
          if k.KTarget? then b.target else a.target,
          if k.KAllocator? then b.allocator else a.allocator,
          if k.KCFree? then b.cFree else a.cFree,
          if k.KFormat? then b.format else a.format,
          if k.KOut? then b.out else a.out,
          if k.KRuntime? then b.runtime else a.runtime,
          if k.KEmitPermissions? then b.emitPermissions else a.emitPermissions,
          if k.KEmitIr? then b.emitIr else a.emitIr,
          if k.KFix? then b.fix else a.fix,
          if k.KAcceptRisks? then b.acceptRisks else a.acceptRisks,
          if k.KDebugger? then b.debugger else a.debugger,
          if k.KQuiet? then b.quiet else a.quiet,
          if k.KSession? then b.session else a.session)
  }

  /** The two agree on one setting. */
  predicate Same(a: Slots, b: Slots, k: Kind) {
    match k
    case KStatic => a.isStatic == b.isStatic
    case KTarget => a.target == b.target
    case KAllocator => a.allocator == b.allocator
    case KCFree => a.cFree == b.cFree
    case KFormat => a.format == b.format
    case KOut => a.out == b.out
    case KRuntime => a.runtime == b.runtime
    case KEmitPermissions => a.emitPermissions == b.emitPermissions
    case KEmitIr => a.emitIr == b.emitIr
    case KFix => a.fix == b.fix
    case KAcceptRisks => a.acceptRisks == b.acceptRisks
    case KDebugger => a.debugger == b.debugger
    case KQuiet => a.quiet == b.quiet
    case KSession => a.session == b.session
  }

  /** The command has this setting, and no token is needed that it would read otherwise. */
  predicate PrintableAt(cmd: Command, s: Slots, k: Kind) {
    match k
    case KFormat => s.format != Some(Human)
    case KEmitPermissions => cmd.Build? || s.emitPermissions.None?
    case KEmitIr => cmd.Build? || !s.emitIr
    case KFix => cmd.Build? || !s.fix
    case KSession =>
      && (cmd.Run? || s.session.Live?)
      && (s.session.Replay? && s.session.log.Some? ==> !IsFlag(s.session.log.value))
    case _ => true
  }

  ghost predicate Printable(cmd: Command, s: Slots) {
    forall k :: PrintableAt(cmd, s, k)
  }

  /** What the flag loop may be left to read: nothing, or a flag. */
  predicate AtFlag(rest: seq<string>) {
    rest == [] || IsFlag(rest[0])
  }

  // ---- each piece reads back ----

  lemma {:induction false} FlagTurn(cmd: Command, s: Slots, f: Flag, rest: seq<string>)
    ensures Loop(cmd, s, [Spelling(f)] + rest) ==
      match Step(cmd, s, f, rest) case Ok(t) => Loop(cmd, t.slots, t.rest) case Err(e) => Err(e)
  {
    SpellingReadsBack(f);
    var tokens := [Spelling(f)] + rest;
    assert tokens[0] == Spelling(f) && tokens[1..] == rest;
  }

  predicate TakesOperand(k: Kind) {
    k.KTarget? || k.KAllocator? || k.KOut? || k.KRuntime? || k.KEmitPermissions?
  }

  lemma {:induction false} FormatRequested(cmd: Command, cur: Slots, format: OutputFormat, rest: seq<string>)
    requires cur.format == None && (format.Plain? || format.Json?)
    ensures Step(cmd, cur, if format.Plain? then FPlain else FJson, rest) ==
      Ok(Turn(cur.(format := Some(format)), rest))
  {
  }

  lemma {:induction false} FormatStep(cmd: Command, cur: Slots, s: Slots, rest: seq<string>)
    requires Unset(cur, KFormat) && !Unset(s, KFormat) && PrintableAt(cmd, s, KFormat)
    ensures Step(cmd, cur, FlagFor(s, KFormat), rest) == Ok(Turn(Copy(cur, s, KFormat), rest))
  {
    FormatRequested(cmd, cur, s.format.value, rest);
    assert Copy(cur, s, KFormat) == cur.(format := s.format);
  }

  lemma {:induction false} StaticStep(cmd: Command, cur: Slots, s: Slots, k: Kind, rest: seq<string>)
    requires k.KStatic? || k.KCFree?
    requires Unset(cur, k) && !Unset(s, k)
    ensures Step(cmd, cur, FlagFor(s, k), rest) == Ok(Turn(Copy(cur, s, k), rest))
  {
  }

  lemma {:induction false} SwitchStep(cmd: Command, cur: Slots, s: Slots, k: Kind, rest: seq<string>)
    requires !(TakesOperand(k) || k.KSession? || k.KFormat? || k.KStatic? || k.KCFree?)
    requires Unset(cur, k) && !Unset(s, k) && PrintableAt(cmd, s, k)
    ensures Step(cmd, cur, FlagFor(s, k), rest) == Ok(Turn(Copy(cur, s, k), rest))
  {
  }

  lemma {:induction false} ValueStep(cmd: Command, cur: Slots, s: Slots, k: Kind, tokens: seq<string>)
    requires TakesOperand(k)
    requires Unset(cur, k) && !Unset(s, k) && PrintableAt(cmd, s, k)
    requires tokens != [] && Operand(s, k) == Some(tokens[0])
    ensures Step(cmd, cur, FlagFor(s, k), tokens) == Ok(Turn(Copy(cur, s, k), tokens[1..]))
  {
    match k
    case KTarget => WordsParseBack(Script, Default, s.target.value);
    case KAllocator => AllocatorReadsBack(s.allocator.value);
    case _ =>
  }

  lemma {:induction false} SessionStep(cmd: Command, cur: Slots, s: Slots, tokens: seq<string>)
    requires Unset(cur, KSession) && !Unset(s, KSession) && PrintableAt(cmd, s, KSession)
    requires match Operand(s, KSession) case Some(log) => tokens != [] && tokens[0] == log case None => AtFlag(tokens)
    ensures Step(cmd, cur, FlagFor(s, KSession), tokens)
         == Ok(Turn(Copy(cur, s, KSession), if Operand(s, KSession).Some? then tokens[1..] else tokens))
  {
  }

  /** The tokens of one setting set it, and leave the rest to read. */
  lemma {:induction false} PieceReads(cmd: Command, cur: Slots, s: Slots, k: Kind, rest: seq<string>)
    requires Unset(cur, k) && PrintableAt(cmd, s, k) && AtFlag(rest)
    ensures Loop(cmd, cur, Piece(s, k) + rest) == Loop(cmd, Copy(cur, s, k), rest)
  {
    if Unset(s, k) {
      assert [] + rest == rest;
      NothingToSay(cur, s, k);
    } else {
      var tokens := OperandTokens(Operand(s, k)) + rest;
      assert Piece(s, k) + rest == [Spelling(FlagFor(s, k))] + tokens;
      FlagTurn(cmd, cur, FlagFor(s, k), tokens);
      PieceStep(cmd, cur, s, k, rest, tokens);
    }
  }

  lemma {:induction false} PieceStep(
      cmd: Command, cur: Slots, s: Slots, k: Kind, rest: seq<string>, tokens: seq<string>)
    requires Unset(cur, k) && !Unset(s, k) && PrintableAt(cmd, s, k) && AtFlag(rest)
    requires tokens == OperandTokens(Operand(s, k)) + rest
    ensures Step(cmd, cur, FlagFor(s, k), tokens) == Ok(Turn(Copy(cur, s, k), rest))
  {
    if Operand(s, k).Some? {
      assert tokens[0] == Operand(s, k).value && tokens[1..] == rest;
    } else {
      assert tokens == rest;
    }
    if k.KSession? {
      SessionStep(cmd, cur, s, tokens);
    } else if TakesOperand(k) {
      SetHasOperand(s, k);
      ValueStep(cmd, cur, s, k, tokens);
    } else if k.KFormat? {
      FormatStep(cmd, cur, s, tokens);
    } else if k.KStatic? || k.KCFree? {
      StaticStep(cmd, cur, s, k, tokens);
    } else {
      SwitchStep(cmd, cur, s, k, tokens);
    }
  }

  lemma {:induction false} SetHasOperand(s: Slots, k: Kind)
    requires TakesOperand(k)
    requires !Unset(s, k)
    ensures Operand(s, k).Some?
  {
  }

  lemma {:induction false} NothingToSay(cur: Slots, s: Slots, k: Kind)
    requires Unset(cur, k) && Unset(s, k)
    ensures Copy(cur, s, k) == cur
  {
  }

  lemma {:induction false} PieceStartsWithFlag(s: Slots, k: Kind, rest: seq<string>)
    requires AtFlag(rest)
    ensures AtFlag(Piece(s, k) + rest)
  {
    if Unset(s, k) {
      assert [] + rest == rest;
    } else {
      SpellingReadsBack(FlagFor(s, k));
    }
  }

  lemma {:induction false} PrintStartsWithFlag(s: Slots, ks: seq<Kind>)
    ensures AtFlag(Print(s, ks))
  {
    if ks != [] {
      PrintStartsWithFlag(s, ks[1..]);
      PieceStartsWithFlag(s, ks[0], Print(s, ks[1..]));
    }
  }

  function CopyAll(cur: Slots, s: Slots, ks: seq<Kind>): Slots
    decreases |ks|
  {
    if ks == [] then cur else CopyAll(Copy(cur, s, ks[0]), s, ks[1..])
  }

  lemma {:induction false} CopyHere(cur: Slots, s: Slots, k: Kind)
    ensures Same(Copy(cur, s, k), s, k)
  {
  }

  lemma {:induction false} CopyElsewhere(cur: Slots, s: Slots, k: Kind, j: Kind, ref: Slots)
    requires j != k && Same(cur, ref, j)
    ensures Same(Copy(cur, s, k), ref, j)
  {
  }

  lemma {:induction false} PrintReads(cmd: Command, cur: Slots, s: Slots, ks: seq<Kind>)
    requires forall i, j :: 0 <= i < j < |ks| ==> ks[i] != ks[j]
    requires forall i :: 0 <= i < |ks| ==> Unset(cur, ks[i]) && PrintableAt(cmd, s, ks[i])
    ensures Loop(cmd, cur, Print(s, ks)) == Ok(CopyAll(cur, s, ks))
    decreases |ks|
  {
    if ks != [] {
      PrintStartsWithFlag(s, ks[1..]);
      PieceReads(cmd, cur, s, ks[0], Print(s, ks[1..]));
      forall i | 0 <= i < |ks[1..]| ensures Unset(Copy(cur, s, ks[0]), ks[1..][i]) {
        CopyElsewhere(cur, s, ks[0], ks[i + 1], START);
      }
      PrintReads(cmd, Copy(cur, s, ks[0]), s, ks[1..]);
    }
  }

  lemma {:induction false} CopyAllCopies(cur: Slots, s: Slots, ks: seq<Kind>, k: Kind)
    requires k in ks || Same(cur, s, k)
    ensures Same(CopyAll(cur, s, ks), s, k)
    decreases |ks|
  {
    if ks != [] {
      if ks[0] == k {
        CopyHere(cur, s, k);
      } else if Same(cur, s, k) {
        CopyElsewhere(cur, s, ks[0], k, s);
      }
      CopyAllCopies(Copy(cur, s, ks[0]), s, ks[1..], k);
    }
  }

  lemma {:induction false} OrderIsComplete(k: Kind)
    ensures k in ORDER
  {
    match k {
      case KStatic => assert ORDER[0] == k;
      case KTarget => assert ORDER[1] == k;
      case KAllocator => assert ORDER[2] == k;
      case KCFree => assert ORDER[3] == k;
      case KFormat => assert ORDER[4] == k;
      case KOut => assert ORDER[5] == k;
      case KRuntime => assert ORDER[6] == k;
      case KEmitPermissions => assert ORDER[7] == k;
      case KEmitIr => assert ORDER[8] == k;
      case KFix => assert ORDER[9] == k;
      case KAcceptRisks => assert ORDER[10] == k;
      case KDebugger => assert ORDER[11] == k;
      case KQuiet => assert ORDER[12] == k;
      case KSession => assert ORDER[13] == k;
    }
  }

  lemma {:induction false} SameEverywhere(a: Slots, b: Slots)
    requires forall k :: Same(a, b, k)
    ensures a == b
  {
    assert Same(a, b, KStatic) && Same(a, b, KTarget) && Same(a, b, KAllocator) && Same(a, b, KCFree) &&
      Same(a, b, KFormat);
    assert Same(a, b, KOut) && Same(a, b, KRuntime) && Same(a, b, KEmitPermissions) && Same(a, b, KEmitIr);
    assert Same(a, b, KFix) && Same(a, b, KAcceptRisks) && Same(a, b, KDebugger) && Same(a, b, KQuiet) &&
      Same(a, b, KSession);
  }

  /** The flag loop reads printed settings back. */
  lemma {:induction false} FlagsRoundTrip(cmd: Command, s: Slots)
    requires Printable(cmd, s)
    ensures Loop(cmd, START, Print(s, ORDER)) == Ok(s)
  {
    forall k ensures Unset(START, k) {}
    PrintReads(cmd, START, s, ORDER);
    forall k ensures Same(CopyAll(START, s, ORDER), s, k) {
      OrderIsComplete(k);
      CopyAllCopies(START, s, ORDER, k);
    }
    SameEverywhere(CopyAll(START, s, ORDER), s);
  }
}
