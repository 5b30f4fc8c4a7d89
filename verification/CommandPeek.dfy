/** How the early format peek compares with the parse of `ipe build` and `ipe run`, and the two parsers themselves. */
module CommandPeek {
  import opened Prelude
  import opened Delivery
  import opened FormatFlags
  import opened CommandLine
  import opened CommandMeaning
  import opened CommandTails

  // ---- the tail without the parse ----

  /** An option that takes the next token as its value. */
  predicate TakesValue(token: string) {
    FlagOf(token) in {Some(FTarget), Some(FAllocator), Some(FOut), Some(FRuntime), Some(FEmitPermissions)}
  }

  /** The tokens of a tail that follow a value option and are its value. */
  function Values(tokens: seq<string>): seq<string>
    decreases |tokens|
  {
    if |tokens| < 2 then []
    else if TakesValue(tokens[0]) then [tokens[1]] + Values(tokens[2..])
    else Values(tokens[1..])
  }

  /** The other tokens of the tail. */
  function Others(tokens: seq<string>): seq<string>
    decreases |tokens|
  {
    if |tokens| < 2 then tokens
    else if TakesValue(tokens[0]) then [tokens[0]] + Others(tokens[2..])
    else [tokens[0]] + Others(tokens[1..])
  }

  /** The peek sees both. */
  lemma {:induction false} PeekSeesBoth(tokens: seq<string>)
    ensures Peek(tokens) == Louder(Peek(Others(tokens)), Peek(Values(tokens)))
    decreases |tokens|
  {
    if tokens != [] {
      var first, rest := [tokens[0]], tokens[1..];
      assert tokens == first + rest;
      PeekConcat(first, rest);
      if !TakesValue(tokens[0]) {
        PeekSeesBoth(rest);
        PeekConcat(first, Others(rest));
        assert |tokens| == 1 ==> Values(rest) == [];
      } else if |tokens| > 1 {
        PeekSeesBoth(tokens[2..]);
        assert rest == [tokens[1]] + tokens[2..];
        PeekConcat([tokens[1]], tokens[2..]);
        PeekConcat(first, Others(tokens[2..]));
        PeekConcat([tokens[1]], Values(tokens[2..]));
      }
    }
  }

  // ---- the parse reads its format from the other tokens ----

  function FlagFormat(f: Flag): OutputFormat {
    match f case FPlain => Plain case FJson => Json case _ => Human
  }

  lemma {:induction false} StepFormat(cmd: Command, s: Slots, f: Flag, rest: seq<string>)
    requires Step(cmd, s, f, rest).Ok?
    ensures var t := Step(cmd, s, f, rest).value;
      t.slots.format.GetOr(Human) == Louder(s.format.GetOr(Human), FlagFormat(f))
  {
    if !f.FPlain? && !f.FJson? {
      StepKeepsFormat(cmd, s, f, rest);
    }
  }

  lemma {:induction false} StepKeepsFormat(cmd: Command, s: Slots, f: Flag, rest: seq<string>)
    requires Step(cmd, s, f, rest).Ok? && !f.FPlain? && !f.FJson?
    ensures Step(cmd, s, f, rest).value.slots.format == s.format
  {
    if f.FTarget? || f.FAllocator? {
      VocabularyKeepsFormat(cmd, s, f, rest);
    } else if f.FOut? || f.FRuntime? || f.FEmitPermissions? {
      ValueKeepsFormat(cmd, s, f, rest);
    } else {
      SwitchKeepsFormat(cmd, s, f, rest);
    }
  }

  lemma {:induction false} VocabularyKeepsFormat(cmd: Command, s: Slots, f: Flag, rest: seq<string>)
    requires Step(cmd, s, f, rest).Ok? && (f.FTarget? || f.FAllocator?)
    ensures Step(cmd, s, f, rest).value.slots.format == s.format
  {
  }

  lemma {:induction false} ValueKeepsFormat(cmd: Command, s: Slots, f: Flag, rest: seq<string>)
    requires Step(cmd, s, f, rest).Ok? && (f.FOut? || f.FRuntime? || f.FEmitPermissions?)
    ensures Step(cmd, s, f, rest).value.slots.format == s.format
  {
  }

  lemma {:induction false} SwitchKeepsFormat(cmd: Command, s: Slots, f: Flag, rest: seq<string>)
    requires Step(cmd, s, f, rest).Ok?
    requires f in {FStatic, FCFree, FEmitIr, FFix, FAcceptRisks, FDebugger, FQuiet, FRecord, FReplay}
    ensures Step(cmd, s, f, rest).value.slots.format == s.format
  {
  }

  /** What one turn leaves is what the walk over the tail leaves, but for a replay log, which is no flag. */
  lemma {:induction false} StepWalks(cmd: Command, s: Slots, token: string, f: Flag, rest: seq<string>)
    requires FlagOf(token) == Some(f) && Step(cmd, s, f, rest).Ok?
    ensures var t := Step(cmd, s, f, rest).value;
      Peek(Others([token] + rest)) == Louder(FlagFormat(f), Peek(Others(t.rest)))
  {
    var t := Step(cmd, s, f, rest).value;
    var tokens := [token] + rest;
    assert tokens[1..] == rest;
    FormatsAgree(token);
    PeekOne(token);
    if TakesValue(token) {
      assert tokens[2..] == t.rest;
      PeekConcat([token], Others(t.rest));
    } else {
      PeekConcat([token], Others(rest));
      if f.FReplay? && ReplayLog(rest).Some? {
        WordWalks(rest[0], rest[1..]);
        assert [rest[0]] + rest[1..] == rest;
        PeekConcat([rest[0]], Others(rest[1..]));
      }
    }
  }

  /** A token that is no flag takes no value and asks for no format. */
  lemma {:induction false} WordWalks(word: string, rest: seq<string>)
    requires !IsFlag(word)
    ensures Others([word] + rest) == [word] + Others(rest) && Peek([word]) == Human
  {
    FlagsAreFlags(word);
    assert ([word] + rest)[1..] == rest;
    FormatIsFlag(word);
    PeekOne(word);
  }

  lemma {:induction false} FlagsAreFlags(token: string)
    ensures FlagOf(token).Some? ==> IsFlag(token)
  {
    assert "-q"[0] == '-' && "--out"[0] == '-' && "--target"[0] == '-' && "--allocator"[0] == '-' &&
      "--runtime"[0] == '-';
  }

  lemma {:induction false} LoopFormat(cmd: Command, s: Slots, tokens: seq<string>)
    requires Loop(cmd, s, tokens).Ok?
    ensures Loop(cmd, s, tokens).value.format.GetOr(Human) == Louder(s.format.GetOr(Human), Peek(Others(tokens)))
    decreases |tokens|
  {
    if tokens != [] {
      var f := FlagOf(tokens[0]).value;
      var t := Step(cmd, s, f, tokens[1..]).value;
      StepFormat(cmd, s, f, tokens[1..]);
      StepWalks(cmd, s, tokens[0], f, tokens[1..]);
      assert tokens == [tokens[0]] + tokens[1..];
      LoopFormat(cmd, t.slots, t.rest);
    }
  }

  lemma {:induction false} WordsWalk(words: seq<string>, rest: seq<string>)
    requires forall i :: 0 <= i < |words| ==> !IsFlag(words[i])
    ensures Others(words + rest) == words + Others(rest)
  {
    if words == [] {
      assert words + rest == rest;
    } else {
      assert words + rest == [words[0]] + (words[1..] + rest);
      WordWalks(words[0], words[1..] + rest);
      WordsWalk(words[1..], rest);
    }
  }

  lemma {:induction false} LeadAfterWalks(entry: Option<string>, tokens: seq<string>)
    requires LeadAfter(entry, tokens).Ok?
    ensures Peek(Others(tokens)) == Peek(Others(LeadAfter(entry, tokens).value.rest))
  {
    var n := WordCount(tokens);
    assert tokens == tokens[..n] + tokens[n..];
    WordsWalk(tokens[..n], tokens[n..]);
    PeekSkipsWords(tokens[..n], Others(tokens[n..]));
  }

  /** The words before the flags change nothing. */
  lemma {:induction false} LeadWalks(tokens: seq<string>)
    requires LeadOf(tokens).Ok?
    ensures Peek(Others(tokens)) == Peek(Others(LeadOf(tokens).value.rest))
  {
    if LeadingEntry(tokens).Some? {
      LeadAfterWalks(LeadingEntry(tokens), tokens[1..]);
      assert tokens == [tokens[0]] + tokens[1..];
      WordWalks(tokens[0], tokens[1..]);
      PeekConcat([tokens[0]], Others(tokens[1..]));
    } else {
      LeadAfterWalks(None, tokens);
    }
  }

  /** An accepted build tail's format is the peek at the tokens that are not values. */
  lemma {:induction false} BuildFormat(tokens: seq<string>)
    requires BuildArgsOf(tokens).Ok?
    ensures BuildArgsOf(tokens).value.format == Peek(Others(tokens))
  {
    LeadWalks(tokens);
    LoopFormat(Build, START, LeadOf(tokens).value.rest);
  }

  /** The tokens of a run tail that `ipe` itself reads. */
  function Own(tokens: seq<string>): seq<string> {
    tokens[..DashDash(tokens)]
  }

  lemma {:induction false} RunFormat(tokens: seq<string>)
    requires RunArgsOf(tokens).Ok?
    ensures RunArgsOf(tokens).value.format == Peek(Others(Own(tokens)))
  {
    LeadWalks(Own(tokens));
    LoopFormat(Run, START, LeadOf(Own(tokens)).value.rest);
  }

  lemma {:induction false} PeekAcrossSeparator(tokens: seq<string>)
    ensures Peek(tokens) == Louder(Peek(tokens[..DashDash(tokens)]), Peek(BinArgs(tokens)))
  {
    var n := DashDash(tokens);
    assert tokens == tokens[..n] + tokens[n..];
    PeekConcat(tokens[..n], tokens[n..]);
    if n < |tokens| {
      assert tokens[n..] == ["--"] + tokens[n + 1..];
      PeekConcat(["--"], tokens[n + 1..]);
      PeekOne("--");
      assert FormatOf("--") == None by { assert |"--"| == 2 && |"--json"| == 6 && |"--plain"| == 7; }
    }
  }

  // ---- when the peek and the parse agree ----

  /** A format at least as loud as another. */
  predicate Covers(chosen: OutputFormat, other: OutputFormat) {
    other.Human? || chosen.Json? || chosen == other
  }

  /**
   * On an accepted build tail the peek and the parse agree exactly when the
   * values hold no louder format flag than the other tokens.
   */
  lemma {:induction false} BuildPeekAgreesExactly(tokens: seq<string>)
    requires BuildArgsOf(tokens).Ok?
    ensures Peek(tokens) == BuildArgsOf(tokens).value.format <==> Covers(Peek(Others(tokens)), Peek(Values(tokens)))
  {
    BuildFormat(tokens);
    PeekSeesBoth(tokens);
  }

  /** On an accepted run tail: when neither the values nor the forwarded arguments hold one. */
  lemma {:induction false} RunPeekAgreesExactly(tokens: seq<string>)
    requires RunArgsOf(tokens).Ok?
    ensures var own := Own(tokens);
      Peek(tokens) == RunArgsOf(tokens).value.format <==>
        Covers(Peek(Others(own)), Louder(Peek(Values(own)), Peek(BinArgs(tokens))))
  {
    RunFormat(tokens);
    PeekSeesBoth(Own(tokens));
    PeekAcrossSeparator(tokens);
  }

  /** No format flag stands directly after a value option. */
  predicate NoFormatAfterOption(tokens: seq<string>) {
    forall i :: 0 < i < |tokens| && TakesValue(tokens[i - 1]) ==> !IsFormat(tokens[i])
  }

  lemma {:induction false} PlainSuffix(tokens: seq<string>, k: nat)
    requires NoFormatAfterOption(tokens) && k <= |tokens|
    ensures NoFormatAfterOption(tokens[k..])
  {
    forall i | 0 < i < |tokens[k..]| && TakesValue(tokens[k..][i - 1]) ensures !IsFormat(tokens[k..][i]) {
      assert TakesValue(tokens[k + i - 1]);
    }
  }

  lemma {:induction false} PlainValuesAreQuiet(tokens: seq<string>)
    requires NoFormatAfterOption(tokens)
    ensures Peek(Values(tokens)) == Human
    decreases |tokens|
  {
    if |tokens| >= 2 {
      if TakesValue(tokens[0]) {
        PlainSuffix(tokens, 2);
        PlainValuesAreQuiet(tokens[2..]);
        PeekConcat([tokens[1]], Values(tokens[2..]));
        PeekOne(tokens[1]);
      } else {
        PlainSuffix(tokens, 1);
        PlainValuesAreQuiet(tokens[1..]);
      }
    }
  }

  /**
   * It is enough that no format flag stands directly after a value option, nor,
   * for a run, among the forwarded arguments.
   */
  lemma {:induction false} PeekAgreesOnPlainTails(tokens: seq<string>)
    ensures BuildArgsOf(tokens).Ok? && NoFormatAfterOption(tokens) ==> Peek(tokens) == BuildArgsOf(tokens).value.format
    ensures RunArgsOf(tokens).Ok? && NoFormatAfterOption(Own(tokens)) && Peek(BinArgs(tokens)).Human? ==>
      Peek(tokens) == RunArgsOf(tokens).value.format
  {
    if BuildArgsOf(tokens).Ok? && NoFormatAfterOption(tokens) {
      PlainValuesAreQuiet(tokens);
      BuildPeekAgreesExactly(tokens);
    }
    if RunArgsOf(tokens).Ok? && NoFormatAfterOption(Own(tokens)) {
      PlainValuesAreQuiet(Own(tokens));
      RunPeekAgreesExactly(tokens);
    }
  }

  /** The build whose tail is `--out` and its value. */
  function OutOnly(value: string): BuildArgs {
    BuildArgs(None, Positionals(None, Tokens(None, Default)), None, false, false, false,
              Emit(Some(value), NoWasm, EMPTY_LAYER), None, Human, false)
  }

  /** `--out` takes whatever follows, a flag too. */
  lemma {:induction false} OutTakesAnything(value: string)
    ensures BuildArgsOf([Spelling(FOut), value]) == Ok(OutOnly(value))
  {
    var a := OutOnly(value);
    PrintOnlyOut(BuildSlots(a), ORDER, value);
    assert KOut in ORDER by { OrderIsComplete(KOut); }
    assert PrintLead(a.entry, a.delivery) == [];
    assert [] + Print(BuildSlots(a), ORDER) == Print(BuildSlots(a), ORDER);
    BuildRoundTrip(a);
  }

  /** `ipe build --out --json` is accepted, renders for humans, and is peeked as JSON. */
  lemma {:induction false} PeekCanDisagree()
    ensures BuildArgsOf([Spelling(FOut), Spelling(FJson)]).Ok?
    ensures BuildArgsOf([Spelling(FOut), Spelling(FJson)]).value.format == Human
    ensures Peek([Spelling(FOut), Spelling(FJson)]) == Json
  {
    OutTakesAnything(Spelling(FJson));
    assert [Spelling(FOut), Spelling(FJson)][1] == "--json";
  }

  lemma {:induction false} PrintOnlyOut(s: Slots, ks: seq<Kind>, value: string)
    requires s == START.(out := Some(value))
    requires forall i, j :: 0 <= i < j < |ks| ==> ks[i] != ks[j]
    ensures Print(s, ks) == if KOut in ks then [Spelling(FOut), value] else []
  {
    if ks != [] {
      PrintOnlyOut(s, ks[1..], value);
      assert Unset(s, ks[0]) <==> ks[0] != KOut;
      assert ks == [ks[0]] + ks[1..];
    }
  }

  // ---- the parsers ----

  /** `parse_build` as it runs. */
  method ParseBuild(tokens: seq<string>) returns (r: Result<BuildArgs, UsageError>)
    ensures r == BuildArgsOf(tokens)
    ensures r.Ok? ==> RepresentableBuild(r.value) && r.value.format == Peek(Others(tokens))
  {
    if BuildArgsOf(tokens).Ok? {
      BuildIsRepresentable(tokens);
      BuildFormat(tokens);
    }
    var lead :- ReadLead(tokens);
    var s :- ReadFlags(Build, lead.rest);
    r := FinishBuild(lead, s);
  }

  /** `ipe`'s own tokens and the forwarded ones, split at the first `--`. */
  method SplitRun(tokens: seq<string>) returns (own: seq<string>, binArgs: seq<string>)
    ensures own == tokens[..DashDash(tokens)] && binArgs == BinArgs(tokens)
  {
    var n := 0;
    while n < |tokens| && tokens[n] != "--"
      invariant n <= |tokens| && forall i :: 0 <= i < n ==> tokens[i] != "--"
    {
      n := n + 1;
    }
    SeparatorIs(tokens, n);
    own, binArgs := tokens[..n], if n < |tokens| then tokens[n + 1..] else [];
  }

  /** `parse_run` as it runs. */
  method ParseRun(tokens: seq<string>) returns (r: Result<RunArgs, UsageError>)
    ensures r == RunArgsOf(tokens)
    ensures r.Ok? ==> RepresentableRun(r.value) && r.value.format == Peek(Others(Own(tokens)))
  {
    if RunArgsOf(tokens).Ok? {
      RunIsRepresentable(tokens);
      RunFormat(tokens);
    }
    var own, binArgs := SplitRun(tokens);
    var lead :- ReadLead(own);
    var s :- ReadFlags(Run, lead.rest);
    r := FinishRun(lead, s, binArgs);
  }
}
