/** The shared `--plain` / `--json` flags, the early peek at them, and the commands that take little else. */
module FormatFlags {
  import opened Prelude
  import opened Delivery

  datatype OutputFormat = Human | Plain | Json

  /** Why a command line is refused. */
  datatype UsageError = UnknownFlag | FlagRepeated | PlainJsonExclusive | FlagNeedsValue | UnexpectedArgument
                      | UnsupportedTarget | UnknownAllocator | DeliveryRefused(why: DeliveryError)
                      | StaticFlagsWithWasm | CFreeWithWasm | EmitIrWithOut | EmitIrWithStatic | EmitIrWithTarget
                      | EmitIrWithAllocator | EmitIrWithCFree | SessionFlagsExclusive
                      | RunWasmTarget | RunWasiNativeFlags
                      | HealthYesWithFormat | FmtSinglePath | FmtStdinAndPath | FmtFormatWithStdin | FmtFormatNeedsCheck

  predicate IsFlag(token: string) {
    token != "" && token[0] == '-'
  }

  function FormatOf(token: string): Option<OutputFormat> {
    if token == "--plain" then Some(Plain) else if token == "--json" then Some(Json) else None
  }

  predicate IsFormat(token: string) { FormatOf(token).Some? }

  predicate IsPositional(token: string) { !IsFlag(token) }

  // ---- the peek ----

  /** What the peek finds: a `--json` anywhere, else a `--plain` anywhere. */
  function Peek(tokens: seq<string>): OutputFormat {
    if "--json" in tokens then Json else if "--plain" in tokens then Plain else Human
  }

  /** `peek_output_format` as it runs. */
  method PeekOutputFormat(tokens: seq<string>) returns (format: OutputFormat)
    ensures format == Peek(tokens)
  {
    var sawPlain := false;
    for i := 0 to |tokens|
      invariant "--json" !in tokens[..i]
      invariant sawPlain <==> "--plain" in tokens[..i]
    {
      assert tokens[..i + 1] == tokens[..i] + [tokens[i]];
      if tokens[i] == "--json" {
        return Json;
      }
      if tokens[i] == "--plain" {
        sawPlain := true;
      }
    }
    assert tokens[..|tokens|] == tokens;
    format := if sawPlain then Plain else Human;
  }

  /** The stronger of two formats: machine over human, `--json` over `--plain`. */
  function Louder(a: OutputFormat, b: OutputFormat): OutputFormat {
    if a.Json? || b.Json? then Json else if a.Plain? || b.Plain? then Plain else Human
  }

  /** The peek of a tail is the louder peek of its parts. */
  lemma {:induction false} PeekConcat(a: seq<string>, b: seq<string>)
    ensures Peek(a + b) == Louder(Peek(a), Peek(b))
  {
  }

  lemma {:induction false} PeekOne(token: string)
    ensures Peek([token]) == FormatOf(token).GetOr(Human)
  {
    assert "--json" != "--plain";
  }

  // ---- the shared slot ----

  datatype Folded = Folded(consumed: bool, slot: Option<OutputFormat>)

  /** Ask for a format: the slot takes one request and refuses any other. */
  function Request(slot: Option<OutputFormat>, requested: OutputFormat): Result<Option<OutputFormat>, UsageError> {
    if slot.None? then Ok(Some(requested))
    else if slot.value == requested then Err(FlagRepeated)
    else Err(PlainJsonExclusive)
  }

  /** `consume_format_flag`: the slot after one token, and whether the token was a format flag. */
  function ConsumeFormat(slot: Option<OutputFormat>, token: string): Result<Folded, UsageError> {
    match FormatOf(token)
    case None => Ok(Folded(false, slot))
    case Some(requested) =>
      var taken :- Request(slot, requested);
      Ok(Folded(true, taken))
  }

  /** The members of a listing that satisfy `p`, in order. */
  function Keep<T>(p: T -> bool, s: seq<T>): seq<T> {
    if s == [] then []
    else Keep(p, s[..|s| - 1]) + if p(s[|s| - 1]) then [s[|s| - 1]] else []
  }

  lemma {:induction false} KeepStep<T>(p: T -> bool, s: seq<T>, i: nat)
    requires i < |s|
    ensures Keep(p, s[..i + 1]) == Keep(p, s[..i]) + if p(s[i]) then [s[i]] else []
  {
    assert s[..i + 1][..i] == s[..i];
  }

  lemma {:induction false} KeepPrefix<T>(p: T -> bool, s: seq<T>, i: nat)
    requires i <= |s|
    ensures Keep(p, s[..i]) <= Keep(p, s)
  {
    if i == |s| {
      assert s[..i] == s;
    } else {
      assert s[..|s| - 1][..i] == s[..i];
      KeepPrefix(p, s[..|s| - 1], i);
    }
  }

  /** The slot holds the one format flag among the tokens seen, if there was one. */
  ghost predicate Tracks(slot: Option<OutputFormat>, seen: seq<string>) {
    && |Keep(IsFormat, seen)| == (if slot.Some? then 1 else 0)
    && slot.GetOr(Human) == Peek(seen)
    && slot != Some(Human)
  }

  /** One token keeps the slot honest, or is the second format flag of the whole tail. */
  lemma {:induction false} TrackStep(slot: Option<OutputFormat>, tokens: seq<string>, i: nat)
    requires i < |tokens| && Tracks(slot, tokens[..i])
    ensures match ConsumeFormat(slot, tokens[i])
      case Err(_) => |Keep(IsFormat, tokens)| > 1
      case Ok(f) =>
        && Tracks(f.slot, tokens[..i + 1]) && (f.consumed <==> IsFormat(tokens[i]))
        && (!f.consumed ==> f.slot == slot)
  {
    KeepStep(IsFormat, tokens, i);
    KeepPrefix(IsFormat, tokens, i + 1);
    assert tokens[..i + 1] == tokens[..i] + [tokens[i]];
    PeekConcat(tokens[..i], [tokens[i]]);
    PeekOne(tokens[i]);
  }

  /** At most one format flag, and every other token satisfies `ok`. */
  ghost predicate Tame(tokens: seq<string>, ok: string -> bool) {
    |Keep(IsFormat, tokens)| <= 1 && forall i :: 0 <= i < |tokens| ==> IsFormat(tokens[i]) || ok(tokens[i])
  }

  lemma {:induction false} FormatsAreFlags(token: string)
    requires IsFormat(token)
    ensures IsFlag(token)
  {
  }

  // ---- the commands ----

  /** The locals of `split_format`, or why a token is refused. */
  function SplitStep(slot: Option<OutputFormat>, positional: seq<string>, token: string)
    : Result<(Option<OutputFormat>, seq<string>), UsageError>
  {
    var f :- ConsumeFormat(slot, token);
    if f.consumed then Ok((f.slot, positional))
    else if IsFlag(token) then Err(UnknownFlag)
    else Ok((slot, positional + [token]))
  }

  lemma {:induction false} SplitTrackStep(
      slot: Option<OutputFormat>, positional: seq<string>, tokens: seq<string>, i: nat)
    requires i < |tokens| && Tracks(slot, tokens[..i]) && positional == Keep(IsPositional, tokens[..i])
    ensures match SplitStep(slot, positional, tokens[i])
      case Ok(p) =>
        && Tracks(p.0, tokens[..i + 1]) && p.1 == Keep(IsPositional, tokens[..i + 1])
        && (IsFormat(tokens[i]) || IsPositional(tokens[i]))
      case Err(_) => !Tame(tokens, IsPositional)
  {
    TrackStep(slot, tokens, i);
    KeepStep(IsPositional, tokens, i);
    if IsFormat(tokens[i]) {
      FormatsAreFlags(tokens[i]);
    }
  }

  /** `split_format`: accepted exactly when no flag is unknown and at most one is a format. */
  method SplitFormat(tokens: seq<string>) returns (r: Result<(OutputFormat, seq<string>), UsageError>)
    ensures r.Ok? <==> Tame(tokens, IsPositional)
    ensures r.Ok? ==> r.value == (Peek(tokens), Keep(IsPositional, tokens))
  {
    var slot: Option<OutputFormat>, positional: seq<string> := None, [];
    for i := 0 to |tokens|
      invariant Tracks(slot, tokens[..i]) && positional == Keep(IsPositional, tokens[..i])
      invariant forall j :: 0 <= j < i ==> IsFormat(tokens[j]) || IsPositional(tokens[j])
    {
      SplitTrackStep(slot, positional, tokens, i);
      var next :- SplitStep(slot, positional, tokens[i]);
      slot, positional := next.0, next.1;
    }
    assert tokens[..|tokens|] == tokens;
    return Ok((slot.GetOr(Human), positional));
  }

  /** An optional single positional, and the positionals it stands for. */
  ghost predicate Single(entry: Option<string>, positionals: seq<string>) {
    positionals == if entry.Some? then [entry.value] else []
  }

  /** `single_positional_with_format`. */
  method SinglePositionalWithFormat(tokens: seq<string>) returns (r: Result<(Option<string>, OutputFormat), UsageError>)
    ensures r.Ok? <==> Tame(tokens, IsPositional) && |Keep(IsPositional, tokens)| <= 1
    ensures r.Ok? ==> r.value.1 == Peek(tokens) && Single(r.value.0, Keep(IsPositional, tokens))
  {
    var split :- SplitFormat(tokens);
    if split.1 == [] {
      return Ok((None, split.0));
    } else if |split.1| == 1 {
      return Ok((Some(split.1[0]), split.0));
    }
    return Err(UnexpectedArgument);
  }

  /** One more token against the single positional slot. */
  lemma {:induction false} SingleStep(entry: Option<string>, tokens: seq<string>, i: nat)
    requires i < |tokens| && Single(entry, Keep(IsPositional, tokens[..i]))
    ensures IsFlag(tokens[i]) ==> Single(entry, Keep(IsPositional, tokens[..i + 1]))
    ensures !IsFlag(tokens[i]) && entry.None? ==> Single(Some(tokens[i]), Keep(IsPositional, tokens[..i + 1]))
    ensures !IsFlag(tokens[i]) && entry.Some? ==> |Keep(IsPositional, tokens)| > 1
  {
    KeepStep(IsPositional, tokens, i);
    KeepPrefix(IsPositional, tokens, i + 1);
  }

  /** The slots `parse_type_check` fills. */
  datatype EntrySlots = EntrySlots(format: Option<OutputFormat>, entry: Option<string>)

  ghost predicate EntryTracks(s: EntrySlots, seen: seq<string>) {
    Tracks(s.format, seen) && Single(s.entry, Keep(IsPositional, seen))
  }

  /** One turn of the `parse_type_check` loop. */
  function EntryStep(s: EntrySlots, token: string): Result<EntrySlots, UsageError> {
    var f :- ConsumeFormat(s.format, token);
    if f.consumed then Ok(s.(format := f.slot))
    else if IsFlag(token) then Err(UnknownFlag)
    else if s.entry.Some? then Err(FlagRepeated)
    else Ok(s.(entry := Some(token)))
  }

  lemma {:induction false} EntryTrackStep(s: EntrySlots, tokens: seq<string>, i: nat)
    requires i < |tokens| && EntryTracks(s, tokens[..i])
    ensures match EntryStep(s, tokens[i])
      case Ok(t) => EntryTracks(t, tokens[..i + 1]) && (IsFormat(tokens[i]) || IsPositional(tokens[i]))
      case Err(_) => !Tame(tokens, IsPositional) || |Keep(IsPositional, tokens)| > 1
  {
    TrackStep(s.format, tokens, i);
    SingleStep(s.entry, tokens, i);
    if IsFormat(tokens[i]) {
      FormatsAreFlags(tokens[i]);
    }
  }

  /** `parse_type_check`: the peek is the parsed format on every accepted tail. */
  method ParseTypeCheck(tokens: seq<string>) returns (r: Result<(Option<string>, OutputFormat), UsageError>)
    ensures r.Ok? <==> Tame(tokens, IsPositional) && |Keep(IsPositional, tokens)| <= 1
    ensures r.Ok? ==> r.value.1 == Peek(tokens) && Single(r.value.0, Keep(IsPositional, tokens))
  {
    var s := EntrySlots(None, None);
    for i := 0 to |tokens|
      invariant EntryTracks(s, tokens[..i])
      invariant forall j :: 0 <= j < i ==> IsFormat(tokens[j]) || IsPositional(tokens[j])
    {
      EntryTrackStep(s, tokens, i);
      s :- EntryStep(s, tokens[i]);
    }
    assert tokens[..|tokens|] == tokens;
    return Ok((s.entry, s.format.GetOr(Human)));
  }

  predicate IsYes(token: string) { token == "--yes" || token == "-y" }

  /** `parse_health`: consent by flag and a data form never meet. */
  method ParseHealth(tokens: seq<string>) returns (r: Result<(OutputFormat, bool), UsageError>)
    ensures r.Ok? <==>
      Tame(tokens, IsYes) && (Peek(tokens).Human? || forall i :: 0 <= i < |tokens| ==> !IsYes(tokens[i]))
    ensures r.Ok? ==> r.value.0 == Peek(tokens) && (r.value.1 <==> exists i :: 0 <= i < |tokens| && IsYes(tokens[i]))
  {
    var slot: Option<OutputFormat>, assumeYes := None, false;
    for i := 0 to |tokens|
      invariant Tracks(slot, tokens[..i])
      invariant assumeYes <==> exists j :: 0 <= j < i && IsYes(tokens[j])
      invariant forall j :: 0 <= j < i ==> IsFormat(tokens[j]) || IsYes(tokens[j])
    {
      TrackStep(slot, tokens, i);
      var f := ConsumeFormat(slot, tokens[i]);
      if f.Err? {
        return Err(f.error);
      }
      slot := f.value.slot;
      if f.value.consumed {
        FormatIsNotYes(tokens[i]);
        continue;
      }
      if !IsYes(tokens[i]) {
        return Err(if IsFlag(tokens[i]) then UnknownFlag else UnexpectedArgument);
      }
      assumeYes := true;
    }
    assert tokens[..|tokens|] == tokens;
    var format := slot.GetOr(Human);
    if assumeYes && !format.Human? {
      return Err(HealthYesWithFormat);
    }
    return Ok((format, assumeYes));
  }

  lemma {:induction false} FormatIsNotYes(token: string)
    requires IsFormat(token)
    ensures !IsYes(token)
  {
    assert |"--yes"| == 5 && |"-y"| == 2 && |"--json"| == 6 && |"--plain"| == 7;
  }

  /** The three ways `ipe fmt` runs. */
  datatype FmtMode = InPlace(path: Option<string>, check: bool, format: OutputFormat) | Stdin | StdinCheck

  predicate IsFmtToken(token: string) { token == "--check" || token == "--stdin" || IsPositional(token) }

  /** What a tame `fmt` tail must also satisfy. */
  ghost predicate FmtCompatible(tokens: seq<string>) {
    && |Keep(IsPositional, tokens)| <= 1
    && ("--stdin" in tokens ==> Keep(IsPositional, tokens) == [])
    && (!Peek(tokens).Human? ==> "--check" in tokens && "--stdin" !in tokens)
  }

  /** The slots `parse_fmt` fills while it reads. */
  datatype FmtSlots = FmtSlots(format: Option<OutputFormat>, path: Option<string>, check: bool, stdin: bool)

  ghost predicate FmtTracks(s: FmtSlots, seen: seq<string>) {
    && Tracks(s.format, seen) && Single(s.path, Keep(IsPositional, seen))
    && (s.check <==> "--check" in seen) && (s.stdin <==> "--stdin" in seen)
  }

  /** One turn of the `parse_fmt` loop. */
  function FmtStep(s: FmtSlots, token: string): Result<FmtSlots, UsageError> {
    var f :- ConsumeFormat(s.format, token);
    if f.consumed then Ok(s.(format := f.slot))
    else if token == "--check" then Ok(s.(check := true))
    else if token == "--stdin" then Ok(s.(stdin := true))
    else if IsFlag(token) then Err(UnknownFlag)
    else if s.path.Some? then Err(FmtSinglePath)
    else Ok(s.(path := Some(token)))
  }

  lemma {:induction false} FmtTrackStep(s: FmtSlots, tokens: seq<string>, i: nat)
    requires i < |tokens| && FmtTracks(s, tokens[..i])
    ensures match FmtStep(s, tokens[i])
      case Ok(t) => FmtTracks(t, tokens[..i + 1]) && (IsFormat(tokens[i]) || IsFmtToken(tokens[i]))
      case Err(_) => !Tame(tokens, IsFmtToken) || |Keep(IsPositional, tokens)| > 1
  {
    TrackStep(s.format, tokens, i);
    SingleStep(s.path, tokens, i);
    SeenStep("--check", tokens, i);
    SeenStep("--stdin", tokens, i);
    FmtWords(tokens[i]);
  }

  lemma {:induction false} SeenStep(word: string, tokens: seq<string>, i: nat)
    requires i < |tokens|
    ensures word in tokens[..i + 1] <==> word in tokens[..i] || tokens[i] == word
  {
    assert tokens[..i + 1] == tokens[..i] + [tokens[i]];
  }

  /** The mode says what the tail asked for. */
  ghost predicate FmtSays(mode: FmtMode, tokens: seq<string>) {
    match mode
    case InPlace(path, check, format) =>
      && "--stdin" !in tokens && Single(path, Keep(IsPositional, tokens))
      && (check <==> "--check" in tokens) && format == Peek(tokens)
    case Stdin => "--stdin" in tokens && "--check" !in tokens && Peek(tokens) == Human
    case StdinCheck => "--stdin" in tokens && "--check" in tokens && Peek(tokens) == Human
  }

  /** What `parse_fmt` makes of its slots at the end. */
  function FmtFinish(s: FmtSlots): Result<FmtMode, UsageError> {
    var format := s.format.GetOr(Human);
    if s.stdin && s.path.Some? then Err(FmtStdinAndPath)
    else if !format.Human? && s.stdin then Err(FmtFormatWithStdin)
    else if !format.Human? && !s.check then Err(FmtFormatNeedsCheck)
    else Ok(if s.stdin then if s.check then StdinCheck else Stdin else InPlace(s.path, s.check, format))
  }

  lemma {:induction false} FmtFinishes(s: FmtSlots, tokens: seq<string>)
    requires FmtTracks(s, tokens)
    ensures FmtFinish(s).Ok? <==> FmtCompatible(tokens)
    ensures FmtFinish(s).Ok? ==> FmtSays(FmtFinish(s).value, tokens)
  {
  }

  /** `parse_fmt`: every accepted tail names one of three modes, and the modes say what was asked. */
  method ParseFmt(tokens: seq<string>) returns (r: Result<FmtMode, UsageError>)
    ensures r.Ok? <==> Tame(tokens, IsFmtToken) && FmtCompatible(tokens)
    ensures r.Ok? ==> FmtSays(r.value, tokens)
  {
    var s := FmtSlots(None, None, false, false);
    for i := 0 to |tokens|
      invariant FmtTracks(s, tokens[..i])
      invariant forall j :: 0 <= j < i ==> IsFormat(tokens[j]) || IsFmtToken(tokens[j])
    {
      FmtTrackStep(s, tokens, i);
      s :- FmtStep(s, tokens[i]);
    }
    assert tokens[..|tokens|] == tokens;
    FmtFinishes(s, tokens);
    r := FmtFinish(s);
  }

  /** The `fmt` flags are flags, and are not format flags. */
  lemma {:induction false} FmtWords(token: string)
    ensures token == "--check" || token == "--stdin" || IsFormat(token) ==> IsFlag(token)
    ensures token == "--check" || token == "--stdin" ==> !IsFormat(token)
    ensures token == "--check" ==> token != "--stdin"
  {
    assert "--check"[2] == 'c' && "--stdin"[2] == 's' && "--plain"[2] == 'p' && "--json"[2] == 'j';
  }
}
