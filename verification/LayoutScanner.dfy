/**
 * The external scanner for indentation-significant layout.
 *
 * A growable array holds the open block columns. One scan decides at most one
 * zero-width layout token from the next token's column; the stack outlives
 * scans through a byte buffer the parser keeps.
 */
module LayoutScanner {
  import opened Prelude

  type u16 = x: int | 0 <= x < 0x1_0000
  type byte = x: int | 0 <= x < 256

  datatype Token = BlockOpen | BlockLine | BlockClose

  /** Which layout tokens the grammar accepts next. */
  datatype Accepts = Accepts(open: bool, line: bool, close: bool)

  /** The lexer once trivia is skipped: the 1-based column of the next token and the text from it on. */
  datatype Position = Position(column: nat, ahead: string) {
    predicate AtEof() { ahead == "" }
  }

  const TOP_LEVEL_COLUMN: u16 := 1
  const BUFFER_SIZE: nat := 1024

  function Truncate(column: nat): u16 { column % 0x1_0000 }

  function Top(columns: seq<u16>): u16 {
    if columns == [] then 0 else columns[|columns| - 1]
  }

  function Pop(columns: seq<u16>): seq<u16>
    requires columns != []
  {
    columns[..|columns| - 1]
  }

  predicate IsDelimiter(c: char) { c in {')', ']', '}', ','} }

  predicate IsWordChar(c: char) {
    'a' <= c <= 'z' || 'A' <= c <= 'Z' || '0' <= c <= '9' || c == '_' || c == '.'
  }

  /** The keyword `in`, not followed by an identifier character. */
  predicate KeywordIn(ahead: string) {
    |ahead| >= 2 && ahead[..2] == "in" && (|ahead| == 2 || !IsWordChar(ahead[2]))
  }

  /** The token one scan emits, and the stack it leaves. */
  function ScanStep(columns: seq<u16>, at: Position, valid: Accepts): (Option<Token>, seq<u16>) {
    var top := Top(columns);
    var inner := |columns| > 1;
    if at.AtEof() then
      if valid.close && inner then (Some(BlockClose), Pop(columns)) else (None, columns)
    else if valid.close && !valid.line && !valid.open && inner && at.column > top then (Some(BlockClose), Pop(columns))
    else if valid.close && !valid.open && inner && at.column > top && IsDelimiter(at.ahead[0]) then
      (Some(BlockClose), Pop(columns))
    else if valid.close && !valid.open && inner && at.column > top && at.ahead[0] == 'i' then
      if KeywordIn(at.ahead) then (Some(BlockClose), Pop(columns)) else (None, columns)
    else if valid.open && (columns == [] || at.column > top) then
      (Some(BlockOpen), columns + [Truncate(at.column)])
    else if columns != [] && valid.close && at.column < top && inner then (Some(BlockClose), Pop(columns))
    else if columns != [] && valid.line && at.column == top then (Some(BlockLine), columns)
    else (None, columns)
  }

  // ---- one scan, token by token ----

  /** A block opens here: input is left, an open is accepted, and the column is deeper than the innermost block. */
  predicate OpensHere(columns: seq<u16>, at: Position, valid: Accepts) {
    !at.AtEof() && valid.open && (columns == [] || at.column > Top(columns))
  }

  /** A sibling continues here: input is left, a line is accepted, and the column is the innermost block's. */
  predicate ContinuesHere(columns: seq<u16>, at: Position, valid: Accepts) {
    !at.AtEof() && valid.line && columns != [] && at.column == Top(columns)
  }

  /**
   * A block closes here: there is one besides the base and a close is accepted,
   * at the end of input, at a dedent, or on the block's own line where no open is
   * accepted and nothing, a delimiter or `in` can follow instead of a line.
   */
  predicate ClosesHere(columns: seq<u16>, at: Position, valid: Accepts) {
    && |columns| > 1 && valid.close
    && (|| at.AtEof()
        || at.column < Top(columns)
        || (at.column > Top(columns) && !valid.open &&
            (!valid.line || IsDelimiter(at.ahead[0]) || KeywordIn(at.ahead))))
  }

  /** For every stack, position and accepted set: which token is emitted, and what becomes of the stack. */
  lemma {:induction false} ScanExactly(columns: seq<u16>, at: Position, valid: Accepts)
    ensures var (token, after) := ScanStep(columns, at, valid);
      && (token == Some(BlockOpen) <==> OpensHere(columns, at, valid))
      && (token == Some(BlockLine) <==> ContinuesHere(columns, at, valid))
      && (token == Some(BlockClose) <==> ClosesHere(columns, at, valid))
      && after == match token
           case Some(BlockOpen) => columns + [Truncate(at.column)]
           case Some(BlockClose) => columns[..|columns| - 1]
           case _ => columns
  {
    assert KeywordIn(at.ahead) ==> at.ahead[0] == at.ahead[..2][0] == 'i';
  }

  /** The keyword is the two letters alone, or before a character no identifier goes on with. */
  lemma {:induction false} KeywordInExactly(ahead: string)
    ensures KeywordIn(ahead) <==>
      ahead == "in" || exists c, rest :: !IsWordChar(c) && ahead == "in" + [c] + rest
  {
    if KeywordIn(ahead) && |ahead| > 2 {
      assert ahead == "in" + [ahead[2]] + ahead[3..];
    }
    assert |ahead| == 2 && ahead[..2] == "in" ==> ahead == "in";
  }

  // ---- the stack over whole runs ----

  /** The base column at the bottom, and every block deeper than the one around it. */
  ghost predicate Nested(columns: seq<u16>) {
    && columns != [] && columns[0] == TOP_LEVEL_COLUMN
    && forall i, j :: 0 <= i < j < |columns| ==> columns[i] < columns[j]
  }

  /** Opening a block keeps the nesting exactly when its column survives 16-bit truncation above the top. */
  lemma {:induction false} OpenKeepsNestingExactly(columns: seq<u16>, at: Position, valid: Accepts)
    requires Nested(columns) && ScanStep(columns, at, valid).0 == Some(BlockOpen)
    ensures Nested(ScanStep(columns, at, valid).1) <==> Truncate(at.column) > Top(columns)
  {
    var after := ScanStep(columns, at, valid).1;
    assert after[|columns| - 1] == Top(columns) && after[|columns|] == Truncate(at.column);
  }

  /** Every scan at a 16-bit column keeps the nesting. */
  lemma {:induction false} ScanKeepsNesting(columns: seq<u16>, at: Position, valid: Accepts)
    requires Nested(columns) && at.column <= 0xFFFF
    ensures Nested(ScanStep(columns, at, valid).1)
  {
  }

  /** A column past 16 bits can open a block that is not deeper than the one around it. */
  lemma {:induction false} WideColumnBreaksNesting()
    ensures var at, valid := Position(0x1_0001, "x"), Accepts(true, true, true);
      ScanStep([1], at, valid) == (Some(BlockOpen), [1, 1]) && !Nested([1, 1])
  {
    assert [1] + [Truncate(0x1_0001)] == [1, 1];
    assert [1, 1][0] == [1, 1][1];
  }

  /** What the parser sees of one scan: the token, with the column a BLOCK_OPEN opened at. */
  datatype Emitted = Opened(column: nat) | Lined | Closed

  datatype Scan = Scan(at: Position, valid: Accepts)

  function Emission(token: Option<Token>, column: nat): seq<Emitted> {
    match token
    case None => []
    case Some(BlockOpen) => [Opened(column)]
    case Some(BlockLine) => [Lined]
    case Some(BlockClose) => [Closed]
  }

  /** The tokens a run of scans emits, and the stack after it. */
  function Run(columns: seq<u16>, scans: seq<Scan>): (seq<Emitted>, seq<u16>)
    decreases scans
  {
    if scans == [] then ([], columns)
    else
      var (token, columns') := ScanStep(columns, scans[0].at, scans[0].valid);
      var (rest, after) := Run(columns', scans[1..]);
      (Emission(token, scans[0].at.column) + rest, after)
  }

  /**
   * The columns of the blocks still open after `tokens`, the innermost last,
   * on top of `open`; `None` when some close has no open to match.
   */
  function Unmatched(open: seq<nat>, tokens: seq<Emitted>): Option<seq<nat>>
    decreases tokens
  {
    if tokens == [] then Some(open)
    else match tokens[0]
      case Opened(c) => Unmatched(open + [c], tokens[1..])
      case Lined => Unmatched(open, tokens[1..])
      case Closed => if open == [] then None else Unmatched(open[..|open| - 1], tokens[1..])
  }

  lemma {:induction false} UnmatchedConcat(open: seq<nat>, first: seq<Emitted>, rest: seq<Emitted>)
    ensures Unmatched(open, first + rest) ==
      match Unmatched(open, first) case None => None case Some(now) => Unmatched(now, rest)
    decreases first
  {
    if first == [] {
      assert first + rest == rest;
    } else {
      assert (first + rest)[1..] == first[1..] + rest;
      match first[0]
      case Opened(c) => UnmatchedConcat(open + [c], first[1..], rest);
      case Lined => UnmatchedConcat(open, first[1..], rest);
      case Closed => if open != [] { UnmatchedConcat(open[..|open| - 1], first[1..], rest); }
    }
  }

  /** The columns as the stack holds them. */
  function Truncated(columns: seq<nat>): (r: seq<u16>)
    ensures |r| == |columns| && forall k :: 0 <= k < |r| ==> r[k] == Truncate(columns[k])
  {
    seq(|columns|, k requires 0 <= k < |columns| => Truncate(columns[k]))
  }

  /**
   * Over any run of scans, closes never outnumber opens, and the stack is the
   * base followed by the truncated columns of the unmatched opens.
   */
  lemma {:induction false} StackIsUnmatchedOpens(open: seq<nat>, columns: seq<u16>, scans: seq<Scan>)
    requires columns == [TOP_LEVEL_COLUMN] + Truncated(open)
    ensures var (tokens, after) := Run(columns, scans);
      && Unmatched(open, tokens).Some?
      && after == [TOP_LEVEL_COLUMN] + Truncated(Unmatched(open, tokens).value)
    decreases scans
  {
    if scans != [] {
      var at, valid := scans[0].at, scans[0].valid;
      var (token, columns') := ScanStep(columns, at, valid);
      StepUnmatched(open, columns, at, valid);
      var open' := Unmatched(open, Emission(token, at.column)).value;
      StackIsUnmatchedOpens(open', columns', scans[1..]);
      UnmatchedConcat(open, Emission(token, at.column), Run(columns', scans[1..]).0);
    }
  }

  lemma {:induction false} StepUnmatched(open: seq<nat>, columns: seq<u16>, at: Position, valid: Accepts)
    requires columns == [TOP_LEVEL_COLUMN] + Truncated(open)
    ensures var (token, columns') := ScanStep(columns, at, valid);
      && Unmatched(open, Emission(token, at.column)).Some?
      && columns' == [TOP_LEVEL_COLUMN] + Truncated(Unmatched(open, Emission(token, at.column)).value)
  {
    var (token, columns') := ScanStep(columns, at, valid);
    if token == Some(BlockOpen) {
      assert [Opened(at.column)][1..] == [];
      assert Truncated(open + [at.column]) == Truncated(open) + [Truncate(at.column)];
    } else if token == Some(BlockClose) {
      assert [Closed][1..] == [];
      assert Truncated(open[..|open| - 1]) == Truncated(open)[..|open| - 1];
    } else {
      assert [Lined][1..] == [];
    }
  }

  /** Any run of scans at 16-bit columns keeps the nesting. */
  lemma {:induction false} RunKeepsNesting(columns: seq<u16>, scans: seq<Scan>)
    requires Nested(columns) && forall k :: 0 <= k < |scans| ==> scans[k].at.column <= 0xFFFF
    ensures Nested(Run(columns, scans).1)
    decreases scans
  {
    if scans != [] {
      ScanKeepsNesting(columns, scans[0].at, scans[0].valid);
      RunKeepsNesting(ScanStep(columns, scans[0].at, scans[0].valid).1, scans[1..]);
    }
  }

  // ---- one position, scanned until it stays ----

  /** Re-invoking the scanner at one position until it emits a line break or nothing. */
  function Rescan(columns: seq<u16>, at: Position, valid: Accepts): (seq<Token>, seq<u16>)
    decreases |columns|
  {
    var (token, columns') := ScanStep(columns, at, valid);
    if token == Some(BlockClose) then
      var (rest, after) := Rescan(columns', at, valid);
      ([BlockClose] + rest, after)
    else if token == Some(BlockLine) then ([BlockLine], columns')
    else ([], columns)
  }

  function Closes(k: nat): seq<Token> {
    if k == 0 then [] else [BlockClose] + Closes(k - 1)
  }

  /** How many open columns are deeper than `c`. */
  function CountDeeper(columns: seq<u16>, c: nat): nat {
    if columns == [] then 0 else CountDeeper(Pop(columns), c) + if Top(columns) > c then 1 else 0
  }

  lemma {:induction false} NoneDeeper(columns: seq<u16>, c: nat)
    requires forall i :: 0 <= i < |columns| ==> columns[i] <= c
    ensures CountDeeper(columns, c) == 0
  {
    if columns != [] { NoneDeeper(Pop(columns), c); }
  }

  lemma {:induction false} PopKeepsNesting(columns: seq<u16>)
    requires Nested(columns) && |columns| > 1
    ensures Nested(Pop(columns)) && Top(Pop(columns)) < Top(columns)
  {
  }

  /** Between blocks: the grammar accepts a close or a sibling, and no inline terminator is ahead. */
  predicate PlainDedent(at: Position, valid: Accepts) {
    && valid == Accepts(false, true, true) && at.column >= 1
    && !at.AtEof() && !IsDelimiter(at.ahead[0]) && !KeywordIn(at.ahead)
  }

  /**
   * A multi-level dedent is exact: one close per open block deeper than the
   * token, then a line break exactly when the block now on top starts there.
   */
  lemma {:induction false} DedentIsExact(columns: seq<u16>, at: Position, valid: Accepts)
    requires Nested(columns) && PlainDedent(at, valid)
    ensures var (tokens, after) := Rescan(columns, at, valid);
      && var k := CountDeeper(columns, at.column);
      && k < |columns| && after == columns[..|columns| - k]
      && tokens == Closes(k) + if Top(after) == at.column then [BlockLine] else []
    decreases |columns|
  {
    if Top(columns) > at.column {
      PopKeepsNesting(columns);
      DedentIsExact(Pop(columns), at, valid);
      var k := CountDeeper(Pop(columns), at.column);
      assert columns[..|columns| - (k + 1)] == Pop(columns)[..|Pop(columns)| - k];
      var last := if Top(columns[..|columns| - (k + 1)]) == at.column then [BlockLine] else [];
      assert [BlockClose] + (Closes(k) + last) == Closes(k + 1) + last;
    } else {
      assert forall i :: 0 <= i < |columns| ==> columns[i] <= Top(columns);
      NoneDeeper(columns, at.column);
      assert columns[..|columns|] == columns;
      assert Closes(0) == [];
    }
  }

  /** At end of input every block closes and only the base is left. */
  lemma {:induction false} EofClosesEverything(columns: seq<u16>, at: Position, valid: Accepts)
    requires Nested(columns) && at.AtEof() && valid.close
    ensures Rescan(columns, at, valid) == (Closes(|columns| - 1), [TOP_LEVEL_COLUMN])
    decreases |columns|
  {
    if |columns| > 1 {
      PopKeepsNesting(columns);
      EofClosesEverything(Pop(columns), at, valid);
    } else {
      assert columns == [TOP_LEVEL_COLUMN];
    }
  }

  /** Where an inline terminator stops closing: the block at exactly this column, else the base. */
  function StopsAt(columns: seq<u16>, c: nat): (r: seq<u16>)
    requires columns != []
    ensures r != [] && r <= columns
    decreases |columns|
  {
    if Top(columns) == c || |columns| == 1 then columns else StopsAt(Pop(columns), c)
  }

  lemma {:induction false} StopsAtSibling(columns: seq<u16>, c: nat)
    requires columns != []
    ensures Top(StopsAt(columns, c)) == c <==> c in columns
    decreases |columns|
  {
    assert columns == Pop(columns) + [Top(columns)];
    if Top(columns) != c && |columns| > 1 { StopsAtSibling(Pop(columns), c); }
  }

  predicate InlineTerminator(at: Position, valid: Accepts) {
    && valid == Accepts(false, true, true) && at.column >= 1
    && !at.AtEof() && (IsDelimiter(at.ahead[0]) || KeywordIn(at.ahead))
  }

  lemma {:induction false} InlineStep(columns: seq<u16>, at: Position, valid: Accepts)
    requires Nested(columns) && InlineTerminator(at, valid)
    ensures ScanStep(columns, at, valid) ==
      if Top(columns) == at.column then (Some(BlockLine), columns)
      else if |columns| == 1 then (None, columns)
      else (Some(BlockClose), Pop(columns))
  {
    assert KeywordIn(at.ahead) ==> at.ahead[..2][0] == 'i' == at.ahead[0];
  }

  /**
   * With a closing delimiter or `in` ahead, every block closes down to the one
   * at this column, and a line break follows exactly when there is one.
   */
  lemma {:induction false} InlineTerminatorIsExact(columns: seq<u16>, at: Position, valid: Accepts)
    requires Nested(columns) && InlineTerminator(at, valid)
    ensures var (tokens, after) := Rescan(columns, at, valid);
      && after == StopsAt(columns, at.column)
      && tokens == Closes(|columns| - |after|) + if at.column in columns then [BlockLine] else []
    decreases |columns|
  {
    InlineStep(columns, at, valid);
    StopsAtSibling(columns, at.column);
    if Top(columns) == at.column || |columns| == 1 {
      assert Closes(0) == [];
    } else {
      PopKeepsNesting(columns);
      StopsAtSibling(Pop(columns), at.column);
      InlineTerminatorIsExact(Pop(columns), at, valid);
      var k := |Pop(columns)| - |StopsAt(Pop(columns), at.column)|;
      var last := if at.column in columns then [BlockLine] else [];
      assert [BlockClose] + (Closes(k) + last) == Closes(k + 1) + last;
    }
  }

  /**
   * Where a close is all the grammar accepts, every block closes down to the
   * one at this column, else to the base, and no line break follows.
   */
  lemma {:induction false} ForcedCloseIsExact(columns: seq<u16>, at: Position, valid: Accepts)
    requires Nested(columns) && valid == Accepts(false, false, true) && at.column >= 1 && !at.AtEof()
    ensures var (tokens, after) := Rescan(columns, at, valid);
      after == StopsAt(columns, at.column) && tokens == Closes(|columns| - |after|)
    decreases |columns|
  {
    if Top(columns) == at.column || |columns| == 1 {
      assert Closes(0) == [];
    } else {
      PopKeepsNesting(columns);
      ForcedCloseIsExact(Pop(columns), at, valid);
    }
  }

  // ---- the byte buffer the parser keeps ----

  /** `memcpy` of one column, in the machine's byte order. */
  function Encode(column: u16, littleEndian: bool): seq<byte> {
    if littleEndian then [column % 256, column / 256] else [column / 256, column % 256]
  }

  function Decode(first: byte, second: byte, littleEndian: bool): u16 {
    if littleEndian then first + 256 * second else 256 * first + second
  }

  function EncodeAll(columns: seq<u16>, littleEndian: bool): (r: seq<byte>)
    ensures |r| == 2 * |columns|
  {
    if columns == [] then [] else EncodeAll(Pop(columns), littleEndian) + Encode(Top(columns), littleEndian)
  }

  /** Whole columns only: a trailing odd byte is ignored. */
  function DecodeAll(bytes: seq<byte>, littleEndian: bool): (r: seq<u16>)
    ensures |r| == |bytes| / 2
    ensures forall k :: 0 <= k < |r| ==> r[k] == Decode(bytes[2 * k], bytes[2 * k + 1], littleEndian)
  {
    seq(|bytes| / 2, k requires 0 <= k < |bytes| / 2 => Decode(bytes[2 * k], bytes[2 * k + 1], littleEndian))
  }

  const MAX_SAVED: nat := BUFFER_SIZE / 2

  /** The bytes `serialize` writes: the outermost columns that fit. */
  function Saved(columns: seq<u16>, littleEndian: bool): seq<byte> {
    EncodeAll(if |columns| > MAX_SAVED then columns[..MAX_SAVED] else columns, littleEndian)
  }

  /** The stack `deserialize` rebuilds, never without its base. */
  function Restored(bytes: seq<byte>, littleEndian: bool): seq<u16> {
    if |bytes| / 2 == 0 then [TOP_LEVEL_COLUMN] else DecodeAll(bytes, littleEndian)
  }

  lemma {:induction false} EncodedAt(columns: seq<u16>, littleEndian: bool, k: nat)
    requires k < |columns|
    ensures var bytes, pair := EncodeAll(columns, littleEndian), Encode(columns[k], littleEndian);
      bytes[2 * k] == pair[0] && bytes[2 * k + 1] == pair[1]
  {
    if k < |columns| - 1 { EncodedAt(Pop(columns), littleEndian, k); }
  }

  lemma {:induction false} DecodeEncode(columns: seq<u16>, littleEndian: bool)
    ensures DecodeAll(EncodeAll(columns, littleEndian), littleEndian) == columns
  {
    forall k | 0 <= k < |columns| ensures DecodeAll(EncodeAll(columns, littleEndian), littleEndian)[k] == columns[k] {
      EncodedAt(columns, littleEndian, k);
    }
  }

  /** Saving then restoring gives the stack back, or its outermost 512 columns when it is deeper. */
  lemma {:induction false} SaveRestoreExactly(columns: seq<u16>, littleEndian: bool)
    requires columns != []
    ensures var back := Restored(Saved(columns, littleEndian), littleEndian);
      && back == (if |columns| > MAX_SAVED then columns[..MAX_SAVED] else columns)
      && (back == columns <==> |columns| <= MAX_SAVED)
      && (Nested(columns) ==> Nested(back))
  {
    DecodeEncode(if |columns| > MAX_SAVED then columns[..MAX_SAVED] else columns, littleEndian);
  }

  // ---- runs that also save and restore ----

  datatype Call = Scanned(scan: Scan) | Save | Restore(which: nat)

  /** The stack and every buffer saved so far after one call. */
  function OneCall(columns: seq<u16>, buffers: seq<seq<byte>>, call: Call, littleEndian: bool)
    : (seq<u16>, seq<seq<byte>>)
  {
    match call
    case Scanned(s) => (ScanStep(columns, s.at, s.valid).1, buffers)
    case Save => (columns, buffers + [Saved(columns, littleEndian)])
    case Restore(k) => (Restored(if k < |buffers| then buffers[k] else [], littleEndian), buffers)
  }

  /** And after a run of calls. */
  function Calls(columns: seq<u16>, buffers: seq<seq<byte>>, calls: seq<Call>, littleEndian: bool)
    : (seq<u16>, seq<seq<byte>>)
    decreases calls
  {
    if calls == [] then (columns, buffers)
    else
      var (columns', buffers') := OneCall(columns, buffers, calls[0], littleEndian);
      Calls(columns', buffers', calls[1..], littleEndian)
  }

  ghost predicate AllNested(columns: seq<u16>, buffers: seq<seq<byte>>, littleEndian: bool) {
    Nested(columns) && forall k :: 0 <= k < |buffers| ==> Nested(Restored(buffers[k], littleEndian))
  }

  lemma {:induction false} SaveKeepsNesting(columns: seq<u16>, buffers: seq<seq<byte>>, littleEndian: bool)
    requires AllNested(columns, buffers, littleEndian)
    ensures AllNested(columns, buffers + [Saved(columns, littleEndian)], littleEndian)
  {
    var saved := Saved(columns, littleEndian);
    SaveRestoreExactly(columns, littleEndian);
    forall k | 0 <= k < |buffers + [saved]| ensures Nested(Restored((buffers + [saved])[k], littleEndian)) {
      assert (buffers + [saved])[k] == if k < |buffers| then buffers[k] else saved;
    }
  }

  lemma {:induction false} CallKeepsNesting(
      columns: seq<u16>, buffers: seq<seq<byte>>, call: Call, littleEndian: bool)
    requires AllNested(columns, buffers, littleEndian) && (call.Scanned? ==> call.scan.at.column <= 0xFFFF)
    ensures var (columns', buffers') := OneCall(columns, buffers, call, littleEndian);
      AllNested(columns', buffers', littleEndian)
  {
    match call
    case Scanned(s) => ScanKeepsNesting(columns, s.at, s.valid);
    case Save => SaveKeepsNesting(columns, buffers, littleEndian);
    case Restore(k) =>
  }

  /** Whatever is scanned, saved and restored, in any order, the stack stays nested. */
  lemma {:induction false} CallsKeepNesting(
      columns: seq<u16>, buffers: seq<seq<byte>>, calls: seq<Call>, littleEndian: bool)
    requires AllNested(columns, buffers, littleEndian)
    requires forall k :: 0 <= k < |calls| && calls[k].Scanned? ==> calls[k].scan.at.column <= 0xFFFF
    ensures Nested(Calls(columns, buffers, calls, littleEndian).0)
    decreases calls
  {
    if calls != [] {
      CallKeepsNesting(columns, buffers, calls[0], littleEndian);
      var (columns', buffers') := OneCall(columns, buffers, calls[0], littleEndian);
      CallsKeepNesting(columns', buffers', calls[1..], littleEndian);
    }
  }

  /** What the parser sees of a call. */
  datatype Seen = Emits(tokens: seq<Emitted>) | Saves | Restores(which: nat)

  function Shown(columns: seq<u16>, call: Call): Seen {
    match call
    case Scanned(s) => Emits(Emission(ScanStep(columns, s.at, s.valid).0, s.at.column))
    case Save => Saves
    case Restore(k) => Restores(k)
  }

  function Trace(columns: seq<u16>, buffers: seq<seq<byte>>, calls: seq<Call>, littleEndian: bool): seq<Seen>
    decreases calls
  {
    if calls == [] then []
    else
      var (columns', buffers') := OneCall(columns, buffers, calls[0], littleEndian);
      [Shown(columns, calls[0])] + Trace(columns', buffers', calls[1..], littleEndian)
  }

  /** The open blocks that a saved buffer has room for, after the base. */
  function Outermost(open: seq<nat>): seq<nat> {
    if |open| >= MAX_SAVED then open[..MAX_SAVED - 1] else open
  }

  /** The blocks open, and those open at each save, once the parser has seen one thing more. */
  function OpenNow(open: seq<nat>, saved: seq<seq<nat>>, seen: Seen): Option<(seq<nat>, seq<seq<nat>>)> {
    match seen
    case Emits(tokens) => (match Unmatched(open, tokens) case None => None case Some(now) => Some((now, saved)))
    case Saves => Some((open, saved + [Outermost(open)]))
    case Restores(k) => Some((if k < |saved| then saved[k] else [], saved))
  }

  function OpenAfter(open: seq<nat>, saved: seq<seq<nat>>, trace: seq<Seen>): Option<(seq<nat>, seq<seq<nat>>)>
    decreases trace
  {
    if trace == [] then Some((open, saved))
    else match OpenNow(open, saved, trace[0])
      case None => None
      case Some((open', saved')) => OpenAfter(open', saved', trace[1..])
  }

  function StackOf(open: seq<nat>): seq<u16> { [TOP_LEVEL_COLUMN] + Truncated(open) }

  /** Every buffer restores the blocks open when it was saved. */
  ghost predicate Keeps(saved: seq<seq<nat>>, buffers: seq<seq<byte>>, littleEndian: bool) {
    |saved| == |buffers| && forall k :: 0 <= k < |saved| ==> Restored(buffers[k], littleEndian) == StackOf(saved[k])
  }

  lemma {:induction false} KeepsOneMore(
      saved: seq<seq<nat>>, buffers: seq<seq<byte>>, open: seq<nat>, buffer: seq<byte>, littleEndian: bool)
    requires Keeps(saved, buffers, littleEndian) && Restored(buffer, littleEndian) == StackOf(open)
    ensures Keeps(saved + [open], buffers + [buffer], littleEndian)
  {
  }

  lemma {:induction false} OutermostStack(open: seq<nat>)
    ensures StackOf(Outermost(open)) ==
      if |StackOf(open)| > MAX_SAVED then StackOf(open)[..MAX_SAVED] else StackOf(open)
  {
    if |open| >= MAX_SAVED {
      var front := Truncated(open)[..MAX_SAVED - 1];
      assert Truncated(Outermost(open)) == front;
      assert StackOf(open)[..MAX_SAVED] == [TOP_LEVEL_COLUMN] + front;
    }
  }

  /** A save and a restore bring back the outermost open blocks. */
  lemma {:induction false} SaveKeepsOutermost(open: seq<nat>, littleEndian: bool)
    ensures Restored(Saved(StackOf(open), littleEndian), littleEndian) == StackOf(Outermost(open))
  {
    SaveRestoreExactly(StackOf(open), littleEndian);
    OutermostStack(open);
  }

  lemma {:induction false} RestoreReopens(saved: seq<seq<nat>>, buffers: seq<seq<byte>>, k: nat, littleEndian: bool)
    requires Keeps(saved, buffers, littleEndian)
    ensures Restored(if k < |buffers| then buffers[k] else [], littleEndian) ==
      StackOf(if k < |saved| then saved[k] else [])
  {
    assert Truncated([]) == [];
  }

  lemma {:induction false} CallTracksOpens(
      open: seq<nat>, saved: seq<seq<nat>>, buffers: seq<seq<byte>>, call: Call, littleEndian: bool)
    requires Keeps(saved, buffers, littleEndian)
    ensures var now := OpenNow(open, saved, Shown(StackOf(open), call));
      var (columns', buffers') := OneCall(StackOf(open), buffers, call, littleEndian);
      now.Some? && columns' == StackOf(now.value.0) && Keeps(now.value.1, buffers', littleEndian)
  {
    match call
    case Scanned(s) => StepUnmatched(open, StackOf(open), s.at, s.valid);
    case Save =>
      SaveKeepsOutermost(open, littleEndian);
      KeepsOneMore(saved, buffers, Outermost(open), Saved(StackOf(open), littleEndian), littleEndian);
    case Restore(k) => RestoreReopens(saved, buffers, k, littleEndian);
  }

  /**
   * Over any run of scans, saves and restores no close lacks an open, and the
   * stack is the base and the truncated columns of the blocks open by what the
   * parser saw, where a restore reopens the blocks of its save, as far as they
   * fitted the buffer.
   */
  lemma {:induction false} StackIsOpenBlocks(
      open: seq<nat>, saved: seq<seq<nat>>, buffers: seq<seq<byte>>, calls: seq<Call>, littleEndian: bool)
    requires Keeps(saved, buffers, littleEndian)
    ensures var now := OpenAfter(open, saved, Trace(StackOf(open), buffers, calls, littleEndian));
      now.Some? && Calls(StackOf(open), buffers, calls, littleEndian).0 == StackOf(now.value.0)
    decreases calls
  {
    if calls != [] {
      CallTracksOpens(open, saved, buffers, calls[0], littleEndian);
      var now := OpenNow(open, saved, Shown(StackOf(open), calls[0])).value;
      var (columns', buffers') := OneCall(StackOf(open), buffers, calls[0], littleEndian);
      StackIsOpenBlocks(now.0, now.1, buffers', calls[1..], littleEndian);
      var trace := Trace(StackOf(open), buffers, calls, littleEndian);
      assert trace[1..] == Trace(columns', buffers', calls[1..], littleEndian);
    }
  }

  // ---- the scanner as it runs ----

  class Scanner {
    var data: array<u16>
    var len: nat
    var cap: nat

    ghost predicate Valid()
      reads this
    {
      len <= cap == data.Length
    }

    /** The open columns, outermost first. */
    ghost function Columns(): seq<u16>
      requires Valid()
      reads this, data
    {
      data[..len]
    }

    constructor ()
      ensures Valid() && fresh(data) && Columns() == [TOP_LEVEL_COLUMN]
    {
      data := new u16[0];
      len, cap := 0, 0;
      new;
      Push(TOP_LEVEL_COLUMN);
    }

    /** `stack_push`: double a full array, then append. */
    method Push(column: u16)
      requires Valid()
      modifies this, data
      ensures Valid() && (data == old(data) || fresh(data))
      ensures Columns() == old(Columns()) + [column]
    {
      if len == cap {
        var newCap := if cap == 0 then 8 else cap * 2;
        var grown := new u16[newCap](i requires 0 <= i reads this, data => if i < data.Length then data[i] else 0);
        assert grown[..len] == data[..len];
        data := grown;
        cap := newCap;
      }
      data[len] := column;
      len := len + 1;
      assert data[..len] == old(data[..len]) + [column];
    }

    method PopTop()
      requires Valid() && len > 0
      modifies this`len
      ensures Valid() && Columns() == Pop(old(Columns()))
    {
      len := len - 1;
    }

    method Serialize(buffer: array<byte>, littleEndian: bool) returns (bytes: nat)
      requires Valid() && buffer.Length >= BUFFER_SIZE
      modifies buffer
      ensures bytes <= BUFFER_SIZE && buffer[..bytes] == Saved(Columns(), littleEndian)
    {
      var count := if len > MAX_SAVED then MAX_SAVED else len;
      bytes := 0;
      for i := 0 to count
        invariant bytes == 2 * i && buffer[..bytes] == EncodeAll(data[..i], littleEndian)
      {
        var column := Encode(data[i], littleEndian);
        ghost var before := buffer[..bytes];
        buffer[bytes] := column[0];
        buffer[bytes + 1] := column[1];
        bytes := bytes + 2;
        assert Pop(data[..i + 1]) == data[..i];
        assert buffer[..bytes] == before + column;
      }
      assert data[..len][..count] == data[..count];
    }

    method Deserialize(buffer: array<byte>, length: nat, littleEndian: bool)
      requires Valid() && length <= buffer.Length
      modifies this, data
      ensures Valid() && (data == old(data) || fresh(data))
      ensures Columns() == old(Restored(buffer[..length], littleEndian))
    {
      len := 0;
      var count := length / 2;
      ghost var bytes := buffer[..length];
      ghost var columns := DecodeAll(bytes, littleEndian);
      for i := 0 to count
        invariant Valid() && (data == old(data) || fresh(data))
        invariant Columns() == columns[..i]
      {
        Push(Decode(buffer[2 * i], buffer[2 * i + 1], littleEndian));
        assert columns[..i] + [columns[i]] == columns[..i + 1];
      }
      if len == 0 {
        Push(TOP_LEVEL_COLUMN);
      }
    }

    /** `scan`, from the position trivia skipping reached. */
    method ScanAt(at: Position, valid: Accepts) returns (token: Option<Token>)
      requires Valid()
      modifies this, data
      ensures Valid() && (data == old(data) || fresh(data))
      ensures (token, Columns()) == ScanStep(old(Columns()), at, valid)
    {
      if at.AtEof() {
        if valid.close && len > 1 {
          PopTop();
          return Some(BlockClose);
        }
        return None;
      }
      var top := if len == 0 then 0 else data[len - 1];
      if valid.close && !valid.line && !valid.open && len > 1 && at.column > top {
        PopTop();
        return Some(BlockClose);
      }
      if valid.close && !valid.open && len > 1 && at.column > top {
        if IsDelimiter(at.ahead[0]) {
          PopTop();
          return Some(BlockClose);
        }
        if at.ahead[0] == 'i' {
          if KeywordIn(at.ahead) {
            PopTop();
            return Some(BlockClose);
          }
          return None;
        }
      }
      if valid.open && (len == 0 || at.column > top) {
        Push(Truncate(at.column));
        return Some(BlockOpen);
      }
      if len > 0 {
        if valid.close && at.column < top && len > 1 {
          PopTop();
          return Some(BlockClose);
        }
        if valid.line && at.column == top {
          return Some(BlockLine);
        }
      }
      return None;
    }
  }
}
