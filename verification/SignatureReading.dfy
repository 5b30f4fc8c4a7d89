/**
 * A signature text is read in one way only: from the text back to the shape.
 *
 * The text is split into tokens, and the token stream of a shape is uniquely
 * readable with one token of lookahead.
 */
module SignatureReading {
  import opened Lettering
  import opened Signature

  // ---- lexical conditions ----

  /** The characters the printer uses as punctuation. */
  predicate IsPunctuation(c: char) {
    c in {' ', '(', ')', '{', '}', ',', ':', '|', '-', '>'}
  }

  predicate IsWord(w: string) {
    w != "" && forall i :: 0 <= i < |w| ==> !IsPunctuation(w[i])
  }

  /** One source name: a word without the module separator. */
  predicate IsName(w: string) {
    IsWord(w) && '.' !in w
  }

  ghost predicate IsVariableName(w: string) {
    exists k: nat :: w == Letters(k)
  }

  /** Every name is one word, no constructor is spelled like a variable, and tuples have two elements or more. */
  ghost predicate Lexical(s: Shape)
    decreases s, 0
  {
    match s
    case SVar(name) => IsVariableName(name)
    case SCon(segs, args) =>
      segs != [] && (forall i :: 0 <= i < |segs| ==> IsName(segs[i]))
      && (|segs| == 1 ==> !IsVariableName(segs[0])) && LexicalAll(args)
    case SArrow(from, to) => Lexical(from) && Lexical(to)
    case STuple(elems) => |elems| >= 2 && LexicalAll(elems)
    case SUnit => true
    case SRecord(entries) => LexicalEntries(entries)
    case SOpen(row, entries) => IsVariableName(row) && LexicalEntries(entries)
  }

  ghost predicate LexicalAll(ss: seq<Shape>)
    decreases ss, 0
  {
    forall i :: 0 <= i < |ss| ==> Lexical(ss[i])
  }

  ghost predicate LexicalEntry(e: SEntry)
    decreases e
  {
    IsName(e.key) && Lexical(e.ty)
  }

  ghost predicate LexicalEntries(es: seq<SEntry>)
    decreases es, 0
  {
    forall i :: 0 <= i < |es| ==> LexicalEntry(es[i])
  }

  lemma {:induction false} VariableNamesAreNames(w: string)
    requires IsVariableName(w)
    ensures IsName(w)
  {
    var k: nat :| w == Letters(k);
    assert forall i :: 0 <= i < |w| ==> 'a' <= w[i] <= 'z' || '0' <= w[i] <= '9';
  }

  // ---- tokens ----

  datatype Token = Word(text: string) | Sym(c: char)

  function WordEnd(s: string): (n: nat)
    ensures n <= |s|
    ensures forall i :: 0 <= i < n ==> !IsPunctuation(s[i])
    ensures n < |s| ==> IsPunctuation(s[n])
  {
    if s == "" || IsPunctuation(s[0]) then 0 else 1 + WordEnd(s[1..])
  }

  function Lex(s: string): seq<Token> {
    if s == "" then []
    else if s[0] == ' ' then Lex(s[1..])
    else if IsPunctuation(s[0]) then [Sym(s[0])] + Lex(s[1..])
    else [Word(s[..WordEnd(s)])] + Lex(s[WordEnd(s)..])
  }

  /** The text after a word does not extend it. */
  predicate Stops(rest: string) {
    rest == "" || IsPunctuation(rest[0])
  }

  lemma {:induction false} LexWord(w: string, rest: string)
    requires IsWord(w) && Stops(rest)
    ensures Lex(w + rest) == [Word(w)] + Lex(rest)
  {
    var s, n := w + rest, WordEnd(w + rest);
    assert forall i :: 0 <= i < |w| ==> s[i] == w[i];
    assert rest != "" ==> s[|w|] == rest[0];
    assert s[..|w|] == w && s[|w|..] == rest;
  }

  lemma {:induction false} LexSpace(rest: string)
    ensures Lex(" " + rest) == Lex(rest)
  {
    assert (" " + rest)[1..] == rest;
  }

  lemma {:induction false} LexSym(c: char, rest: string)
    requires IsPunctuation(c) && c != ' '
    ensures Lex([c] + rest) == [Sym(c)] + Lex(rest)
    ensures Lex([c, ' '] + rest) == [Sym(c)] + Lex(rest)
    ensures Lex([' ', c] + rest) == [Sym(c)] + Lex(rest)
    ensures Lex([' ', c, ' '] + rest) == [Sym(c)] + Lex(rest)
  {
    assert ([c] + rest)[1..] == rest;
    assert ([c, ' '] + rest)[1..] == " " + rest;
    assert ([' ', c] + rest)[1..] == [c] + rest;
    assert ([' ', c, ' '] + rest)[1..] == [c, ' '] + rest;
    LexSpace(rest);
  }

  lemma {:induction false} LexArrow(rest: string)
    ensures Lex(" -> " + rest) == [Sym('-'), Sym('>')] + Lex(rest)
  {
    assert " -> " + rest == " -" + ("> " + rest);
    LexSym('-', "> " + rest);
    LexSym('>', rest);
  }

  // ---- the text of a shape, in entry order, followed by `rest` ----

  function FlatThen(s: Shape, rest: string): string
    decreases s, 0
  {
    match s
    case SVar(name) => name + rest
    case SCon(segs, args) => Join(segs, ".") + FlatArgsThen(args, rest)
    case SArrow(from, to) => FlatArgThen(from, " -> " + FlatThen(to, rest))
    case STuple(elems) => "(" + FlatListThen(elems, ")" + rest)
    case SUnit => "()" + rest
    case SRecord(entries) => "{ " + FlatEntriesThen(entries, " }" + rest)
    case SOpen(row, entries) => "{ " + (row + (" | " + FlatEntriesThen(entries, " }" + rest)))
  }

  function FlatArgThen(s: Shape, rest: string): string
    decreases s, 1
  {
    if NeedsParens(s) then "(" + FlatThen(s, ")" + rest) else FlatThen(s, rest)
  }

  function FlatArgsThen(ss: seq<Shape>, rest: string): string
    decreases ss, 0
  {
    if ss == [] then rest else " " + FlatArgThen(ss[0], FlatArgsThen(ss[1..], rest))
  }

  function FlatListThen(ss: seq<Shape>, rest: string): string
    decreases ss, 0
  {
    if ss == [] then rest
    else FlatThen(ss[0], if |ss| == 1 then rest else ", " + FlatListThen(ss[1..], rest))
  }

  function FlatEntryThen(e: SEntry, rest: string): string
    decreases e
  {
    e.key + (" : " + FlatThen(e.ty, rest))
  }

  function FlatEntriesThen(es: seq<SEntry>, rest: string): string
    decreases es, 0
  {
    if es == [] then rest
    else FlatEntryThen(es[0], if |es| == 1 then rest else ", " + FlatEntriesThen(es[1..], rest))
  }

  // ---- the tokens of a shape, followed by `rest` ----

  function ToksThen(s: Shape, rest: seq<Token>): seq<Token>
    decreases s, 0
  {
    match s
    case SVar(name) => [Word(name)] + rest
    case SCon(segs, args) => [Word(Join(segs, "."))] + ArgsToksThen(args, rest)
    case SArrow(from, to) => ArgToksThen(from, [Sym('-'), Sym('>')] + ToksThen(to, rest))
    case STuple(elems) => [Sym('(')] + ListToksThen(elems, [Sym(')')] + rest)
    case SUnit => [Sym('(')] + ([Sym(')')] + rest)
    case SRecord(entries) => [Sym('{')] + EntriesToksThen(entries, [Sym('}')] + rest)
    case SOpen(row, entries) =>
      [Sym('{')] + ([Word(row)] + ([Sym('|')] + EntriesToksThen(entries, [Sym('}')] + rest)))
  }

  function ArgToksThen(s: Shape, rest: seq<Token>): seq<Token>
    decreases s, 1
  {
    if NeedsParens(s) then [Sym('(')] + ToksThen(s, [Sym(')')] + rest) else ToksThen(s, rest)
  }

  function ArgsToksThen(ss: seq<Shape>, rest: seq<Token>): seq<Token>
    decreases ss, 0
  {
    if ss == [] then rest else ArgToksThen(ss[0], ArgsToksThen(ss[1..], rest))
  }

  function ListToksThen(ss: seq<Shape>, rest: seq<Token>): seq<Token>
    decreases ss, 0
  {
    if ss == [] then rest
    else ToksThen(ss[0], if |ss| == 1 then rest else [Sym(',')] + ListToksThen(ss[1..], rest))
  }

  function EntryToksThen(e: SEntry, rest: seq<Token>): seq<Token>
    decreases e
  {
    [Word(e.key)] + ([Sym(':')] + ToksThen(e.ty, rest))
  }

  function EntriesToksThen(es: seq<SEntry>, rest: seq<Token>): seq<Token>
    decreases es, 0
  {
    if es == [] then rest
    else EntryToksThen(es[0], if |es| == 1 then rest else [Sym(',')] + EntriesToksThen(es[1..], rest))
  }

  // ---- lexing the text gives the tokens ----

  lemma {:induction false} DottedIsWord(segs: seq<string>)
    requires segs != [] && forall i :: 0 <= i < |segs| ==> IsName(segs[i])
    ensures IsWord(Join(segs, "."))
  {
    if |segs| > 1 { DottedIsWord(segs[1..]); }
  }

  lemma {:induction false} LexFlat(s: Shape, rest: string)
    requires Lexical(s) && Stops(rest)
    ensures Lex(FlatThen(s, rest)) == ToksThen(s, Lex(rest))
    decreases s, 0
  {
    match s
    case SVar(name) =>
      VariableNamesAreNames(name);
      LexWord(name, rest);
    case SCon(segs, args) =>
      DottedIsWord(segs);
      LexWord(Join(segs, "."), FlatArgsThen(args, rest));
      LexFlatArgs(args, rest);
    case SArrow(from, to) =>
      LexFlatArg(from, " -> " + FlatThen(to, rest));
      LexArrow(FlatThen(to, rest));
      LexFlat(to, rest);
    case STuple(elems) =>
      LexSym('(', FlatListThen(elems, ")" + rest));
      LexFlatList(elems, ")" + rest);
      LexSym(')', rest);
    case SUnit =>
      assert "()" + rest == "(" + (")" + rest);
      LexSym('(', ")" + rest);
      LexSym(')', rest);
    case SRecord(entries) =>
      LexSym('{', FlatEntriesThen(entries, " }" + rest));
      LexFlatEntries(entries, " }" + rest);
      LexSym('}', rest);
    case SOpen(row, entries) =>
      VariableNamesAreNames(row);
      LexSym('{', row + (" | " + FlatEntriesThen(entries, " }" + rest)));
      LexWord(row, " | " + FlatEntriesThen(entries, " }" + rest));
      LexSym('|', FlatEntriesThen(entries, " }" + rest));
      LexFlatEntries(entries, " }" + rest);
      LexSym('}', rest);
  }

  lemma {:induction false} LexFlatArg(s: Shape, rest: string)
    requires Lexical(s) && Stops(rest)
    ensures Lex(FlatArgThen(s, rest)) == ArgToksThen(s, Lex(rest))
    decreases s, 1
  {
    if NeedsParens(s) {
      LexSym('(', FlatThen(s, ")" + rest));
      LexFlat(s, ")" + rest);
      LexSym(')', rest);
    } else {
      LexFlat(s, rest);
    }
  }

  lemma {:induction false} LexFlatArgs(ss: seq<Shape>, rest: string)
    requires LexicalAll(ss) && Stops(rest)
    ensures Stops(FlatArgsThen(ss, rest)) && Lex(FlatArgsThen(ss, rest)) == ArgsToksThen(ss, Lex(rest))
    decreases ss, 0
  {
    if ss != [] {
      LexFlatArgs(ss[1..], rest);
      LexFlatArg(ss[0], FlatArgsThen(ss[1..], rest));
      LexSpace(FlatArgThen(ss[0], FlatArgsThen(ss[1..], rest)));
    }
  }

  lemma {:induction false} LexFlatList(ss: seq<Shape>, rest: string)
    requires LexicalAll(ss) && Stops(rest)
    ensures Lex(FlatListThen(ss, rest)) == ListToksThen(ss, Lex(rest))
    decreases ss, 0
  {
    if ss != [] {
      LexFlatList(ss[1..], rest);
      LexSym(',', FlatListThen(ss[1..], rest));
      LexFlat(ss[0], if |ss| == 1 then rest else ", " + FlatListThen(ss[1..], rest));
    }
  }

  lemma {:induction false} LexFlatEntry(e: SEntry, rest: string)
    requires LexicalEntry(e) && Stops(rest)
    ensures Lex(FlatEntryThen(e, rest)) == EntryToksThen(e, Lex(rest))
    decreases e
  {
    LexWord(e.key, " : " + FlatThen(e.ty, rest));
    LexSym(':', FlatThen(e.ty, rest));
    LexFlat(e.ty, rest);
  }

  lemma {:induction false} LexFlatEntries(es: seq<SEntry>, rest: string)
    requires LexicalEntries(es) && Stops(rest)
    ensures Lex(FlatEntriesThen(es, rest)) == EntriesToksThen(es, Lex(rest))
    decreases es, 0
  {
    if es != [] {
      LexFlatEntries(es[1..], rest);
      LexSym(',', FlatEntriesThen(es[1..], rest));
      LexFlatEntry(es[0], if |es| == 1 then rest else ", " + FlatEntriesThen(es[1..], rest));
    }
  }

  // ---- the tokens are read in one way only ----

  /** The tokens that can follow a whole type. */
  predicate Follows(rest: seq<Token>) {
    rest == [] || rest[0] in {Sym(')'), Sym(','), Sym('}')}
  }

  lemma {:induction false} TokenCancel(a: Token, b: Token, r: seq<Token>, s: seq<Token>)
    requires [a] + r == [b] + s
    ensures a == b && r == s
  {
    assert ([a] + r)[0] == a && ([b] + s)[0] == b;
    assert ([a] + r)[1..] == r && ([b] + s)[1..] == s;
  }

  /** The first token of a shape in argument position. */
  lemma {:induction false} ArgStarts(s: Shape, rest: seq<Token>)
    ensures var t := ArgToksThen(s, rest);
      t != [] && (t[0] == Sym('(') || t[0] == Sym('{') || t[0].Word?)
    ensures var t := ArgToksThen(s, rest);
      && (t[0] == Sym('(') <==> NeedsParens(s) || s.STuple? || s.SUnit?)
      && (t[0] == Sym('{') <==> s.SRecord? || s.SOpen?)
  {
  }

  lemma {:induction false} TypeStarts(s: Shape, rest: seq<Token>)
    ensures var t := ToksThen(s, rest);
      t != [] && (t[0] == Sym('(') || t[0] == Sym('{') || t[0].Word?)
    decreases s
  {
    if s.SArrow? { ArgStarts(s.from, [Sym('-'), Sym('>')] + ToksThen(s.to, rest)); }
  }

  lemma {:induction false} DottedInjective(a: seq<string>, b: seq<string>)
    requires a != [] && b != []
    requires forall i :: 0 <= i < |a| ==> IsName(a[i])
    requires forall i :: 0 <= i < |b| ==> IsName(b[i])
    requires Join(a, ".") == Join(b, ".")
    ensures a == b
  {
    FirstDot(a);
    FirstDot(b);
    var s := Join(a, ".");
    assert a[0] == s[..|a[0]|] && b[0] == s[..|b[0]|];
    if |a| > 1 {
      assert s[|a[0]| + 1..] == Join(a[1..], ".");
      assert s[|b[0]| + 1..] == Join(b[1..], ".");
      DottedInjective(a[1..], b[1..]);
    }
    assert a == [a[0]] + a[1..] && b == [b[0]] + b[1..];
  }

  /** Index of the first separator, or the length. */
  function DotAt(s: string): (n: nat)
    ensures n <= |s|
  {
    if s == "" || s[0] == '.' then 0 else 1 + DotAt(s[1..])
  }

  lemma {:induction false} DotAfter(w: string, rest: string)
    requires '.' !in w && (rest == "" || rest[0] == '.')
    ensures DotAt(w + rest) == |w|
  {
    if w == "" {
      assert w + rest == rest;
    } else {
      assert (w + rest)[1..] == w[1..] + rest;
      DotAfter(w[1..], rest);
    }
  }

  lemma {:induction false} FirstDot(a: seq<string>)
    requires a != [] && forall i :: 0 <= i < |a| ==> IsName(a[i])
    ensures DotAt(Join(a, ".")) == |a[0]| && (|a| == 1 <==> |Join(a, ".")| == |a[0]|)
  {
    if |a| == 1 {
      DotAfter(a[0], "");
      assert a[0] + "" == a[0];
    } else {
      DotAfter(a[0], "." + Join(a[1..], "."));
      assert a[0] + "." + Join(a[1..], ".") == a[0] + ("." + Join(a[1..], "."));
    }
  }

  lemma {:induction false} VariablesAreNotConstructors(w: string, segs: seq<string>)
    requires IsVariableName(w) && segs != []
    requires forall i :: 0 <= i < |segs| ==> IsName(segs[i])
    requires |segs| == 1 ==> !IsVariableName(segs[0])
    ensures Join(segs, ".") != w
  {
    VariableNamesAreNames(w);
    DotAfter(w, "");
    assert w + "" == w;
    FirstDot(segs);
    if |segs| == 1 {
      assert segs[0] == Join(segs, ".");
    }
  }

  /** A whole type is read in one way from any text it starts. */
  lemma {:induction false} TypeReading(s: Shape, r: seq<Token>, t: Shape, q: seq<Token>)
    requires Lexical(s) && Lexical(t) && Follows(r) && Follows(q)
    requires ToksThen(s, r) == ToksThen(t, q)
    ensures s == t && r == q
    decreases s, 4
  {
    if s.SArrow? && t.SArrow? {
      var r', q' := [Sym('-'), Sym('>')] + ToksThen(s.to, r), [Sym('-'), Sym('>')] + ToksThen(t.to, q);
      ArgReading(s.from, r', t.from, q');
      assert r'[2..] == ToksThen(s.to, r) && q'[2..] == ToksThen(t.to, q);
      TypeReading(s.to, r, t.to, q);
    } else if s.SArrow? {
      ArrowIsNotPlain(s, r, t, q);
    } else if t.SArrow? {
      PlainIsNotArrow(s, r, t, q);
    } else if s.SCon? && t.SCon? {
      TokenCancel(Word(Join(s.segs, ".")), Word(Join(t.segs, ".")), ArgsToksThen(s.args, r), ArgsToksThen(t.args, q));
      DottedInjective(s.segs, t.segs);
      ArgsReading(s.args, r, t.args, q);
    } else {
      PlainReading(s, r, t, q);
    }
  }

  /** The tokens of an arrow whose left side is a single word. */
  lemma {:induction false} ArrowAfterWord(s: Shape, r: seq<Token>, segs: seq<string>, args: seq<Shape>, q: seq<Token>)
    requires s.SArrow? && args != []
    ensures ToksThen(s, r) != [Word(Join(segs, "."))] + ArgsToksThen(args, q)
  {
    var r' := [Sym('-'), Sym('>')] + ToksThen(s.to, r);
    ArgStarts(s.from, r');
    ArgStarts(args[0], ArgsToksThen(args[1..], q));
    if ToksThen(s, r)[0].Word? {
      var w := if s.from.SVar? then s.from.name else Join(s.from.segs, ".");
      assert ToksThen(s, r) == ArgToksThen(s.from, r') == ToksThen(s.from, r') == [Word(w)] + r';
      assert ToksThen(s, r)[1] == Sym('-');
    }
  }

  /** An arrow never reads as a type of another kind. */
  lemma {:induction false} ArrowIsNotPlain(s: Shape, r: seq<Token>, t: Shape, q: seq<Token>)
    requires Lexical(s) && Lexical(t) && s.SArrow? && !t.SArrow? && Follows(q)
    ensures ToksThen(s, r) != ToksThen(t, q)
    decreases s, 0
  {
    if NeedsParens(t) {
      ArrowAfterWord(s, r, t.segs, t.args, q);
    } else if ToksThen(s, r) == ToksThen(t, q) {
      ArgReading(s.from, [Sym('-'), Sym('>')] + ToksThen(s.to, r), t, q);
    }
  }

  /** As `ArrowIsNotPlain`, with the sides exchanged. */
  lemma {:induction false} PlainIsNotArrow(s: Shape, r: seq<Token>, t: Shape, q: seq<Token>)
    requires Lexical(s) && Lexical(t) && !s.SArrow? && t.SArrow? && Follows(r)
    ensures ToksThen(s, r) != ToksThen(t, q)
    decreases s, 3
  {
    if NeedsParens(s) {
      ArrowAfterWord(t, q, s.segs, s.args, r);
    } else if ToksThen(s, r) == ToksThen(t, q) {
      BareReading(s, r, t.from, [Sym('-'), Sym('>')] + ToksThen(t.to, q));
    }
  }

  /** An unparenthesised argument on the left. */
  lemma {:induction false} BareReading(s: Shape, r: seq<Token>, t: Shape, q: seq<Token>)
    requires Lexical(s) && Lexical(t) && !NeedsParens(s)
    requires ArgToksThen(s, r) == ArgToksThen(t, q)
    ensures s == t && r == q
    decreases s, 2
  {
    if NeedsParens(t) {
      TupleIsNotParens(s, r, t, q);
    } else if s.SCon? && t.SCon? {
      TokenCancel(Word(Join(s.segs, ".")), Word(Join(t.segs, ".")), ArgsToksThen(s.args, r), ArgsToksThen(t.args, q));
      DottedInjective(s.segs, t.segs);
    } else {
      PlainReading(s, r, t, q);
    }
  }

  /** Two types that are neither arrows nor both constructors. */
  lemma {:induction false} PlainReading(s: Shape, r: seq<Token>, t: Shape, q: seq<Token>)
    requires Lexical(s) && Lexical(t) && !s.SArrow? && !t.SArrow? && !(s.SCon? && t.SCon?)
    requires ToksThen(s, r) == ToksThen(t, q)
    ensures s == t && r == q
    decreases s, 1
  {
    if s.SVar? && t.SVar? {
      TokenCancel(Word(s.name), Word(t.name), r, q);
    } else if s.SVar? && t.SCon? {
      TokenCancel(Word(s.name), Word(Join(t.segs, ".")), r, ArgsToksThen(t.args, q));
      VariablesAreNotConstructors(s.name, t.segs);
    } else if s.SCon? && t.SVar? {
      TokenCancel(Word(Join(s.segs, ".")), Word(t.name), ArgsToksThen(s.args, r), q);
      VariablesAreNotConstructors(t.name, s.segs);
    } else {
      assert ToksThen(s, r)[0] == ToksThen(t, q)[0];
      BracketReading(s, r, t, q);
    }
  }

  ghost predicate Bracketed(s: Shape) {
    s.STuple? || s.SUnit? || s.SRecord? || s.SOpen?
  }

  lemma {:induction false} BracketReading(s: Shape, r: seq<Token>, t: Shape, q: seq<Token>)
    requires Lexical(s) && Lexical(t) && Bracketed(s) && Bracketed(t)
    requires ToksThen(s, r) == ToksThen(t, q)
    ensures s == t && r == q
    decreases s, 0
  {
    var s', t' := ToksThen(s, r)[1..], ToksThen(t, q)[1..];
    assert ToksThen(s, r)[0] == ToksThen(t, q)[0];
    var rp, qp := [Sym(')')] + r, [Sym(')')] + q;
    var rb, qb := [Sym('}')] + r, [Sym('}')] + q;
    if s.STuple? && t.STuple? {
      assert s' == ListToksThen(s.elems, rp) && t' == ListToksThen(t.elems, qp);
      ListReading(s.elems, rp, t.elems, qp);
      TokenCancel(Sym(')'), Sym(')'), r, q);
    } else if s.SUnit? && t.SUnit? {
      TokenCancel(Sym('('), Sym('('), rp, qp);
      TokenCancel(Sym(')'), Sym(')'), r, q);
    } else if s.STuple? {
      TupleIsNotUnit(s.elems, rp, t', q);
    } else if t.STuple? {
      TupleIsNotUnit(t.elems, qp, s', r);
    } else if s.SRecord? && t.SRecord? {
      assert s' == EntriesToksThen(s.entries, rb) && t' == EntriesToksThen(t.entries, qb);
      EntriesReading(s.entries, rb, t.entries, qb);
      TokenCancel(Sym('}'), Sym('}'), r, q);
    } else if s.SOpen? && t.SOpen? {
      TokenCancel(Word(s.row), Word(t.row), [Sym('|')] + EntriesToksThen(s.entries, rb),
                  [Sym('|')] + EntriesToksThen(t.entries, qb));
      TokenCancel(Sym('|'), Sym('|'), EntriesToksThen(s.entries, rb), EntriesToksThen(t.entries, qb));
      EntriesReading(s.entries, rb, t.entries, qb);
      TokenCancel(Sym('}'), Sym('}'), r, q);
    } else if s.SRecord? {
      RecordIsNotOpen(s.entries, rb, t.row, EntriesToksThen(t.entries, qb));
    } else {
      RecordIsNotOpen(t.entries, qb, s.row, EntriesToksThen(s.entries, rb));
    }
  }

  lemma {:induction false} TupleIsNotUnit(elems: seq<Shape>, rp: seq<Token>, toks: seq<Token>, q: seq<Token>)
    requires |elems| >= 2 && toks == [Sym(')')] + q
    ensures ListToksThen(elems, rp) != toks
  {
    TypeStarts(elems[0], [Sym(',')] + ListToksThen(elems[1..], rp));
  }

  lemma {:induction false} RecordIsNotOpen(entries: seq<SEntry>, rb: seq<Token>, row: string, more: seq<Token>)
    requires rb != [] && rb[0] == Sym('}')
    ensures EntriesToksThen(entries, rb) != [Word(row)] + ([Sym('|')] + more)
  {
    if entries != [] {
      var rest := if |entries| == 1 then rb else [Sym(',')] + EntriesToksThen(entries[1..], rb);
      var e := entries[0];
      assert EntriesToksThen(entries, rb) == [Word(e.key)] + ([Sym(':')] + ToksThen(e.ty, rest));
      assert EntriesToksThen(entries, rb)[1] == Sym(':');
      assert ([Word(row)] + ([Sym('|')] + more))[1] == Sym('|');
    }
  }

  /** An argument is read in one way, whatever follows it. */
  lemma {:induction false} ArgReading(s: Shape, r: seq<Token>, t: Shape, q: seq<Token>)
    requires Lexical(s) && Lexical(t)
    requires ArgToksThen(s, r) == ArgToksThen(t, q)
    ensures s == t && r == q
    decreases s, 6
  {
    ArgStarts(s, r);
    ArgStarts(t, q);
    var rp, qp := [Sym(')')] + r, [Sym(')')] + q;
    if !NeedsParens(s) {
      BareReading(s, r, t, q);
    } else if NeedsParens(t) {
      TokenCancel(Sym('('), Sym('('), ToksThen(s, rp), ToksThen(t, qp));
      TypeReading(s, rp, t, qp);
      TokenCancel(Sym(')'), Sym(')'), r, q);
    } else {
      ParensAreNotTuple(s, r, t, q);
    }
  }

  lemma {:induction false} ParensAreNotTuple(s: Shape, r: seq<Token>, t: Shape, q: seq<Token>)
    requires Lexical(s) && Lexical(t) && NeedsParens(s) && !NeedsParens(t)
    ensures ArgToksThen(s, r) != ArgToksThen(t, q)
    decreases s, 5
  {
    ArgStarts(s, r);
    ArgStarts(t, q);
    var rp := [Sym(')')] + r;
    TypeStarts(s, rp);
    assert ArgToksThen(s, r)[1] == ToksThen(s, rp)[0];
    assert t.SUnit? ==> ToksThen(t, q)[1] == Sym(')');
    if t.STuple? && ArgToksThen(s, r) == ArgToksThen(t, q) {
      var more := [Sym(',')] + ListToksThen(t.elems[1..], [Sym(')')] + q);
      assert ArgToksThen(t, q) == ToksThen(t, q) == [Sym('(')] + ListToksThen(t.elems, [Sym(')')] + q);
      assert ListToksThen(t.elems, [Sym(')')] + q) == ToksThen(t.elems[0], more);
      TokenCancel(Sym('('), Sym('('), ToksThen(s, rp), ToksThen(t.elems[0], more));
      TypeReading(s, rp, t.elems[0], more);
    }
  }

  lemma {:induction false} TupleIsNotParens(s: Shape, r: seq<Token>, t: Shape, q: seq<Token>)
    requires Lexical(s) && Lexical(t) && !NeedsParens(s) && NeedsParens(t)
    ensures ArgToksThen(s, r) != ArgToksThen(t, q)
    decreases s, 0
  {
    ArgStarts(s, r);
    ArgStarts(t, q);
    var qp := [Sym(')')] + q;
    TypeStarts(t, qp);
    assert ArgToksThen(t, q)[1] == ToksThen(t, qp)[0];
    assert s.SUnit? ==> ToksThen(s, r)[1] == Sym(')');
    if s.STuple? && ArgToksThen(s, r) == ArgToksThen(t, q) {
      var more := [Sym(',')] + ListToksThen(s.elems[1..], [Sym(')')] + r);
      assert ArgToksThen(s, r) == ToksThen(s, r) == [Sym('(')] + ListToksThen(s.elems, [Sym(')')] + r);
      assert ListToksThen(s.elems, [Sym(')')] + r) == ToksThen(s.elems[0], more);
      TokenCancel(Sym('('), Sym('('), ToksThen(s.elems[0], more), ToksThen(t, qp));
      TypeReading(s.elems[0], more, t, qp);
    }
  }

  lemma {:induction false} ArgsReading(ss: seq<Shape>, r: seq<Token>, ts: seq<Shape>, q: seq<Token>)
    requires LexicalAll(ss) && LexicalAll(ts) && Follows(r) && Follows(q)
    requires ArgsToksThen(ss, r) == ArgsToksThen(ts, q)
    ensures ss == ts && r == q
    decreases ss, 0
  {
    if ss != [] { ArgStarts(ss[0], ArgsToksThen(ss[1..], r)); }
    if ts != [] { ArgStarts(ts[0], ArgsToksThen(ts[1..], q)); }
    if ss != [] && ts != [] {
      ArgReading(ss[0], ArgsToksThen(ss[1..], r), ts[0], ArgsToksThen(ts[1..], q));
      ArgsReading(ss[1..], r, ts[1..], q);
      assert ss == [ss[0]] + ss[1..] && ts == [ts[0]] + ts[1..];
    }
  }

  lemma {:induction false} ListReading(ss: seq<Shape>, r: seq<Token>, ts: seq<Shape>, q: seq<Token>)
    requires LexicalAll(ss) && LexicalAll(ts) && ss != [] && ts != []
    requires r != [] && q != [] && r[0] == q[0] == Sym(')')
    requires ListToksThen(ss, r) == ListToksThen(ts, q)
    ensures ss == ts && r == q
    decreases ss, 0
  {
    var r' := if |ss| == 1 then r else [Sym(',')] + ListToksThen(ss[1..], r);
    var q' := if |ts| == 1 then q else [Sym(',')] + ListToksThen(ts[1..], q);
    TypeReading(ss[0], r', ts[0], q');
    SameFirstToken(r', q');
    if |ss| > 1 && |ts| > 1 {
      TokenCancel(Sym(','), Sym(','), ListToksThen(ss[1..], r), ListToksThen(ts[1..], q));
      ListReading(ss[1..], r, ts[1..], q);
    }
    assert ss == [ss[0]] + ss[1..] && ts == [ts[0]] + ts[1..];
  }

  lemma {:induction false} SameFirstToken(r: seq<Token>, q: seq<Token>)
    requires r != [] && r == q
    ensures r[0] == q[0]
  {
  }

  lemma {:induction false} EntryReading(e: SEntry, r: seq<Token>, f: SEntry, q: seq<Token>)
    requires LexicalEntry(e) && LexicalEntry(f) && Follows(r) && Follows(q)
    requires EntryToksThen(e, r) == EntryToksThen(f, q)
    ensures e == f && r == q
    decreases e, 0
  {
    TokenCancel(Word(e.key), Word(f.key), [Sym(':')] + ToksThen(e.ty, r), [Sym(':')] + ToksThen(f.ty, q));
    TokenCancel(Sym(':'), Sym(':'), ToksThen(e.ty, r), ToksThen(f.ty, q));
    TypeReading(e.ty, r, f.ty, q);
  }

  lemma {:induction false} EntriesReading(es: seq<SEntry>, r: seq<Token>, fs: seq<SEntry>, q: seq<Token>)
    requires LexicalEntries(es) && LexicalEntries(fs)
    requires r != [] && q != [] && r[0] == q[0] == Sym('}')
    requires EntriesToksThen(es, r) == EntriesToksThen(fs, q)
    ensures es == fs && r == q
    decreases es, 0
  {
    if es != [] && fs != [] {
      var r' := if |es| == 1 then r else [Sym(',')] + EntriesToksThen(es[1..], r);
      var q' := if |fs| == 1 then q else [Sym(',')] + EntriesToksThen(fs[1..], q);
      EntryReading(es[0], r', fs[0], q');
      if |es| > 1 && |fs| > 1 {
        TokenCancel(Sym(','), Sym(','), EntriesToksThen(es[1..], r), EntriesToksThen(fs[1..], q));
        EntriesReading(es[1..], r, fs[1..], q);
      }
      assert es == [es[0]] + es[1..] && fs == [fs[0]] + fs[1..];
    }
  }

  /** Two lexical shapes with one text are one shape. */
  lemma {:induction false} FlatInjective(s: Shape, t: Shape)
    requires Lexical(s) && Lexical(t) && FlatThen(s, "") == FlatThen(t, "")
    ensures s == t
  {
    LexFlat(s, "");
    LexFlat(t, "");
    TypeReading(s, [], t, []);
  }
}
