/**
 * Rendering one constructor argument's type as its canonical signature text.
 *
 * A first-seen namer is threaded through a recursive printer. The text is a
 * canonical form: renaming variables never changes it, and two types with one
 * text differ only by a variable renaming and the order of record fields.
 */
module Signature {
  import opened Prelude
  import opened Lettering
  import opened Orders

  /** An interned name, by its raw id. */
  type Symbol = x: int | 0 <= x < 0x1_0000_0000

  datatype Type =
    | Var(sym: Symbol)
    | Con(home: seq<Symbol>, name: Symbol, args: seq<Type>)
    | Lambda(from: Type, to: Type)
    | Tuple(elems: seq<Type>)
    | Unit
    | Record(fields: seq<Field>)
    | RecordOpen(row: Symbol, fields: seq<Field>)

  datatype Field = Field(name: Symbol, ty: Type)

  /** The interner's backing strings. */
  type Interner = map<Symbol, string>

  /** A symbol without a backing string. */
  datatype Bug = UnresolvedSymbol

  // ---- names ----

  /** The variables seen so far, oldest first. */
  function See(seen: seq<Symbol>, sym: Symbol): seq<Symbol> {
    if sym in seen then seen else seen + [sym]
  }

  function IndexOf(seen: seq<Symbol>, sym: Symbol): (k: nat)
    requires sym in seen
    ensures k < |seen| && seen[k] == sym
  {
    if seen[0] == sym then 0 else 1 + IndexOf(seen[1..], sym)
  }

  lemma {:induction false} IndexIsUnique(seen: seq<Symbol>, k: nat)
    requires Distinct(seen) && k < |seen|
    ensures IndexOf(seen, seen[k]) == k
  {
    if k != 0 { IndexIsUnique(seen[1..], k - 1); }
  }

  lemma {:induction false} IndexSurvivesGrowth(seen: seq<Symbol>, grown: seq<Symbol>, sym: Symbol)
    requires sym in seen && seen <= grown
    ensures IndexOf(grown, sym) == IndexOf(seen, sym)
  {
    if seen[0] != sym { IndexSurvivesGrowth(seen[1..], grown[1..], sym); }
  }

  function NameIn(seen: seq<Symbol>, sym: Symbol): string
    requires sym in seen
  {
    Letters(IndexOf(seen, sym))
  }

  // ---- shapes: types with every name spelled out ----

  datatype Shape =
    | SVar(name: string)
    | SCon(segs: seq<string>, args: seq<Shape>)
    | SArrow(from: Shape, to: Shape)
    | STuple(elems: seq<Shape>)
    | SUnit
    | SRecord(entries: seq<SEntry>)
    | SOpen(row: string, entries: seq<SEntry>)

  datatype SEntry = SEntry(key: string, ty: Shape)

  function Resolve(names: Interner, sym: Symbol): Result<string, Bug> {
    if sym in names then Ok(names[sym]) else Err(UnresolvedSymbol)
  }

  function ResolveAll(names: Interner, syms: seq<Symbol>): (r: Result<seq<string>, Bug>)
    ensures r.Ok? <==> forall s :: s in syms ==> s in names
  {
    if syms == [] then Ok([])
    else
      var first :- Resolve(names, syms[0]);
      var rest :- ResolveAll(names, syms[1..]);
      Ok([first] + rest)
  }

  /** The shape of a type under first-seen naming, with the variables seen after it. */
  function Named(ty: Type, seen: seq<Symbol>, names: Interner): (r: Result<(Shape, seq<Symbol>), Bug>)
    ensures r.Ok? ==> seen <= r.value.1
    decreases ty, 0
  {
    match ty
    case Var(sym) => Ok((SVar(NameIn(See(seen, sym), sym)), See(seen, sym)))
    case Con(home, name, args) =>
      var segs :- ResolveAll(names, home + [name]);
      var (args', seen') :- NamedAll(args, seen, names);
      Ok((SCon(segs, args'), seen'))
    case Lambda(from, to) =>
      var (from', seen') :- Named(from, seen, names);
      var (to', seen'') :- Named(to, seen', names);
      Ok((SArrow(from', to'), seen''))
    case Tuple(elems) =>
      var (elems', seen') :- NamedAll(elems, seen, names);
      Ok((STuple(elems'), seen'))
    case Unit => Ok((SUnit, seen))
    case Record(fields) =>
      var (entries, seen') :- NamedFields(fields, seen, names);
      Ok((SRecord(entries), seen'))
    case RecordOpen(row, fields) =>
      var (entries, seen') :- NamedFields(fields, seen, names);
      Ok((SOpen(NameIn(See(seen', row), row), entries), See(seen', row)))
  }

  function NamedAll(tys: seq<Type>, seen: seq<Symbol>, names: Interner): (r: Result<(seq<Shape>, seq<Symbol>), Bug>)
    ensures r.Ok? ==> seen <= r.value.1 && |r.value.0| == |tys|
    decreases tys, 0
  {
    if tys == [] then Ok(([], seen))
    else
      var (first, seen') :- Named(tys[0], seen, names);
      var (rest, seen'') :- NamedAll(tys[1..], seen', names);
      Ok(([first] + rest, seen''))
  }

  function NamedFields(fields: seq<Field>, seen: seq<Symbol>, names: Interner)
    : (r: Result<(seq<SEntry>, seq<Symbol>), Bug>)
    ensures r.Ok? ==> seen <= r.value.1 && |r.value.0| == |fields|
    decreases fields, 0
  {
    if fields == [] then Ok(([], seen))
    else
      var (first, seen') :- NamedField(fields[0], seen, names);
      var (rest, seen'') :- NamedFields(fields[1..], seen', names);
      Ok(([first] + rest, seen''))
  }

  function NamedField(field: Field, seen: seq<Symbol>, names: Interner): (r: Result<(SEntry, seq<Symbol>), Bug>)
    ensures r.Ok? ==> seen <= r.value.1
    decreases field, 0
  {
    var key :- Resolve(names, field.name);
    var (ty, seen') :- Named(field.ty, seen, names);
    Ok((SEntry(key, ty), seen'))
  }

  // ---- printing ----

  function Join(parts: seq<string>, sep: string): string {
    if parts == [] then ""
    else if |parts| == 1 then parts[0]
    else parts[0] + sep + Join(parts[1..], sep)
  }

  predicate NeedsParens(s: Shape) {
    s.SArrow? || (s.SCon? && s.args != [])
  }

  function Print(s: Shape): string
    decreases s, 0
  {
    match s
    case SVar(name) => name
    case SCon(segs, args) =>
      if args == [] then Join(segs, ".") else Join(segs, ".") + " " + Join(PrintArgs(args), " ")
    case SArrow(from, to) => PrintArg(from) + " -> " + Print(to)
    case STuple(elems) => "(" + Join(PrintAll(elems), ", ") + ")"
    case SUnit => "()"
    case SRecord(entries) => "{ " + Join(Sort(TextLe, PrintEntries(entries)), ", ") + " }"
    case SOpen(row, entries) => "{ " + row + " | " + Join(Sort(TextLe, PrintEntries(entries)), ", ") + " }"
  }

  function PrintArg(s: Shape): string
    decreases s, 1
  {
    if NeedsParens(s) then "(" + Print(s) + ")" else Print(s)
  }

  function PrintAll(ss: seq<Shape>): (r: seq<string>)
    ensures |r| == |ss|
    decreases ss, 0
  {
    if ss == [] then [] else [Print(ss[0])] + PrintAll(ss[1..])
  }

  function PrintArgs(ss: seq<Shape>): (r: seq<string>)
    ensures |r| == |ss|
    decreases ss, 0
  {
    if ss == [] then [] else [PrintArg(ss[0])] + PrintArgs(ss[1..])
  }

  function PrintEntries(es: seq<SEntry>): (r: seq<string>)
    ensures |r| == |es|
    decreases es, 0
  {
    if es == [] then [] else [es[0].key + " : " + Print(es[0].ty)] + PrintEntries(es[1..])
  }

  /** `type_signature`: a fresh namer, one type. */
  function TypeSignature(ty: Type, names: Interner): Result<string, Bug> {
    var (shape, _) :- Named(ty, [], names);
    Ok(Print(shape))
  }

  lemma {:induction false} JoinOne(a: string, sep: string)
    ensures Join([a], sep) == a
  {
  }

  lemma {:induction false} JoinTwo(a: string, b: string, sep: string)
    ensures Join([a, b], sep) == a + sep + b
  {
    assert [a, b][1..] == [b];
  }

  lemma {:induction false} PrintTwo(s: Shape, t: Shape)
    ensures PrintAll([s, t]) == [Print(s), Print(t)] && PrintArgs([s, t]) == [PrintArg(s), PrintArg(t)]
    ensures PrintAll([s]) == [Print(s)] && PrintArgs([s]) == [PrintArg(s)]
  {
    assert [s, t][1..] == [t] && [t][1..] == [] && [s][1..] == [];
  }

  lemma {:induction false} PrintOneEntry(key: string, s: Shape)
    ensures Sort(TextLe, PrintEntries([SEntry(key, s)])) == [key + " : " + Print(s)]
  {
    var es := [SEntry(key, s)];
    assert es[1..] == [];
    var one := PrintEntries(es);
    assert one == [key + " : " + Print(s)] && one[1..] == [];
  }

  /** The text of each form, on the texts of its parts. */
  lemma {:induction false} EveryForm(a: string, m: string, t: string, s: Shape, u: Shape)
    ensures Print(SVar(a)) == a && Print(SUnit) == "()"
    ensures Print(SCon([m, t], [])) == m + "." + t
    ensures Print(SCon([t], [s, u])) == t + " " + (PrintArg(s) + " " + PrintArg(u))
    ensures Print(SArrow(s, u)) == PrintArg(s) + " -> " + Print(u)
    ensures PrintArg(SArrow(s, u)) == "(" + Print(SArrow(s, u)) + ")"
    ensures PrintArg(SCon([t], [s])) == "(" + Print(SCon([t], [s])) + ")" && PrintArg(SCon([t], [])) == t
    ensures Print(STuple([s, u])) == "(" + (Print(s) + ", " + Print(u)) + ")"
    ensures Print(SRecord([SEntry(a, s)])) == "{ " + (a + " : " + Print(s)) + " }"
    ensures Print(SOpen(m, [SEntry(a, s)])) == "{ " + m + " | " + (a + " : " + Print(s)) + " }"
  {
    JoinOne(t, ".");
    JoinTwo(m, t, ".");
    PrintTwo(s, u);
    JoinTwo(PrintArg(s), PrintArg(u), " ");
    JoinTwo(Print(s), Print(u), ", ");
    PrintOneEntry(a, s);
    JoinOne(a + " : " + Print(s), ", ");
  }

  // ---- the printer as it runs: one namer mutated along the way ----

  const U32_MAX: nat := 0xFFFF_FFFF

  lemma {:induction false} SetBound(s: set<int>, n: nat)
    requires forall x :: x in s ==> 0 <= x < n
    ensures |s| <= n
  {
    if n == 0 {
      assert forall x :: x !in s;
      assert s == {};
    } else {
      SetBound(s - {n - 1}, n - 1);
    }
  }

  /** A 32-bit counter names every distinct 32-bit symbol without saturating. */
  lemma {:induction false} CounterSuffices(names: map<Symbol, string>, sym: Symbol)
    requires sym !in names
    ensures |names| <= U32_MAX
  {
    SetBound(names.Keys + {sym}, 0x1_0000_0000);
  }

  /** The constructor-variable namer: symbol ids to their assigned letters. */
  class CtorVars {
    var names: map<Symbol, string>
    ghost var seen: seq<Symbol>

    ghost predicate Valid()
      reads this
    {
      Distinct(seen) && names == Table(seen)
    }

    constructor ()
      ensures Valid() && seen == []
    {
      names, seen := map[], [];
    }

    /** The letter of `sym`, assigned on first sight. */
    method NameOf(sym: Symbol) returns (name: string)
      requires Valid()
      modifies this
      ensures Valid() && seen == See(old(seen), sym) && name == NameIn(seen, sym)
    {
      TableLookup(seen, sym);
      if sym in names {
        return names[sym];
      }
      CounterSuffices(names, sym);
      name := Letters(Capped(|names|));
      TableGrows(seen, sym);
      LastIsNew(seen, sym);
      names := names[sym := name];
      seen := seen + [sym];
    }
  }

  /** `u32::try_from(n).unwrap_or(u32::MAX)`. */
  function Capped(n: nat): nat {
    if n <= U32_MAX then n else U32_MAX
  }

  /** The letter of each variable seen, by its place. */
  function Table(seen: seq<Symbol>): map<Symbol, string> {
    if seen == [] then map[] else Table(seen[..|seen| - 1])[seen[|seen| - 1] := Letters(|seen| - 1)]
  }

  lemma {:induction false} TableGrows(seen: seq<Symbol>, sym: Symbol)
    ensures Table(seen + [sym]) == Table(seen)[sym := Letters(|seen|)]
  {
    var grown := seen + [sym];
    assert grown[..|grown| - 1] == seen && grown[|grown| - 1] == sym;
  }

  lemma {:induction false} LastIsNew(seen: seq<Symbol>, sym: Symbol)
    requires Distinct(seen) && sym !in seen
    ensures Distinct(seen + [sym]) && NameIn(seen + [sym], sym) == Letters(|seen|)
  {
    IndexIsUnique(seen + [sym], |seen|);
  }

  lemma {:induction false} TableLookup(seen: seq<Symbol>, sym: Symbol)
    requires Distinct(seen)
    ensures sym in Table(seen) <==> sym in seen
    ensures sym in seen ==> Table(seen)[sym] == NameIn(seen, sym)
    ensures |Table(seen)| == |seen|
  {
    if seen != [] {
      var n := |seen| - 1;
      assert seen == seen[..n] + [seen[n]];
      TableLookup(seen[..n], sym);
      TableLookup(seen[..n], seen[n]);
      IndexIsUnique(seen, n);
      if sym in seen[..n] { IndexSurvivesGrowth(seen[..n], seen, sym); }
    }
  }

  method CanonTypeToString(ty: Type, names: Interner, vars: CtorVars)
      returns (text: Result<string, Bug>, ghost shape: Shape)
    requires vars.Valid()
    modifies vars
    ensures vars.Valid()
    ensures text.Err? ==> Named(ty, old(vars.seen), names).Err?
    ensures text.Ok? ==> Named(ty, old(vars.seen), names) == Ok((shape, vars.seen)) && text.value == Print(shape)
    decreases ty, 1
  {
    match ty
    case Var(sym) =>
      var name := vars.NameOf(sym);
      return Ok(name), SVar(name);
    case Con(home, name, args) => text, shape := RenderCon(ty, names, vars);
    case Lambda(from, to) => text, shape := RenderArrow(ty, names, vars);
    case Tuple(elems) => text, shape := RenderTuple(elems, names, vars);
    case Unit => return Ok("()"), SUnit;
    case Record(fields) => text, shape := RenderRecord(fields, names, vars);
    case RecordOpen(row, fields) => text, shape := RenderOpen(row, fields, names, vars);
  }

  method RenderCon(ty: Type, names: Interner, vars: CtorVars) returns (text: Result<string, Bug>, ghost shape: Shape)
    requires ty.Con? && vars.Valid()
    modifies vars
    ensures vars.Valid()
    ensures text.Err? ==> Named(ty, old(vars.seen), names).Err?
    ensures text.Ok? ==> Named(ty, old(vars.seen), names) == Ok((shape, vars.seen)) && text.value == Print(shape)
    decreases ty, 0
  {
    shape := SUnit;
    var segs := ResolveAll(names, ty.home + [ty.name]);
    if segs.Err? {
      return Err(segs.error), shape;
    }
    var head := Join(segs.value, ".");
    var rendered, args := RenderArgs(ty.args, names, vars);
    if rendered.Err? {
      return Err(rendered.error), shape;
    }
    shape := SCon(segs.value, args);
    if ty.args == [] {
      return Ok(head), shape;
    }
    return Ok(head + " " + Join(rendered.value, " ")), shape;
  }

  method RenderArrow(ty: Type, names: Interner, vars: CtorVars) returns (text: Result<string, Bug>, ghost shape: Shape)
    requires ty.Lambda? && vars.Valid()
    modifies vars
    ensures vars.Valid()
    ensures text.Err? ==> Named(ty, old(vars.seen), names).Err?
    ensures text.Ok? ==> Named(ty, old(vars.seen), names) == Ok((shape, vars.seen)) && text.value == Print(shape)
    decreases ty, 0
  {
    var a, from := CanonTypeArg(ty.from, names, vars);
    if a.Err? {
      return a, from;
    }
    var b, to := CanonTypeToString(ty.to, names, vars);
    if b.Err? {
      return b, to;
    }
    return Ok(a.value + " -> " + b.value), SArrow(from, to);
  }

  method RenderTuple(elems: seq<Type>, names: Interner, vars: CtorVars)
      returns (text: Result<string, Bug>, ghost shape: Shape)
    requires vars.Valid()
    modifies vars
    ensures vars.Valid()
    ensures text.Err? ==> Named(Tuple(elems), old(vars.seen), names).Err?
    ensures text.Ok? ==> Named(Tuple(elems), old(vars.seen), names) == Ok((shape, vars.seen))
    ensures text.Ok? ==> text.value == Print(shape)
    decreases elems, 1
  {
    var rendered, shapes := RenderElems(elems, names, vars);
    shape := STuple(shapes);
    if rendered.Err? {
      return Err(rendered.error), shape;
    }
    text := Ok("(" + Join(rendered.value, ", ") + ")");
  }

  method RenderRecord(fields: seq<Field>, names: Interner, vars: CtorVars)
      returns (text: Result<string, Bug>, ghost shape: Shape)
    requires vars.Valid()
    modifies vars
    ensures vars.Valid()
    ensures text.Err? ==> Named(Record(fields), old(vars.seen), names).Err?
    ensures text.Ok? ==> Named(Record(fields), old(vars.seen), names) == Ok((shape, vars.seen))
    ensures text.Ok? ==> text.value == Print(shape)
    decreases fields, 1
  {
    var rendered, entries := RenderFields(fields, names, vars);
    shape := SRecord(entries);
    if rendered.Err? {
      return Err(rendered.error), shape;
    }
    text := Ok("{ " + Join(Sort(TextLe, rendered.value), ", ") + " }");
  }

  method RenderOpen(row: Symbol, fields: seq<Field>, names: Interner, vars: CtorVars)
      returns (text: Result<string, Bug>, ghost shape: Shape)
    requires vars.Valid()
    modifies vars
    ensures vars.Valid()
    ensures text.Err? ==> Named(RecordOpen(row, fields), old(vars.seen), names).Err?
    ensures text.Ok? ==> Named(RecordOpen(row, fields), old(vars.seen), names) == Ok((shape, vars.seen))
                         && text.value == Print(shape)
    decreases fields, 1
  {
    var rendered, entries := RenderFields(fields, names, vars);
    shape := SRecord(entries);
    if rendered.Err? {
      return Err(rendered.error), shape;
    }
    OpenNames(row, fields, old(vars.seen), names);
    var name := vars.NameOf(row);
    shape := SOpen(name, entries);
    OpenPrints(name, entries);
    text := Ok("{ " + name + " | " + Join(Sort(TextLe, rendered.value), ", ") + " }");
  }

  /** The row variable is named after the fields. */
  lemma {:induction false} OpenNames(row: Symbol, fields: seq<Field>, seen: seq<Symbol>, names: Interner)
    requires NamedFields(fields, seen, names).Ok?
    ensures var (entries, seen') := NamedFields(fields, seen, names).value;
      Named(RecordOpen(row, fields), seen, names) == Ok((SOpen(NameIn(See(seen', row), row), entries), See(seen', row)))
  {
  }

  lemma {:induction false} OpenPrints(name: string, entries: seq<SEntry>)
    ensures Print(SOpen(name, entries)) == "{ " + name + " | " + Join(Sort(TextLe, PrintEntries(entries)), ", ") + " }"
  {
  }

  method CanonTypeArg(ty: Type, names: Interner, vars: CtorVars) returns (text: Result<string, Bug>, ghost shape: Shape)
    requires vars.Valid()
    modifies vars
    ensures vars.Valid()
    ensures text.Err? ==> Named(ty, old(vars.seen), names).Err?
    ensures text.Ok? ==> Named(ty, old(vars.seen), names) == Ok((shape, vars.seen)) && text.value == PrintArg(shape)
    decreases ty, 2
  {
    text, shape := CanonTypeToString(ty, names, vars);
    if text.Ok? && (ty.Lambda? || (ty.Con? && ty.args != [])) {
      text := Ok("(" + text.value + ")");
    }
  }

  /** Prefix shapes already produced, before the shapes of the types still to do. */
  ghost function Resume<S>(done: seq<S>, rest: Result<(seq<S>, seq<Symbol>), Bug>): Result<(seq<S>, seq<Symbol>), Bug> {
    match rest
    case Err(e) => Err(e)
    case Ok((ss, seen)) => Ok((done + ss, seen))
  }

  lemma {:induction false} ResumeFromStart<S>(r: Result<(seq<S>, seq<Symbol>), Bug>)
    ensures Resume([], r) == r
  {
    if r.Ok? { assert [] + r.value.0 == r.value.0; }
  }

  lemma {:induction false} ResumeStep<S>(done: seq<S>, item: S, rest: Result<(seq<S>, seq<Symbol>), Bug>)
    ensures rest.Ok? ==> Resume(done, Ok(([item] + rest.value.0, rest.value.1))) == Resume(done + [item], rest)
  {
    if rest.Ok? { assert done + ([item] + rest.value.0) == (done + [item]) + rest.value.0; }
  }

  lemma {:induction false} PrintArgsSnoc(ss: seq<Shape>, s: Shape)
    ensures PrintArgs(ss + [s]) == PrintArgs(ss) + [PrintArg(s)]
    ensures PrintAll(ss + [s]) == PrintAll(ss) + [Print(s)]
  {
    if ss != [] {
      assert (ss + [s])[1..] == ss[1..] + [s];
      PrintArgsSnoc(ss[1..], s);
    }
  }

  lemma {:induction false} PrintEntriesSnoc(es: seq<SEntry>, e: SEntry)
    ensures PrintEntries(es + [e]) == PrintEntries(es) + [e.key + " : " + Print(e.ty)]
  {
    if es != [] {
      assert (es + [e])[1..] == es[1..] + [e];
      PrintEntriesSnoc(es[1..], e);
    }
  }

  method RenderArgs(tys: seq<Type>, names: Interner, vars: CtorVars)
      returns (rendered: Result<seq<string>, Bug>, ghost done: seq<Shape>)
    requires vars.Valid()
    modifies vars
    ensures vars.Valid()
    ensures rendered.Err? ==> NamedAll(tys, old(vars.seen), names).Err?
    ensures rendered.Ok? ==> NamedAll(tys, old(vars.seen), names) == Ok((done, vars.seen))
    ensures rendered.Ok? ==> rendered.value == PrintArgs(done)
    decreases tys, 0
  {
    var out := [];
    done := [];
    assert tys[0..] == tys;
    ResumeFromStart(NamedAll(tys, vars.seen, names));
    for i := 0 to |tys|
      invariant vars.Valid() && out == PrintArgs(done)
      invariant NamedAll(tys, old(vars.seen), names) == Resume(done, NamedAll(tys[i..], vars.seen, names))
    {
      assert tys[i..][1..] == tys[i + 1..];
      var text, item := CanonTypeArg(tys[i], names, vars);
      if text.Err? {
        return Err(text.error), done;
      }
      out := out + [text.value];
      PrintArgsSnoc(done, item);
      ResumeStep(done, item, NamedAll(tys[i + 1..], vars.seen, names));
      done := done + [item];
    }
    assert done + [] == done;
    rendered := Ok(out);
  }

  method RenderElems(tys: seq<Type>, names: Interner, vars: CtorVars)
      returns (rendered: Result<seq<string>, Bug>, ghost done: seq<Shape>)
    requires vars.Valid()
    modifies vars
    ensures vars.Valid()
    ensures rendered.Err? ==> NamedAll(tys, old(vars.seen), names).Err?
    ensures rendered.Ok? ==> NamedAll(tys, old(vars.seen), names) == Ok((done, vars.seen))
    ensures rendered.Ok? ==> rendered.value == PrintAll(done)
    decreases tys, 0
  {
    var out := [];
    done := [];
    assert tys[0..] == tys;
    ResumeFromStart(NamedAll(tys, vars.seen, names));
    for i := 0 to |tys|
      invariant vars.Valid() && out == PrintAll(done)
      invariant NamedAll(tys, old(vars.seen), names) == Resume(done, NamedAll(tys[i..], vars.seen, names))
    {
      assert tys[i..][1..] == tys[i + 1..];
      var text, item := CanonTypeToString(tys[i], names, vars);
      if text.Err? {
        return Err(text.error), done;
      }
      out := out + [text.value];
      PrintArgsSnoc(done, item);
      ResumeStep(done, item, NamedAll(tys[i + 1..], vars.seen, names));
      done := done + [item];
    }
    assert done + [] == done;
    rendered := Ok(out);
  }

  method RenderField(field: Field, names: Interner, vars: CtorVars)
      returns (text: Result<string, Bug>, ghost entry: SEntry)
    requires vars.Valid()
    modifies vars
    ensures vars.Valid()
    ensures text.Err? ==> NamedField(field, old(vars.seen), names).Err?
    ensures text.Ok? ==> NamedField(field, old(vars.seen), names) == Ok((entry, vars.seen))
                         && text.value == entry.key + " : " + Print(entry.ty)
    decreases field, 0
  {
    entry := SEntry("", SUnit);
    var key := Resolve(names, field.name);
    if key.Err? {
      return Err(key.error), entry;
    }
    var inner, shape := CanonTypeToString(field.ty, names, vars);
    if inner.Err? {
      return inner, entry;
    }
    return Ok(key.value + " : " + inner.value), SEntry(key.value, shape);
  }

  method RenderFields(fields: seq<Field>, names: Interner, vars: CtorVars)
      returns (rendered: Result<seq<string>, Bug>, ghost done: seq<SEntry>)
    requires vars.Valid()
    modifies vars
    ensures vars.Valid()
    ensures rendered.Err? ==> NamedFields(fields, old(vars.seen), names).Err?
    ensures rendered.Ok? ==> NamedFields(fields, old(vars.seen), names) == Ok((done, vars.seen))
    ensures rendered.Ok? ==> rendered.value == PrintEntries(done)
    decreases fields, 0
  {
    var out := [];
    done := [];
    assert fields[0..] == fields;
    ResumeFromStart(NamedFields(fields, vars.seen, names));
    for i := 0 to |fields|
      invariant vars.Valid() && out == PrintEntries(done)
      invariant NamedFields(fields, old(vars.seen), names) == Resume(done, NamedFields(fields[i..], vars.seen, names))
    {
      assert fields[i..][1..] == fields[i + 1..];
      var text, item := RenderField(fields[i], names, vars);
      if text.Err? {
        return Err(text.error), done;
      }
      out := out + [text.value];
      PrintEntriesSnoc(done, item);
      ResumeStep(done, item, NamedFields(fields[i + 1..], vars.seen, names));
      done := done + [item];
    }
    assert done + [] == done;
    rendered := Ok(out);
  }

  /** `type_signature` as it runs: a fresh namer, then the recursive printer. */
  method RenderSignature(ty: Type, names: Interner) returns (text: Result<string, Bug>)
    ensures text == TypeSignature(ty, names)
  {
    var vars := new CtorVars();
    ghost var shape;
    text, shape := CanonTypeToString(ty, names, vars);
    if text.Err? {
      assert text.error.UnresolvedSymbol? && Named(ty, [], names).error.UnresolvedSymbol?;
    }
  }
}
