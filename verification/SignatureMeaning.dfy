/**
 * What a signature text means: exactly the type up to variable renaming, and
 * at most the type up to renaming and record-field order.
 */
module SignatureMeaning {
  import opened Prelude
  import opened Lettering
  import opened Orders
  import opened Signature
  import opened SignatureReading

  // ---- the printed text is the flat text of a sorted shape ----

  function EntryText(e: SEntry): string {
    FlatEntryThen(e, "")
  }

  predicate EntryLe(a: SEntry, b: SEntry) {
    TextLe(EntryText(a), EntryText(b))
  }

  /** The shape with every record's entries in text order. */
  function Canon(s: Shape): Shape
    decreases s, 0
  {
    match s
    case SCon(segs, args) => SCon(segs, CanonAll(args))
    case SArrow(from, to) => SArrow(Canon(from), Canon(to))
    case STuple(elems) => STuple(CanonAll(elems))
    case SRecord(entries) => SRecord(Sort(EntryLe, CanonEntries(entries)))
    case SOpen(row, entries) => SOpen(row, Sort(EntryLe, CanonEntries(entries)))
    case _ => s
  }

  function CanonAll(ss: seq<Shape>): (r: seq<Shape>)
    ensures |r| == |ss| && forall i :: 0 <= i < |ss| ==> r[i] == Canon(ss[i])
    decreases ss, 0
  {
    if ss == [] then [] else [Canon(ss[0])] + CanonAll(ss[1..])
  }

  function CanonEntry(e: SEntry): SEntry
    decreases e, 0
  {
    SEntry(e.key, Canon(e.ty))
  }

  function CanonEntries(es: seq<SEntry>): (r: seq<SEntry>)
    ensures |r| == |es| && forall i :: 0 <= i < |es| ==> r[i] == CanonEntry(es[i])
    decreases es, 0
  {
    if es == [] then [] else [CanonEntry(es[0])] + CanonEntries(es[1..])
  }

  function Texts(es: seq<SEntry>): (r: seq<string>)
    ensures |r| == |es|
  {
    if es == [] then [] else [EntryText(es[0])] + Texts(es[1..])
  }

  lemma {:induction false} InsertTexts(e: SEntry, es: seq<SEntry>)
    ensures Texts(Insert(EntryLe, e, es)) == Insert(TextLe, EntryText(e), Texts(es))
  {
    if es != [] && !EntryLe(e, es[0]) {
      InsertTexts(e, es[1..]);
      assert Texts(es)[1..] == Texts(es[1..]);
    }
  }

  /** Sorting entries by text is sorting their texts. */
  lemma {:induction false} SortTexts(es: seq<SEntry>)
    ensures Texts(Sort(EntryLe, es)) == Sort(TextLe, Texts(es))
  {
    if es != [] {
      SortTexts(es[1..]);
      InsertTexts(es[0], Sort(EntryLe, es[1..]));
      assert Texts(es)[1..] == Texts(es[1..]);
    }
  }

  lemma {:induction false} CanonLexical(s: Shape)
    requires Lexical(s)
    ensures Lexical(Canon(s))
    decreases s, 0
  {
    match s
    case SCon(segs, args) => CanonAllLexical(args);
    case SArrow(from, to) =>
      CanonLexical(from);
      CanonLexical(to);
    case STuple(elems) => CanonAllLexical(elems);
    case SRecord(entries) => CanonEntriesLexical(entries);
    case SOpen(row, entries) => CanonEntriesLexical(entries);
    case _ =>
  }

  lemma {:induction false} CanonAllLexical(ss: seq<Shape>)
    requires LexicalAll(ss)
    ensures LexicalAll(CanonAll(ss))
    decreases ss, 0
  {
    forall i | 0 <= i < |ss| ensures Lexical(Canon(ss[i])) { CanonLexical(ss[i]); }
  }

  lemma {:induction false} CanonEntryLexical(e: SEntry)
    requires LexicalEntry(e)
    ensures LexicalEntry(CanonEntry(e))
    decreases e, 0
  {
    CanonLexical(e.ty);
  }

  lemma {:induction false} CanonEntriesLexical(es: seq<SEntry>)
    requires LexicalEntries(es)
    ensures LexicalEntries(CanonEntries(es)) && LexicalEntries(Sort(EntryLe, CanonEntries(es)))
    decreases es, 0
  {
    forall i | 0 <= i < |es| ensures LexicalEntry(CanonEntry(es[i])) { CanonEntryLexical(es[i]); }
    var cs := CanonEntries(es);
    var sorted := Sort(EntryLe, cs);
    forall i | 0 <= i < |sorted| ensures LexicalEntry(sorted[i]) {
      SameMembers(sorted, cs, sorted[i]);
    }
  }

  // Appending to a flat text is appending to what follows it.

  lemma {:induction false} FlatAppends(s: Shape, rest: string, more: string)
    ensures FlatThen(s, rest) + more == FlatThen(s, rest + more)
    decreases s, 0
  {
    match s
    case SVar(name) =>
      assert (name + rest) + more == name + (rest + more);
    case SCon(segs, args) =>
      FlatArgsAppends(args, rest, more);
      assert (Join(segs, ".") + FlatArgsThen(args, rest)) + more == Join(segs, ".") + (FlatArgsThen(args, rest) + more);
    case SArrow(from, to) =>
      FlatAppends(to, rest, more);
      FlatArgAppends(from, " -> " + FlatThen(to, rest), more);
      assert (" -> " + FlatThen(to, rest)) + more == " -> " + (FlatThen(to, rest) + more);
    case STuple(elems) =>
      FlatListAppends(elems, ")" + rest, more);
      assert ("(" + FlatListThen(elems, ")" + rest)) + more == "(" + (FlatListThen(elems, ")" + rest) + more);
      assert (")" + rest) + more == ")" + (rest + more);
    case SUnit =>
      assert ("()" + rest) + more == "()" + (rest + more);
    case SRecord(entries) =>
      FlatEntriesAppends(entries, " }" + rest, more);
      assert ("{ " + FlatEntriesThen(entries, " }" + rest)) + more ==
        "{ " + (FlatEntriesThen(entries, " }" + rest) + more);
      assert (" }" + rest) + more == " }" + (rest + more);
    case SOpen(row, entries) =>
      FlatEntriesAppends(entries, " }" + rest, more);
      var es := FlatEntriesThen(entries, " }" + rest);
      assert ("{ " + (row + (" | " + es))) + more == "{ " + (row + (" | " + (es + more)));
      assert (" }" + rest) + more == " }" + (rest + more);
  }

  lemma {:induction false} FlatArgAppends(s: Shape, rest: string, more: string)
    ensures FlatArgThen(s, rest) + more == FlatArgThen(s, rest + more)
    decreases s, 1
  {
    if NeedsParens(s) {
      FlatAppends(s, ")" + rest, more);
      assert ("(" + FlatThen(s, ")" + rest)) + more == "(" + (FlatThen(s, ")" + rest) + more);
      assert (")" + rest) + more == ")" + (rest + more);
    } else {
      FlatAppends(s, rest, more);
    }
  }

  lemma {:induction false} FlatArgsAppends(ss: seq<Shape>, rest: string, more: string)
    ensures FlatArgsThen(ss, rest) + more == FlatArgsThen(ss, rest + more)
    decreases ss, 0
  {
    if ss != [] {
      FlatArgsAppends(ss[1..], rest, more);
      FlatArgAppends(ss[0], FlatArgsThen(ss[1..], rest), more);
      assert (" " + FlatArgThen(ss[0], FlatArgsThen(ss[1..], rest))) + more
          == " " + (FlatArgThen(ss[0], FlatArgsThen(ss[1..], rest)) + more);
    }
  }

  lemma {:induction false} FlatListAppends(ss: seq<Shape>, rest: string, more: string)
    ensures FlatListThen(ss, rest) + more == FlatListThen(ss, rest + more)
    decreases ss, 0
  {
    if ss != [] {
      FlatListAppends(ss[1..], rest, more);
      FlatAppends(ss[0], if |ss| == 1 then rest else ", " + FlatListThen(ss[1..], rest), more);
      assert (", " + FlatListThen(ss[1..], rest)) + more == ", " + (FlatListThen(ss[1..], rest) + more);
    }
  }

  lemma {:induction false} FlatEntryAppends(e: SEntry, rest: string, more: string)
    ensures FlatEntryThen(e, rest) + more == FlatEntryThen(e, rest + more)
    decreases e, 0
  {
    FlatAppends(e.ty, rest, more);
    assert (e.key + (" : " + FlatThen(e.ty, rest))) + more == e.key + (" : " + (FlatThen(e.ty, rest) + more));
  }

  lemma {:induction false} FlatEntriesAppends(es: seq<SEntry>, rest: string, more: string)
    ensures FlatEntriesThen(es, rest) + more == FlatEntriesThen(es, rest + more)
    decreases es, 0
  {
    if es != [] {
      FlatEntriesAppends(es[1..], rest, more);
      FlatEntryAppends(es[0], if |es| == 1 then rest else ", " + FlatEntriesThen(es[1..], rest), more);
      assert (", " + FlatEntriesThen(es[1..], rest)) + more == ", " + (FlatEntriesThen(es[1..], rest) + more);
    }
  }

  lemma {:induction false} Around(open: string, text: string, close: string)
    ensures open + text + close == open + (text + close)
    ensures "" + close == close && close + "" == close
  {
  }

  /** The printer prints the flat text of the sorted shape. */
  lemma {:induction false} PrintIsFlat(s: Shape)
    ensures Print(s) == FlatThen(Canon(s), "")
    decreases s, 1
  {
    match s
    case SVar(name) => Around("", name, "");
    case SCon(segs, args) => ConIsFlat(segs, args);
    case SArrow(_, _) => ArrowIsFlat(s);
    case STuple(elems) => TupleIsFlat(elems);
    case SUnit => Around("()", "", "");
    case SRecord(entries) => RecordIsFlat(entries);
    case SOpen(row, entries) => OpenIsFlat(row, entries);
  }

  lemma {:induction false} RecordIsFlat(entries: seq<SEntry>)
    ensures Print(SRecord(entries)) == FlatThen(Canon(SRecord(entries)), "")
    decreases entries, 2
  {
    FieldsAreFlat(entries);
    Around("{ ", Join(Sort(TextLe, PrintEntries(entries)), ", "), " }");
  }

  lemma {:induction false} OpenIsFlat(row: string, entries: seq<SEntry>)
    ensures Print(SOpen(row, entries)) == FlatThen(Canon(SOpen(row, entries)), "")
    decreases entries, 2
  {
    FieldsAreFlat(entries);
    var text := Join(Sort(TextLe, PrintEntries(entries)), ", ");
    assert "{ " + row + " | " + text + " }" == "{ " + (row + (" | " + (text + " }")));
  }

  lemma {:induction false} ConIsFlat(segs: seq<string>, args: seq<Shape>)
    ensures Print(SCon(segs, args)) == FlatThen(Canon(SCon(segs, args)), "")
    decreases args, 1
  {
    ArgsAreFlat(args);
    if args == [] {
      Around("", Join(segs, "."), "");
    } else {
      Around(Join(segs, "."), " ", Join(PrintArgs(args), " "));
    }
  }

  lemma {:induction false} ArrowIsFlat(s: Shape)
    requires s.SArrow?
    ensures Print(s) == FlatThen(Canon(s), "")
    decreases s, 0
  {
    ArgIsFlat(s.from);
    PrintIsFlat(s.to);
    var more := " -> " + FlatThen(Canon(s.to), "");
    FlatArgAppends(Canon(s.from), "", more);
    Around(PrintArg(s.from), " -> ", Print(s.to));
    Around("", "", more);
  }

  lemma {:induction false} TupleIsFlat(elems: seq<Shape>)
    ensures Print(STuple(elems)) == FlatThen(Canon(STuple(elems)), "")
    decreases elems, 1
  {
    ListIsFlat(elems);
    FlatListAppends(CanonAll(elems), "", ")");
    Around("(", Join(PrintAll(elems), ", "), ")");
  }

  lemma {:induction false} ArgIsFlat(s: Shape)
    ensures PrintArg(s) == FlatArgThen(Canon(s), "")
    decreases s, 2
  {
    PrintIsFlat(s);
    if NeedsParens(s) {
      FlatAppends(Canon(s), "", ")");
      assert "(" + Print(s) + ")" == "(" + (Print(s) + ")");
      assert "" + ")" == ")" == ")" + "";
    }
  }

  lemma {:induction false} ArgsAreFlat(ss: seq<Shape>)
    ensures ss != [] ==> " " + Join(PrintArgs(ss), " ") == FlatArgsThen(CanonAll(ss), "")
    decreases ss, 0
  {
    if ss != [] {
      ArgIsFlat(ss[0]);
      ArgsAreFlat(ss[1..]);
      assert CanonAll(ss)[1..] == CanonAll(ss[1..]) && PrintArgs(ss)[1..] == PrintArgs(ss[1..]);
      var more := FlatArgsThen(CanonAll(ss[1..]), "");
      FlatArgAppends(Canon(ss[0]), "", more);
      assert "" + more == more;
      if |ss| > 1 {
        assert PrintArg(ss[0]) + " " + Join(PrintArgs(ss[1..]), " ") ==
          PrintArg(ss[0]) + (" " + Join(PrintArgs(ss[1..]), " "));
      } else {
        assert PrintArg(ss[0]) + "" == PrintArg(ss[0]);
      }
    }
  }

  lemma {:induction false} ListIsFlat(ss: seq<Shape>)
    ensures Join(PrintAll(ss), ", ") == FlatListThen(CanonAll(ss), "")
    decreases ss, 0
  {
    if ss != [] {
      PrintIsFlat(ss[0]);
      ListIsFlat(ss[1..]);
      assert CanonAll(ss)[1..] == CanonAll(ss[1..]) && PrintAll(ss)[1..] == PrintAll(ss[1..]);
      var more := ", " + FlatListThen(CanonAll(ss[1..]), "");
      FlatAppends(Canon(ss[0]), "", if |ss| == 1 then "" else more);
      Around("", "", more);
      Around(Print(ss[0]), ", ", Join(PrintAll(ss[1..]), ", "));
    }
  }

  lemma {:induction false} EntriesAreFlat(es: seq<SEntry>)
    ensures PrintEntries(es) == Texts(CanonEntries(es))
    decreases es, 0
  {
    if es != [] {
      EntryIsFlat(es[0]);
      EntriesAreFlat(es[1..]);
      assert CanonEntries(es)[1..] == CanonEntries(es[1..]);
    }
  }

  lemma {:induction false} EntryIsFlat(e: SEntry)
    ensures e.key + " : " + Print(e.ty) == EntryText(CanonEntry(e))
    decreases e, 0
  {
    PrintIsFlat(e.ty);
    assert e.key + " : " + Print(e.ty) == e.key + (" : " + Print(e.ty));
  }

  lemma {:induction false} FieldsAreFlat(es: seq<SEntry>)
    ensures Join(Sort(TextLe, PrintEntries(es)), ", ") + " }"
         == FlatEntriesThen(Sort(EntryLe, CanonEntries(es)), " }" + "")
    decreases es, 1
  {
    EntriesAreFlat(es);
    SortTexts(CanonEntries(es));
    JoinTexts(Sort(EntryLe, CanonEntries(es)));
    FlatEntriesAppends(Sort(EntryLe, CanonEntries(es)), "", " }");
    assert "" + " }" == " }" == " }" + "";
  }

  lemma {:induction false} JoinTexts(es: seq<SEntry>)
    ensures Join(Texts(es), ", ") == FlatEntriesThen(es, "")
  {
    if es != [] {
      JoinTexts(es[1..]);
      assert Texts(es)[1..] == Texts(es[1..]);
      var more := ", " + FlatEntriesThen(es[1..], "");
      FlatEntryAppends(es[0], "", more);
      assert "" + more == more;
      assert EntryText(es[0]) + ", " + Join(Texts(es[1..]), ", ") ==
        EntryText(es[0]) + (", " + Join(Texts(es[1..]), ", "));
    }
  }

  /** Two lexical shapes print alike exactly when they agree up to entry order. */
  lemma {:induction false} PrintsAlikeExactly(s: Shape, t: Shape)
    requires Lexical(s) && Lexical(t)
    ensures Print(s) == Print(t) <==> Canon(s) == Canon(t)
  {
    PrintIsFlat(s);
    PrintIsFlat(t);
    CanonLexical(s);
    CanonLexical(t);
    if Print(s) == Print(t) { FlatInjective(Canon(s), Canon(t)); }
  }

  // ---- naming, once all variables are known ----

  /** `ty` has the shape `s`, with each variable named by its place in `vars`. */
  ghost predicate Spells(ty: Type, s: Shape, vars: seq<Symbol>, names: Interner)
    decreases ty, 0
  {
    match (ty, s)
    case (Var(sym), SVar(name)) => sym in vars && name == NameIn(vars, sym)
    case (Con(home, name, args), SCon(segs, ss)) =>
      ResolveAll(names, home + [name]) == Ok(segs) && SpellsAll(args, ss, vars, names)
    case (Lambda(from, to), SArrow(s1, s2)) => Spells(from, s1, vars, names) && Spells(to, s2, vars, names)
    case (Tuple(elems), STuple(ss)) => SpellsAll(elems, ss, vars, names)
    case (Unit, SUnit) => true
    case (Record(fields), SRecord(es)) => SpellsFields(fields, es, vars, names)
    case (RecordOpen(row, fields), SOpen(name, es)) =>
      row in vars && name == NameIn(vars, row) && SpellsFields(fields, es, vars, names)
    case _ => false
  }

  ghost predicate SpellsAll(tys: seq<Type>, ss: seq<Shape>, vars: seq<Symbol>, names: Interner)
    decreases tys, 0
  {
    |tys| == |ss| && forall i :: 0 <= i < |tys| ==> Spells(tys[i], ss[i], vars, names)
  }

  ghost predicate SpellsField(f: Field, e: SEntry, vars: seq<Symbol>, names: Interner)
    decreases f
  {
    Resolve(names, f.name) == Ok(e.key) && Spells(f.ty, e.ty, vars, names)
  }

  ghost predicate SpellsFields(fields: seq<Field>, es: seq<SEntry>, vars: seq<Symbol>, names: Interner)
    decreases fields, 0
  {
    |fields| == |es| && forall i :: 0 <= i < |fields| ==> SpellsField(fields[i], es[i], vars, names)
  }

  /** First-seen naming is naming by place in the final variable list. */
  lemma {:induction false} NamedSpells(ty: Type, seen: seq<Symbol>, names: Interner, vars: seq<Symbol>)
    requires Named(ty, seen, names).Ok? && Named(ty, seen, names).value.1 <= vars
    ensures Spells(ty, Named(ty, seen, names).value.0, vars, names)
    decreases ty, 0
  {
    match ty
    case Var(sym) => IndexSurvivesGrowth(See(seen, sym), vars, sym);
    case Con(home, name, args) => NamedAllSpells(args, seen, names, vars);
    case Lambda(from, to) =>
      NamedSpells(from, seen, names, vars);
      NamedSpells(to, Named(from, seen, names).value.1, names, vars);
    case Tuple(elems) => NamedAllSpells(elems, seen, names, vars);
    case Unit =>
    case Record(fields) => NamedFieldsSpells(fields, seen, names, vars);
    case RecordOpen(row, fields) =>
      NamedFieldsSpells(fields, seen, names, vars);
      IndexSurvivesGrowth(See(NamedFields(fields, seen, names).value.1, row), vars, row);
  }

  lemma {:induction false} NamedAllSpells(tys: seq<Type>, seen: seq<Symbol>, names: Interner, vars: seq<Symbol>)
    requires NamedAll(tys, seen, names).Ok? && NamedAll(tys, seen, names).value.1 <= vars
    ensures SpellsAll(tys, NamedAll(tys, seen, names).value.0, vars, names)
    decreases tys, 0
  {
    if tys != [] {
      NamedSpells(tys[0], seen, names, vars);
      NamedAllSpells(tys[1..], Named(tys[0], seen, names).value.1, names, vars);
    }
  }

  lemma {:induction false} NamedFieldSpells(f: Field, seen: seq<Symbol>, names: Interner, vars: seq<Symbol>)
    requires NamedField(f, seen, names).Ok? && NamedField(f, seen, names).value.1 <= vars
    ensures SpellsField(f, NamedField(f, seen, names).value.0, vars, names)
    decreases f, 0
  {
    NamedSpells(f.ty, seen, names, vars);
  }

  lemma {:induction false} NamedFieldsSpells(fields: seq<Field>, seen: seq<Symbol>, names: Interner, vars: seq<Symbol>)
    requires NamedFields(fields, seen, names).Ok? && NamedFields(fields, seen, names).value.1 <= vars
    ensures SpellsFields(fields, NamedFields(fields, seen, names).value.0, vars, names)
    decreases fields, 0
  {
    if fields != [] {
      NamedFieldSpells(fields[0], seen, names, vars);
      NamedFieldsSpells(fields[1..], NamedField(fields[0], seen, names).value.1, names, vars);
    }
  }

  lemma {:induction false} SeeDistinct(seen: seq<Symbol>, sym: Symbol)
    requires Distinct(seen)
    ensures Distinct(See(seen, sym))
  {
  }

  /** First-seen lists never repeat a variable. */
  lemma {:induction false} NamedDistinct(ty: Type, seen: seq<Symbol>, names: Interner)
    requires Distinct(seen) && Named(ty, seen, names).Ok?
    ensures Distinct(Named(ty, seen, names).value.1)
    decreases ty, 0
  {
    match ty
    case Var(sym) => SeeDistinct(seen, sym);
    case Con(home, name, args) => NamedAllDistinct(args, seen, names);
    case Lambda(from, to) =>
      NamedDistinct(from, seen, names);
      NamedDistinct(to, Named(from, seen, names).value.1, names);
    case Tuple(elems) => NamedAllDistinct(elems, seen, names);
    case Unit =>
    case Record(fields) => NamedFieldsDistinct(fields, seen, names);
    case RecordOpen(row, fields) =>
      NamedFieldsDistinct(fields, seen, names);
      SeeDistinct(NamedFields(fields, seen, names).value.1, row);
  }

  lemma {:induction false} NamedAllDistinct(tys: seq<Type>, seen: seq<Symbol>, names: Interner)
    requires Distinct(seen) && NamedAll(tys, seen, names).Ok?
    ensures Distinct(NamedAll(tys, seen, names).value.1)
    decreases tys, 0
  {
    if tys != [] {
      NamedDistinct(tys[0], seen, names);
      NamedAllDistinct(tys[1..], Named(tys[0], seen, names).value.1, names);
    }
  }

  lemma {:induction false} NamedFieldDistinct(f: Field, seen: seq<Symbol>, names: Interner)
    requires Distinct(seen) && NamedField(f, seen, names).Ok?
    ensures Distinct(NamedField(f, seen, names).value.1)
    decreases f, 0
  {
    NamedDistinct(f.ty, seen, names);
  }

  lemma {:induction false} NamedFieldsDistinct(fields: seq<Field>, seen: seq<Symbol>, names: Interner)
    requires Distinct(seen) && NamedFields(fields, seen, names).Ok?
    ensures Distinct(NamedFields(fields, seen, names).value.1)
    decreases fields, 0
  {
    if fields != [] {
      NamedFieldDistinct(fields[0], seen, names);
      NamedFieldsDistinct(fields[1..], NamedField(fields[0], seen, names).value.1, names);
    }
  }

  // ---- equality up to renaming and field order ----

  type Renaming = map<Symbol, Symbol>

  ghost predicate Injective(ren: Renaming) {
    forall a, b :: a in ren && b in ren && ren[a] == ren[b] ==> a == b
  }

  /** `t`, read with `tn`, is `s`, read with `sn`, after renaming variables and reordering record fields. */
  ghost predicate SameType(ren: Renaming, s: Type, sn: Interner, t: Type, tn: Interner)
    decreases s, 0
  {
    match (s, t)
    case (Var(a), Var(b)) => a in ren && ren[a] == b
    case (Con(h, n, xs), Con(k, m, ys)) =>
      ResolveAll(sn, h + [n]) == ResolveAll(tn, k + [m]) && SameTypes(ren, xs, sn, ys, tn)
    case (Lambda(a, b), Lambda(c, d)) => SameType(ren, a, sn, c, tn) && SameType(ren, b, sn, d, tn)
    case (Tuple(xs), Tuple(ys)) => SameTypes(ren, xs, sn, ys, tn)
    case (Unit, Unit) => true
    case (Record(fs), Record(gs)) => SameFields(ren, fs, sn, gs, tn)
    case (RecordOpen(a, fs), RecordOpen(b, gs)) => a in ren && ren[a] == b && SameFields(ren, fs, sn, gs, tn)
    case _ => false
  }

  ghost predicate SameTypes(ren: Renaming, xs: seq<Type>, sn: Interner, ys: seq<Type>, tn: Interner)
    decreases xs, 0
  {
    |xs| == |ys| && forall i :: 0 <= i < |xs| ==> SameType(ren, xs[i], sn, ys[i], tn)
  }

  ghost predicate SameField(ren: Renaming, f: Field, sn: Interner, g: Field, tn: Interner)
    decreases f
  {
    Resolve(sn, f.name) == Resolve(tn, g.name) && SameType(ren, f.ty, sn, g.ty, tn)
  }

  /** The fields match one to one, in any order. */
  ghost predicate SameFields(ren: Renaming, fs: seq<Field>, sn: Interner, gs: seq<Field>, tn: Interner)
    decreases fs, 0
  {
    |fs| == |gs| &&
    (fs == [] ||
     exists j :: 0 <= j < |gs| &&
       SameField(ren, fs[0], sn, gs[j], tn) && SameFields(ren, fs[1..], sn, Without(gs, j), tn))
  }

  /** The renaming that takes the k-th variable of one list to the k-th of the other. */
  ghost function Zip(a: seq<Symbol>, b: seq<Symbol>): (ren: Renaming)
    requires Distinct(a) && Distinct(b)
    ensures Injective(ren)
    ensures forall k :: 0 <= k < |a| && k < |b| ==> a[k] in ren && ren[a[k]] == b[k]
  {
    var ren := map k | 0 <= k < |a| && k < |b| :: a[k] := b[k];
    assert forall x :: x in ren ==> exists k :: 0 <= k < |a| && k < |b| && x == a[k] && ren[x] == b[k];
    ren
  }

  /** Two variable lists spelling one name agree on its place. */
  lemma {:induction false} SameNameZips(vs: seq<Symbol>, a: Symbol, ws: seq<Symbol>, b: Symbol)
    requires Distinct(vs) && Distinct(ws) && a in vs && b in ws && NameIn(vs, a) == NameIn(ws, b)
    ensures a in Zip(vs, ws) && Zip(vs, ws)[a] == b
  {
    LettersInjective(IndexOf(vs, a), IndexOf(ws, b));
  }

  /** Types spelled with shapes that agree up to entry order are one type. */
  lemma {:induction false} SameShapeSameType(
      x: Type, s: Shape, vs: seq<Symbol>, sn: Interner, y: Type, t: Shape, ws: seq<Symbol>, tn: Interner)
    requires Distinct(vs) && Distinct(ws) && Spells(x, s, vs, sn) && Spells(y, t, ws, tn) && Canon(s) == Canon(t)
    ensures SameType(Zip(vs, ws), x, sn, y, tn)
    decreases x, 0
  {
    match s
    case SVar(_) => SameNameZips(vs, x.sym, ws, y.sym);
    case SCon(_, ss) => SameShapesSameTypes(x.args, ss, vs, sn, y.args, t.args, ws, tn);
    case SArrow(from, to) =>
      SameShapeSameType(x.from, from, vs, sn, y.from, t.from, ws, tn);
      SameShapeSameType(x.to, to, vs, sn, y.to, t.to, ws, tn);
    case STuple(ss) => SameShapesSameTypes(x.elems, ss, vs, sn, y.elems, t.elems, ws, tn);
    case SUnit =>
    case SRecord(es) => SameEntriesSameFields(x.fields, es, vs, sn, y.fields, t.entries, ws, tn);
    case SOpen(_, es) =>
      SameNameZips(vs, x.row, ws, y.row);
      SameEntriesSameFields(x.fields, es, vs, sn, y.fields, t.entries, ws, tn);
  }

  lemma {:induction false} SameShapesSameTypes(
      xs: seq<Type>, ss: seq<Shape>, vs: seq<Symbol>, sn: Interner, ys: seq<Type>, ts: seq<Shape>, ws: seq<Symbol>,
      tn: Interner)
    requires Distinct(vs) && Distinct(ws) && SpellsAll(xs, ss, vs, sn) && SpellsAll(ys, ts, ws, tn)
    requires CanonAll(ss) == CanonAll(ts)
    ensures SameTypes(Zip(vs, ws), xs, sn, ys, tn)
    decreases xs, 0
  {
    forall i | 0 <= i < |xs| ensures SameType(Zip(vs, ws), xs[i], sn, ys[i], tn) {
      assert CanonAll(ss)[i] == CanonAll(ts)[i];
      SameShapeSameType(xs[i], ss[i], vs, sn, ys[i], ts[i], ws, tn);
    }
  }

  lemma {:induction false} SameEntrySameField(
      f: Field, d: SEntry, vs: seq<Symbol>, sn: Interner, g: Field, e: SEntry, ws: seq<Symbol>, tn: Interner)
    requires Distinct(vs) && Distinct(ws) && SpellsField(f, d, vs, sn) && SpellsField(g, e, ws, tn)
    requires CanonEntry(d) == CanonEntry(e)
    ensures SameField(Zip(vs, ws), f, sn, g, tn)
    decreases f, 0
  {
    SameShapeSameType(f.ty, d.ty, vs, sn, g.ty, e.ty, ws, tn);
  }

  lemma {:induction false} SameEntriesSameFields(
      fs: seq<Field>, ds: seq<SEntry>, vs: seq<Symbol>, sn: Interner, gs: seq<Field>, es: seq<SEntry>,
      ws: seq<Symbol>, tn: Interner)
    requires Distinct(vs) && Distinct(ws) && SpellsFields(fs, ds, vs, sn) && SpellsFields(gs, es, ws, tn)
    requires multiset(CanonEntries(ds)) == multiset(CanonEntries(es))
    ensures SameFields(Zip(vs, ws), fs, sn, gs, tn)
    decreases fs, 0
  {
    if fs == [] {
      NoEntries(ds, es);
    } else {
      var j := PartnerOf(ds, es);
      SameEntrySameField(fs[0], ds[0], vs, sn, gs[j], es[j], ws, tn);
      WithoutSpells(gs, es, ws, tn, j);
      SameEntriesSameFields(fs[1..], ds[1..], vs, sn, Without(gs, j), Without(es, j), ws, tn);
      MatchFirst(Zip(vs, ws), fs, sn, gs, tn, j);
    }
  }

  lemma {:induction false} NoEntries(ds: seq<SEntry>, es: seq<SEntry>)
    requires multiset(CanonEntries(ds)) == multiset(CanonEntries(es))
    ensures |ds| == |es|
  {
    assert |multiset(CanonEntries(ds))| == |multiset(CanonEntries(es))|;
  }

  /** The first entry of one record has a partner in the other, and the rest still match. */
  lemma {:induction false} PartnerOf(ds: seq<SEntry>, es: seq<SEntry>) returns (j: nat)
    requires multiset(CanonEntries(ds)) == multiset(CanonEntries(es)) && ds != []
    ensures j < |es| == |ds| && CanonEntry(es[j]) == CanonEntry(ds[0])
    ensures multiset(CanonEntries(ds[1..])) == multiset(CanonEntries(Without(es, j)))
  {
    NoEntries(ds, es);
    var cs, ks := CanonEntries(ds), CanonEntries(es);
    SameMembers(cs, ks, cs[0]);
    j :| 0 <= j < |ks| && ks[j] == cs[0];
    MatchedOff(cs, ks, j);
    CanonWithout(es, j);
    CanonWithout(ds, 0);
  }

  lemma {:induction false} CanonWithout(es: seq<SEntry>, j: nat)
    requires j < |es|
    ensures CanonEntries(Without(es, j)) == Without(CanonEntries(es), j)
    ensures Without(es, 0) == es[1..] && Without(CanonEntries(es), 0) == CanonEntries(es)[1..]
  {
    SameImages(Without(es, j), CanonEntries(Without(es, j)), es, CanonEntries(es), j);
  }

  /** Dropping one element commutes with any elementwise image. */
  lemma {:induction false} SameImages(ws: seq<SEntry>, cws: seq<SEntry>, es: seq<SEntry>, ces: seq<SEntry>, j: nat)
    requires j < |es| == |ces| && ws == Without(es, j) && |cws| == |ws|
    requires forall i :: 0 <= i < |ws| ==> cws[i] == CanonEntry(ws[i])
    requires forall i :: 0 <= i < |es| ==> ces[i] == CanonEntry(es[i])
    ensures cws == Without(ces, j)
  {
    forall i | 0 <= i < |cws| ensures cws[i] == Without(ces, j)[i] {
      var k := if i < j then i else i + 1;
      assert ws[i] == es[k] && Without(ces, j)[i] == ces[k];
    }
  }

  lemma {:induction false} WithoutSpells(gs: seq<Field>, es: seq<SEntry>, ws: seq<Symbol>, tn: Interner, j: nat)
    requires SpellsFields(gs, es, ws, tn) && j < |gs|
    ensures SpellsFields(Without(gs, j), Without(es, j), ws, tn)
  {
  }

  lemma {:induction false} MatchFirst(ren: Renaming, fs: seq<Field>, sn: Interner, gs: seq<Field>, tn: Interner, j: nat)
    requires |fs| == |gs| && fs != [] && j < |gs| && SameField(ren, fs[0], sn, gs[j], tn)
    requires SameFields(ren, fs[1..], sn, Without(gs, j), tn)
    ensures SameFields(ren, fs, sn, gs, tn)
  {
  }

  // ---- the two theorems ----

  /** The type's names are words of the language, and no constructor is spelled like a variable. */
  ghost predicate Legible(ty: Type, names: Interner)
    decreases ty, 0
  {
    match ty
    case Var(_) => true
    case Con(home, name, args) =>
      && (forall s :: s in home + [name] ==> s in names && IsName(names[s]))
      && (home == [] && name in names ==> !IsVariableName(names[name]))
      && LegibleAll(args, names)
    case Lambda(from, to) => Legible(from, names) && Legible(to, names)
    case Tuple(elems) => |elems| >= 2 && LegibleAll(elems, names)
    case Unit => true
    case Record(fields) => LegibleFields(fields, names)
    case RecordOpen(_, fields) => LegibleFields(fields, names)
  }

  ghost predicate LegibleAll(tys: seq<Type>, names: Interner)
    decreases tys, 0
  {
    forall i :: 0 <= i < |tys| ==> Legible(tys[i], names)
  }

  ghost predicate LegibleField(f: Field, names: Interner)
    decreases f
  {
    f.name in names && IsName(names[f.name]) && Legible(f.ty, names)
  }

  ghost predicate LegibleFields(fields: seq<Field>, names: Interner)
    decreases fields, 0
  {
    forall i :: 0 <= i < |fields| ==> LegibleField(fields[i], names)
  }

  lemma {:induction false} ResolvedNames(names: Interner, syms: seq<Symbol>)
    requires ResolveAll(names, syms).Ok?
    ensures var r := ResolveAll(names, syms).value;
      |r| == |syms| && forall i :: 0 <= i < |syms| ==> syms[i] in names && r[i] == names[syms[i]]
  {
    if syms != [] { ResolvedNames(names, syms[1..]); }
  }

  lemma {:induction false} SpelledLexical(ty: Type, s: Shape, vars: seq<Symbol>, names: Interner)
    requires Legible(ty, names) && Spells(ty, s, vars, names)
    ensures Lexical(s)
    decreases ty, 0
  {
    match ty
    case Con(home, name, args) =>
      ResolvedNames(names, home + [name]);
      forall i | 0 <= i < |args| ensures Lexical(s.args[i]) { SpelledLexical(args[i], s.args[i], vars, names); }
    case Lambda(from, to) =>
      SpelledLexical(from, s.from, vars, names);
      SpelledLexical(to, s.to, vars, names);
    case Tuple(elems) =>
      forall i | 0 <= i < |elems| ensures Lexical(s.elems[i]) { SpelledLexical(elems[i], s.elems[i], vars, names); }
    case Record(fields) => SpelledEntriesLexical(fields, s.entries, vars, names);
    case RecordOpen(_, fields) => SpelledEntriesLexical(fields, s.entries, vars, names);
    case _ =>
  }

  lemma {:induction false} SpelledEntriesLexical(
      fields: seq<Field>, es: seq<SEntry>, vars: seq<Symbol>, names: Interner)
    requires LegibleFields(fields, names) && SpellsFields(fields, es, vars, names)
    ensures LexicalEntries(es)
    decreases fields, 0
  {
    forall i | 0 <= i < |fields| ensures LexicalEntry(es[i]) { SpelledEntryLexical(fields[i], es[i], vars, names); }
  }

  lemma {:induction false} SpelledEntryLexical(f: Field, e: SEntry, vars: seq<Symbol>, names: Interner)
    requires LegibleField(f, names) && SpellsField(f, e, vars, names)
    ensures LexicalEntry(e)
    decreases f, 0
  {
    SpelledLexical(f.ty, e.ty, vars, names);
  }

  /** Types with one signature text are one type, up to an injective renaming and field order. */
  lemma {:induction false} SameTextSameType(s: Type, sn: Interner, t: Type, tn: Interner) returns (ren: Renaming)
    requires Legible(s, sn) && Legible(t, tn)
    requires TypeSignature(s, sn).Ok? && TypeSignature(s, sn) == TypeSignature(t, tn)
    ensures Injective(ren) && SameType(ren, s, sn, t, tn)
  {
    var (a, vs) := Named(s, [], sn).value;
    var (b, ws) := Named(t, [], tn).value;
    NamedDistinct(s, [], sn);
    NamedDistinct(t, [], tn);
    NamedSpells(s, [], sn, vs);
    NamedSpells(t, [], tn, ws);
    SpelledLexical(s, a, vs, sn);
    SpelledLexical(t, b, ws, tn);
    PrintsAlikeExactly(a, b);
    SameShapeSameType(s, a, vs, sn, t, b, ws, tn);
    ren := Zip(vs, ws);
  }

  /** The type with every type and row variable renamed. */
  function Renamed(ty: Type, ren: Symbol -> Symbol): Type
    decreases ty, 0
  {
    match ty
    case Var(sym) => Var(ren(sym))
    case Con(home, name, args) => Con(home, name, RenamedAll(args, ren))
    case Lambda(from, to) => Lambda(Renamed(from, ren), Renamed(to, ren))
    case Tuple(elems) => Tuple(RenamedAll(elems, ren))
    case Unit => Unit
    case Record(fields) => Record(RenamedFields(fields, ren))
    case RecordOpen(row, fields) => RecordOpen(ren(row), RenamedFields(fields, ren))
  }

  function RenamedAll(tys: seq<Type>, ren: Symbol -> Symbol): seq<Type>
    decreases tys, 0
  {
    if tys == [] then [] else [Renamed(tys[0], ren)] + RenamedAll(tys[1..], ren)
  }

  function RenamedField(f: Field, ren: Symbol -> Symbol): Field
    decreases f, 0
  {
    Field(f.name, Renamed(f.ty, ren))
  }

  function RenamedFields(fields: seq<Field>, ren: Symbol -> Symbol): seq<Field>
    decreases fields, 0
  {
    if fields == [] then [] else [RenamedField(fields[0], ren)] + RenamedFields(fields[1..], ren)
  }

  /** The renaming merges no variable of `vars` with another. */
  ghost predicate InjectiveOn(ren: Symbol -> Symbol, vars: set<Symbol>) {
    forall a, b :: a in vars && b in vars && ren(a) == ren(b) ==> a == b
  }

  ghost function VarsOf(ty: Type): set<Symbol>
    decreases ty, 0
  {
    match ty
    case Var(sym) => {sym}
    case Con(_, _, args) => VarsOfAll(args)
    case Lambda(from, to) => VarsOf(from) + VarsOf(to)
    case Tuple(elems) => VarsOfAll(elems)
    case Unit => {}
    case Record(fields) => VarsOfFields(fields)
    case RecordOpen(row, fields) => {row} + VarsOfFields(fields)
  }

  ghost function VarsOfAll(tys: seq<Type>): set<Symbol>
    decreases tys, 0
  {
    if tys == [] then {} else VarsOf(tys[0]) + VarsOfAll(tys[1..])
  }

  ghost function VarsOfField(f: Field): set<Symbol>
    decreases f
  {
    VarsOf(f.ty)
  }

  ghost function VarsOfFields(fields: seq<Field>): set<Symbol>
    decreases fields, 0
  {
    if fields == [] then {} else VarsOfField(fields[0]) + VarsOfFields(fields[1..])
  }

  function Mapped(seen: seq<Symbol>, ren: Symbol -> Symbol): (r: seq<Symbol>)
    ensures |r| == |seen| && forall i :: 0 <= i < |seen| ==> r[i] == ren(seen[i])
  {
    if seen == [] then [] else [ren(seen[0])] + Mapped(seen[1..], ren)
  }

  /** Seeing a renamed variable is renaming what was seen. */
  lemma {:induction false} SeeRenamed(seen: seq<Symbol>, sym: Symbol, ren: Symbol -> Symbol, vars: set<Symbol>)
    requires InjectiveOn(ren, vars) && sym in vars && forall s :: s in seen ==> s in vars
    ensures See(Mapped(seen, ren), ren(sym)) == Mapped(See(seen, sym), ren)
    ensures NameIn(See(Mapped(seen, ren), ren(sym)), ren(sym)) == NameIn(See(seen, sym), sym)
    ensures forall s :: s in See(seen, sym) ==> s in vars
  {
    MappedSees(seen, sym, ren, vars);
    IndexRenamed(See(seen, sym), sym, ren, vars);
  }

  lemma {:induction false} MappedSees(seen: seq<Symbol>, sym: Symbol, ren: Symbol -> Symbol, vars: set<Symbol>)
    requires InjectiveOn(ren, vars) && sym in vars && forall s :: s in seen ==> s in vars
    ensures ren(sym) in Mapped(seen, ren) <==> sym in seen
    ensures Mapped(seen + [sym], ren) == Mapped(seen, ren) + [ren(sym)]
  {
    if seen != [] {
      assert seen[0] in vars;
      assert (seen + [sym])[1..] == seen[1..] + [sym];
      MappedSees(seen[1..], sym, ren, vars);
    }
  }

  lemma {:induction false} IndexRenamed(seen: seq<Symbol>, sym: Symbol, ren: Symbol -> Symbol, vars: set<Symbol>)
    requires InjectiveOn(ren, vars) && sym in seen && forall s :: s in seen ==> s in vars
    ensures ren(sym) in Mapped(seen, ren) && IndexOf(Mapped(seen, ren), ren(sym)) == IndexOf(seen, sym)
  {
    assert Mapped(seen, ren)[IndexOf(seen, sym)] == ren(sym);
    assert seen[0] in vars;
    if seen[0] != sym {
      IndexRenamed(seen[1..], sym, ren, vars);
      assert Mapped(seen, ren)[1..] == Mapped(seen[1..], ren);
    }
  }

  /** `r` is the renamed run that `o` is: same shape, renamed variables, all within `vars`. */
  ghost predicate Follow<S>(
      r: Result<(S, seq<Symbol>), Bug>, o: Result<(S, seq<Symbol>), Bug>, ren: Symbol -> Symbol, vars: set<Symbol>) {
    && (r.Ok? <==> o.Ok?)
    && (o.Ok? ==> r.value.0 == o.value.0 && r.value.1 == Mapped(o.value.1, ren))
    && (o.Ok? ==> forall s :: s in o.value.1 ==> s in vars)
  }

  lemma {:induction false} RenamedNames(
      ty: Type, seen: seq<Symbol>, names: Interner, ren: Symbol -> Symbol, vars: set<Symbol>)
    requires InjectiveOn(ren, vars) && VarsOf(ty) <= vars && forall s :: s in seen ==> s in vars
    ensures Follow(Named(Renamed(ty, ren), Mapped(seen, ren), names), Named(ty, seen, names), ren, vars)
    decreases ty, 0
  {
    match ty
    case Var(sym) => SeeRenamed(seen, sym, ren, vars);
    case Con(home, name, args) => RenamedNamesAll(args, seen, names, ren, vars);
    case Lambda(from, to) =>
      RenamedNames(from, seen, names, ren, vars);
      var first := Named(from, seen, names);
      if first.Ok? { RenamedNames(to, first.value.1, names, ren, vars); }
    case Tuple(elems) => RenamedNamesAll(elems, seen, names, ren, vars);
    case Unit =>
    case Record(fields) => RenamedNamesFields(fields, seen, names, ren, vars);
    case RecordOpen(row, fields) =>
      RenamedNamesFields(fields, seen, names, ren, vars);
      var first := NamedFields(fields, seen, names);
      if first.Ok? { SeeRenamed(first.value.1, row, ren, vars); }
  }

  lemma {:induction false} RenamedNamesAll(
      tys: seq<Type>, seen: seq<Symbol>, names: Interner, ren: Symbol -> Symbol, vars: set<Symbol>)
    requires InjectiveOn(ren, vars) && VarsOfAll(tys) <= vars && forall s :: s in seen ==> s in vars
    ensures Follow(NamedAll(RenamedAll(tys, ren), Mapped(seen, ren), names), NamedAll(tys, seen, names), ren, vars)
    decreases tys, 0
  {
    if tys != [] {
      RenamedNames(tys[0], seen, names, ren, vars);
      var first := Named(tys[0], seen, names);
      assert RenamedAll(tys, ren)[1..] == RenamedAll(tys[1..], ren);
      if first.Ok? { RenamedNamesAll(tys[1..], first.value.1, names, ren, vars); }
    }
  }

  lemma {:induction false} RenamedNamesField(
      f: Field, seen: seq<Symbol>, names: Interner, ren: Symbol -> Symbol, vars: set<Symbol>)
    requires InjectiveOn(ren, vars) && VarsOfField(f) <= vars && forall s :: s in seen ==> s in vars
    ensures Follow(NamedField(RenamedField(f, ren), Mapped(seen, ren), names), NamedField(f, seen, names), ren, vars)
    decreases f, 0
  {
    RenamedNames(f.ty, seen, names, ren, vars);
  }

  lemma {:induction false} RenamedNamesFields(
      fields: seq<Field>, seen: seq<Symbol>, names: Interner, ren: Symbol -> Symbol, vars: set<Symbol>)
    requires InjectiveOn(ren, vars) && VarsOfFields(fields) <= vars && forall s :: s in seen ==> s in vars
    ensures Follow(NamedFields(RenamedFields(fields, ren), Mapped(seen, ren), names),
                   NamedFields(fields, seen, names), ren, vars)
    decreases fields, 0
  {
    if fields != [] {
      RenamedNamesField(fields[0], seen, names, ren, vars);
      var first := NamedField(fields[0], seen, names);
      assert RenamedFields(fields, ren)[1..] == RenamedFields(fields[1..], ren);
      if first.Ok? { RenamedNamesFields(fields[1..], first.value.1, names, ren, vars); }
    }
  }

  /** Renaming a type's variables, merging none, leaves its signature text unchanged. */
  lemma {:induction false} RenamingIsInvisible(ty: Type, names: Interner, ren: Symbol -> Symbol)
    requires InjectiveOn(ren, VarsOf(ty))
    ensures TypeSignature(Renamed(ty, ren), names) == TypeSignature(ty, names)
  {
    var none: seq<Symbol> := [];
    RenamedNames(ty, none, names, ren, VarsOf(ty));
    assert Mapped(none, ren) == none;
    var renamed, original := Named(Renamed(ty, ren), none, names), Named(ty, none, names);
    assert original.Err? ==> renamed.error.UnresolvedSymbol? && original.error.UnresolvedSymbol?;
  }
}
