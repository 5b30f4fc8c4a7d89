/** The order in which the namer sees the variables of a type, read off the type alone. */
module SignatureOrder {
  import opened Prelude
  import opened Orders
  import opened Lettering
  import opened Signature
  import opened SignatureMeaning

  /** The variables of a type as they occur: left to right, each field's type in declared order, and the row last. */
  function Occurrences(ty: Type): seq<Symbol>
    decreases ty, 0
  {
    match ty
    case Var(sym) => [sym]
    case Con(_, _, args) => OccurrencesAll(args)
    case Lambda(from, to) => Occurrences(from) + Occurrences(to)
    case Tuple(elems) => OccurrencesAll(elems)
    case Unit => []
    case Record(fields) => OccurrencesIn(fields)
    case RecordOpen(row, fields) => OccurrencesIn(fields) + [row]
  }

  function OccurrencesAll(tys: seq<Type>): seq<Symbol>
    decreases tys, 0
  {
    if tys == [] then [] else Occurrences(tys[0]) + OccurrencesAll(tys[1..])
  }

  function OccurrencesAt(field: Field): seq<Symbol>
    decreases field, 0
  {
    Occurrences(field.ty)
  }

  function OccurrencesIn(fields: seq<Field>): seq<Symbol>
    decreases fields, 0
  {
    if fields == [] then [] else OccurrencesAt(fields[0]) + OccurrencesIn(fields[1..])
  }

  /** The first occurrence of each, in order, after those already seen. */
  function Firsts(seen: seq<Symbol>, occurrences: seq<Symbol>): seq<Symbol>
    decreases |occurrences|
  {
    if occurrences == [] then seen
    else Firsts(if occurrences[0] in seen then seen else seen + [occurrences[0]], occurrences[1..])
  }

  lemma {:induction false} FirstsConcat(seen: seq<Symbol>, a: seq<Symbol>, b: seq<Symbol>)
    ensures Firsts(seen, a + b) == Firsts(Firsts(seen, a), b)
    decreases |a|
  {
    if a == [] {
      assert a + b == b;
    } else {
      assert (a + b)[1..] == a[1..] + b;
      FirstsConcat(if a[0] in seen then seen else seen + [a[0]], a[1..], b);
    }
  }

  lemma {:induction false} FirstsOne(seen: seq<Symbol>, sym: Symbol)
    ensures Firsts(seen, [sym]) == See(seen, sym)
  {
    assert [sym][1..] == [];
  }

  /** The namer has seen the variables in the order they occur. */
  lemma {:induction false} NamedInOrder(ty: Type, seen: seq<Symbol>, names: Interner)
    requires Named(ty, seen, names).Ok?
    ensures Named(ty, seen, names).value.1 == Firsts(seen, Occurrences(ty))
    decreases ty, 0
  {
    match ty
    case Var(sym) => FirstsOne(seen, sym);
    case Con(_, _, args) => AllInOrder(args, seen, names);
    case Lambda(from, to) =>
      NamedInOrder(from, seen, names);
      NamedInOrder(to, Named(from, seen, names).value.1, names);
      FirstsConcat(seen, Occurrences(from), Occurrences(to));
    case Tuple(elems) => AllInOrder(elems, seen, names);
    case Unit =>
    case Record(fields) => FieldsInOrder(fields, seen, names);
    case RecordOpen(row, fields) =>
      FieldsInOrder(fields, seen, names);
      FirstsConcat(seen, OccurrencesIn(fields), [row]);
      FirstsOne(NamedFields(fields, seen, names).value.1, row);
  }

  lemma {:induction false} AllInOrder(tys: seq<Type>, seen: seq<Symbol>, names: Interner)
    requires NamedAll(tys, seen, names).Ok?
    ensures NamedAll(tys, seen, names).value.1 == Firsts(seen, OccurrencesAll(tys))
    decreases tys, 0
  {
    if tys != [] {
      NamedInOrder(tys[0], seen, names);
      AllInOrder(tys[1..], Named(tys[0], seen, names).value.1, names);
      FirstsConcat(seen, Occurrences(tys[0]), OccurrencesAll(tys[1..]));
    }
  }

  lemma {:induction false} FieldInOrder(field: Field, seen: seq<Symbol>, names: Interner)
    requires NamedField(field, seen, names).Ok?
    ensures NamedField(field, seen, names).value.1 == Firsts(seen, OccurrencesAt(field))
    decreases field, 0
  {
    NamedInOrder(field.ty, seen, names);
  }

  lemma {:induction false} FieldsInOrder(fields: seq<Field>, seen: seq<Symbol>, names: Interner)
    requires NamedFields(fields, seen, names).Ok?
    ensures NamedFields(fields, seen, names).value.1 == Firsts(seen, OccurrencesIn(fields))
    decreases fields, 0
  {
    if fields != [] {
      FieldInOrder(fields[0], seen, names);
      FieldsInOrder(fields[1..], NamedField(fields[0], seen, names).value.1, names);
      FirstsConcat(seen, OccurrencesAt(fields[0]), OccurrencesIn(fields[1..]));
    }
  }

  // ---- when a type has a signature ----

  /** Every name the type mentions has a backing string. */
  predicate Backed(ty: Type, names: Interner)
    decreases ty, 0
  {
    match ty
    case Var(_) => true
    case Con(home, name, args) => (forall s :: s in home + [name] ==> s in names) && BackedAll(args, names)
    case Lambda(from, to) => Backed(from, names) && Backed(to, names)
    case Tuple(elems) => BackedAll(elems, names)
    case Unit => true
    case Record(fields) => BackedIn(fields, names)
    case RecordOpen(_, fields) => BackedIn(fields, names)
  }

  predicate BackedAll(tys: seq<Type>, names: Interner)
    decreases tys, 0
  {
    tys == [] || (Backed(tys[0], names) && BackedAll(tys[1..], names))
  }

  predicate BackedAt(field: Field, names: Interner)
    decreases field, 0
  {
    field.name in names && Backed(field.ty, names)
  }

  predicate BackedIn(fields: seq<Field>, names: Interner)
    decreases fields, 0
  {
    fields == [] || (BackedAt(fields[0], names) && BackedIn(fields[1..], names))
  }

  /** A type can be named exactly when every name it mentions is backed. */
  lemma {:induction false} NamedExactly(ty: Type, seen: seq<Symbol>, names: Interner)
    ensures Named(ty, seen, names).Ok? <==> Backed(ty, names)
    decreases ty, 0
  {
    match ty
    case Var(_) =>
    case Con(_, _, args) => AllNamedExactly(args, seen, names);
    case Lambda(from, to) =>
      NamedExactly(from, seen, names);
      if Named(from, seen, names).Ok? { NamedExactly(to, Named(from, seen, names).value.1, names); }
    case Tuple(elems) => AllNamedExactly(elems, seen, names);
    case Unit =>
    case Record(fields) => FieldsNamedExactly(fields, seen, names);
    case RecordOpen(_, fields) => FieldsNamedExactly(fields, seen, names);
  }

  lemma {:induction false} AllNamedExactly(tys: seq<Type>, seen: seq<Symbol>, names: Interner)
    ensures NamedAll(tys, seen, names).Ok? <==> BackedAll(tys, names)
    decreases tys, 0
  {
    if tys != [] {
      NamedExactly(tys[0], seen, names);
      if Named(tys[0], seen, names).Ok? { AllNamedExactly(tys[1..], Named(tys[0], seen, names).value.1, names); }
    }
  }

  lemma {:induction false} FieldNamedExactly(field: Field, seen: seq<Symbol>, names: Interner)
    ensures NamedField(field, seen, names).Ok? <==> BackedAt(field, names)
    decreases field, 0
  {
    NamedExactly(field.ty, seen, names);
  }

  lemma {:induction false} FieldsNamedExactly(fields: seq<Field>, seen: seq<Symbol>, names: Interner)
    ensures NamedFields(fields, seen, names).Ok? <==> BackedIn(fields, names)
    decreases fields, 0
  {
    if fields != [] {
      FieldNamedExactly(fields[0], seen, names);
      if NamedField(fields[0], seen, names).Ok? {
        FieldsNamedExactly(fields[1..], NamedField(fields[0], seen, names).value.1, names);
      }
    }
  }

  /**
   * A type has a signature exactly when every name it mentions is backed, and the
   * signature spells it with every variable named by its place among the first
   * occurrences: the first is the first letter, and so on.
   */
  lemma {:induction false} SignatureIsInOrder(ty: Type, names: Interner)
    ensures TypeSignature(ty, names).Ok? <==> Backed(ty, names)
    ensures var vars := Firsts([], Occurrences(ty));
      Backed(ty, names) ==>
        exists shape :: Spells(ty, shape, vars, names) && TypeSignature(ty, names) == Ok(Print(shape))
  {
    NamedExactly(ty, [], names);
    if Backed(ty, names) { SignatureSpells(ty, names); }
  }

  lemma {:induction false} SignatureSpells(ty: Type, names: Interner)
    requires Named(ty, [], names).Ok?
    ensures Spells(ty, Named(ty, [], names).value.0, Firsts([], Occurrences(ty)), names)
  {
    var vars := Firsts([], Occurrences(ty));
    NamedInOrder(ty, [], names);
    NamedDistinct(ty, [], names);
    NamedSpells(ty, [], names, vars);
  }
}
