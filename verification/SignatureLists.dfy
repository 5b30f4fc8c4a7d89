/**
 * The signatures of a constructor's argument list. Each argument is rendered
 * with a namer of its own, so the list says less than one shared namer would.
 */
module SignatureLists {
  import opened Prelude
  import opened Lettering
  import opened Orders
  import opened Signature
  import opened SignatureMeaning

  // ---- one argument: when exactly two texts are equal ----

  /** Zipped variables have one name. */
  lemma {:induction false} ZippedSameName(vs: seq<Symbol>, a: Symbol, ws: seq<Symbol>, b: Symbol)
    requires Distinct(vs) && Distinct(ws) && a in vs && b in ws && a in Zip(vs, ws) && Zip(vs, ws)[a] == b
    ensures NameIn(vs, a) == NameIn(ws, b)
  {
    var k :| 0 <= k < |vs| && k < |ws| && a == vs[k] && b == ws[k];
    IndexIsUnique(vs, k);
    IndexIsUnique(ws, k);
  }

  lemma {:induction false} PrintedAt(ss: seq<Shape>, i: nat)
    requires i < |ss|
    ensures PrintAll(ss)[i] == Print(ss[i]) && PrintArgs(ss)[i] == PrintArg(ss[i])
  {
    if i > 0 { PrintedAt(ss[1..], i - 1); }
  }

  /** Types equal under the renaming that pairs their variable lists print alike, whatever their field order. */
  lemma {:induction false} SameTypeSameText(
      x: Type, s: Shape, vs: seq<Symbol>, sn: Interner, y: Type, t: Shape, ws: seq<Symbol>, tn: Interner)
    requires Distinct(vs) && Distinct(ws) && Spells(x, s, vs, sn) && Spells(y, t, ws, tn)
    requires SameType(Zip(vs, ws), x, sn, y, tn)
    ensures Print(s) == Print(t) && PrintArg(s) == PrintArg(t)
    decreases x, 0
  {
    match x
    case Var(a) => ZippedSameName(vs, a, ws, y.sym);
    case Con(_, _, xs) => SameTypesSameTexts(xs, s.args, vs, sn, y.args, t.args, ws, tn);
    case Lambda(from, to) =>
      SameTypeSameText(from, s.from, vs, sn, y.from, t.from, ws, tn);
      SameTypeSameText(to, s.to, vs, sn, y.to, t.to, ws, tn);
    case Tuple(xs) => SameTypesSameTexts(xs, s.elems, vs, sn, y.elems, t.elems, ws, tn);
    case Unit =>
    case Record(fs) =>
      SameFieldsSameTexts(fs, s.entries, vs, sn, y.fields, t.entries, ws, tn);
      TextLeTotal();
      SortForgetsOrder(TextLe, PrintEntries(s.entries), PrintEntries(t.entries));
    case RecordOpen(a, fs) =>
      ZippedSameName(vs, a, ws, y.row);
      SameFieldsSameTexts(fs, s.entries, vs, sn, y.fields, t.entries, ws, tn);
      TextLeTotal();
      SortForgetsOrder(TextLe, PrintEntries(s.entries), PrintEntries(t.entries));
  }

  lemma {:induction false} SameTypesSameTexts(
      xs: seq<Type>, ss: seq<Shape>, vs: seq<Symbol>, sn: Interner, ys: seq<Type>, ts: seq<Shape>, ws: seq<Symbol>,
      tn: Interner)
    requires Distinct(vs) && Distinct(ws) && SpellsAll(xs, ss, vs, sn) && SpellsAll(ys, ts, ws, tn)
    requires SameTypes(Zip(vs, ws), xs, sn, ys, tn)
    ensures PrintAll(ss) == PrintAll(ts) && PrintArgs(ss) == PrintArgs(ts)
    decreases xs, 0
  {
    forall i | 0 <= i < |xs| ensures PrintAll(ss)[i] == PrintAll(ts)[i] && PrintArgs(ss)[i] == PrintArgs(ts)[i] {
      SameTypeSameText(xs[i], ss[i], vs, sn, ys[i], ts[i], ws, tn);
      PrintedAt(ss, i);
      PrintedAt(ts, i);
    }
  }

  lemma {:induction false} SameFieldSameText(
      f: Field, d: SEntry, vs: seq<Symbol>, sn: Interner, g: Field, e: SEntry, ws: seq<Symbol>, tn: Interner)
    requires Distinct(vs) && Distinct(ws) && SpellsField(f, d, vs, sn) && SpellsField(g, e, ws, tn)
    requires SameField(Zip(vs, ws), f, sn, g, tn)
    ensures d.key + " : " + Print(d.ty) == e.key + " : " + Print(e.ty)
    decreases f, 0
  {
    SameTypeSameText(f.ty, d.ty, vs, sn, g.ty, e.ty, ws, tn);
  }

  lemma {:induction false} SameFieldsSameTexts(
      fs: seq<Field>, ds: seq<SEntry>, vs: seq<Symbol>, sn: Interner, gs: seq<Field>, es: seq<SEntry>,
      ws: seq<Symbol>, tn: Interner)
    requires Distinct(vs) && Distinct(ws) && SpellsFields(fs, ds, vs, sn) && SpellsFields(gs, es, ws, tn)
    requires SameFields(Zip(vs, ws), fs, sn, gs, tn)
    ensures multiset(PrintEntries(ds)) == multiset(PrintEntries(es))
    decreases fs, 0
  {
    if fs != [] {
      var j :| 0 <= j < |gs| && SameField(Zip(vs, ws), fs[0], sn, gs[j], tn)
        && SameFields(Zip(vs, ws), fs[1..], sn, Without(gs, j), tn);
      SameFieldSameText(fs[0], ds[0], vs, sn, gs[j], es[j], ws, tn);
      WithoutSpells(gs, es, ws, tn, j);
      SameFieldsSameTexts(fs[1..], ds[1..], vs, sn, Without(gs, j), Without(es, j), ws, tn);
      TextsWithout(es, j);
      PutBack(PrintEntries(es), j);
      assert PrintEntries(ds) == [PrintEntries(es)[j]] + PrintEntries(ds[1..]);
    } else {
      assert es == [];
    }
  }

  lemma {:induction false} EntryPrintedAt(es: seq<SEntry>, i: nat)
    requires i < |es|
    ensures PrintEntries(es)[i] == es[i].key + " : " + Print(es[i].ty)
  {
    if i > 0 { EntryPrintedAt(es[1..], i - 1); }
  }

  lemma {:induction false} TextsWithout(es: seq<SEntry>, j: nat)
    requires j < |es|
    ensures PrintEntries(es)[j] == es[j].key + " : " + Print(es[j].ty)
    ensures PrintEntries(Without(es, j)) == Without(PrintEntries(es), j)
  {
    EntryPrintedAt(es, j);
    forall i | 0 <= i < |es| - 1 ensures PrintEntries(Without(es, j))[i] == Without(PrintEntries(es), j)[i] {
      EntryPrintedAt(Without(es, j), i);
      EntryPrintedAt(es, if i < j then i else i + 1);
    }
  }

  /** The variables of a type, in the order the namer first sees them. */
  function FirstSeen(ty: Type, names: Interner): seq<Symbol>
    requires Named(ty, [], names).Ok?
  {
    Named(ty, [], names).value.1
  }

  /** Both types can be named, and their names are words of the language. */
  ghost predicate Readable(s: Type, names: Interner) {
    Legible(s, names) && Named(s, [], names).Ok?
  }

  /** The renaming that takes each variable to the one first seen at its place. */
  ghost function Pairing(s: Type, sn: Interner, t: Type, tn: Interner): Renaming
    requires Named(s, [], sn).Ok? && Named(t, [], tn).Ok?
  {
    NamedDistinct(s, [], sn);
    NamedDistinct(t, [], tn);
    Zip(FirstSeen(s, sn), FirstSeen(t, tn))
  }

  /** The types are one, up to that renaming and field order. */
  ghost predicate Matches(s: Type, sn: Interner, t: Type, tn: Interner)
    requires Named(s, [], sn).Ok? && Named(t, [], tn).Ok?
  {
    SameType(Pairing(s, sn, t, tn), s, sn, t, tn)
  }

  lemma {:induction false} SameTextMatches(s: Type, sn: Interner, t: Type, tn: Interner)
    requires Readable(s, sn) && Readable(t, tn)
    requires Print(Named(s, [], sn).value.0) == Print(Named(t, [], tn).value.0)
    ensures Matches(s, sn, t, tn)
  {
    var (a, vs) := Named(s, [], sn).value;
    var (b, ws) := Named(t, [], tn).value;
    NamedDistinct(s, [], sn);
    NamedDistinct(t, [], tn);
    NamedSpells(s, [], sn, vs);
    NamedSpells(t, [], tn, ws);
    SpelledLexical(s, a, vs, sn);
    SpelledLexical(t, b, ws, tn);
    PrintsAlikeExactly(a, b);
    SameShapeSameType(s, a, vs, sn, t, b, ws, tn);
  }

  lemma {:induction false} MatchesSameText(s: Type, sn: Interner, t: Type, tn: Interner)
    requires Readable(s, sn) && Readable(t, tn) && Matches(s, sn, t, tn)
    ensures Print(Named(s, [], sn).value.0) == Print(Named(t, [], tn).value.0)
  {
    var (a, vs) := Named(s, [], sn).value;
    var (b, ws) := Named(t, [], tn).value;
    NamedDistinct(s, [], sn);
    NamedDistinct(t, [], tn);
    NamedSpells(s, [], sn, vs);
    NamedSpells(t, [], tn, ws);
    SameTypeSameText(s, a, vs, sn, t, b, ws, tn);
  }

  /** Two arguments render alike exactly when they match. */
  lemma {:induction false} SameTextExactly(s: Type, sn: Interner, t: Type, tn: Interner)
    requires Readable(s, sn) && Readable(t, tn)
    ensures TypeSignature(s, sn) == TypeSignature(t, tn) <==> Matches(s, sn, t, tn)
  {
    if TypeSignature(s, sn) == TypeSignature(t, tn) {
      SameTextMatches(s, sn, t, tn);
    }
    if Matches(s, sn, t, tn) {
      MatchesSameText(s, sn, t, tn);
    }
  }

  // ---- the argument list ----

  /** The signatures of a constructor's arguments. */
  function ArgSignatures(args: seq<Type>, names: Interner): (r: Result<seq<string>, Bug>)
    ensures r.Ok? ==> |r.value| == |args|
  {
    if args == [] then Ok([])
    else
      var first :- TypeSignature(args[0], names);
      var rest :- ArgSignatures(args[1..], names);
      Ok([first] + rest)
  }

  /** The loop over a constructor's arguments as it runs. */
  method RenderArgSignatures(args: seq<Type>, names: Interner) returns (r: Result<seq<string>, Bug>)
    ensures r == ArgSignatures(args, names)
  {
    var out: seq<string> := [];
    assert args[0..] == args;
    PrependNothing(ArgSignatures(args, names));
    for k := 0 to |args|
      invariant ArgSignatures(args, names) == Prepend(out, ArgSignatures(args[k..], names))
    {
      assert args[k..][1..] == args[k + 1..];
      var text := RenderSignature(args[k], names);
      if text.Ok? {
        PrependOne(out, text.value, ArgSignatures(args[k + 1..], names));
      }
      if text.Err? {
        return Err(text.error);
      }
      out := out + [text.value];
    }
    assert args[|args|..] == [] && out + [] == out;
    return Ok(out);
  }

  function Prepend(out: seq<string>, rest: Result<seq<string>, Bug>): Result<seq<string>, Bug> {
    match rest case Ok(texts) => Ok(out + texts) case Err(e) => Err(e)
  }

  lemma {:induction false} PrependNothing(r: Result<seq<string>, Bug>)
    ensures Prepend([], r) == r
  {
    assert r.Ok? ==> [] + r.value == r.value;
  }

  lemma {:induction false} PrependOne(out: seq<string>, text: string, rest: Result<seq<string>, Bug>)
    ensures rest.Ok? ==> Prepend(out, Ok([text] + rest.value)) == Prepend(out + [text], rest)
  {
    assert rest.Ok? ==> out + ([text] + rest.value) == out + [text] + rest.value;
  }

  ghost predicate AllReadable(args: seq<Type>, names: Interner) {
    forall i :: 0 <= i < |args| ==> Readable(args[i], names)
  }

  lemma {:induction false} SignatureAt(args: seq<Type>, names: Interner, i: nat)
    requires AllReadable(args, names) && i < |args|
    ensures ArgSignatures(args, names).Ok? && TypeSignature(args[i], names) == Ok(ArgSignatures(args, names).value[i])
  {
    assert Readable(args[0], names);
    assert forall k :: 0 <= k < |args[1..]| ==> args[1..][k] == args[k + 1];
    if i > 0 {
      SignatureAt(args[1..], names, i - 1);
    } else if |args| > 1 {
      SignatureAt(args[1..], names, 0);
    }
  }

  /** Two constructors list the same signatures exactly when their arguments match, each under a renaming of its own. */
  lemma {:induction false} ListsAlikeExactly(a: seq<Type>, an: Interner, b: seq<Type>, bn: Interner)
    requires AllReadable(a, an) && AllReadable(b, bn)
    ensures ArgSignatures(a, an) == ArgSignatures(b, bn) <==>
      |a| == |b| && forall i :: 0 <= i < |a| ==> Matches(a[i], an, b[i], bn)
  {
    ListIsOk(a, an);
    ListIsOk(b, bn);
    if |a| == |b| {
      forall i | 0 <= i < |a|
        ensures ArgSignatures(a, an).value[i] == ArgSignatures(b, bn).value[i] <==> Matches(a[i], an, b[i], bn)
      {
        SignatureAt(a, an, i);
        SignatureAt(b, bn, i);
        SameTextExactly(a[i], an, b[i], bn);
      }
      assert ArgSignatures(a, an).value == ArgSignatures(b, bn).value <==>
        forall i :: 0 <= i < |a| ==> ArgSignatures(a, an).value[i] == ArgSignatures(b, bn).value[i];
    }
  }

  lemma {:induction false} ListIsOk(args: seq<Type>, names: Interner)
    requires AllReadable(args, names)
    ensures ArgSignatures(args, names).Ok?
  {
    if args != [] { SignatureAt(args, names, 0); }
  }

  // ---- one renaming for the whole list ----

  /** The arguments' own renamings. */
  ghost function Pairings(a: seq<Type>, an: Interner, b: seq<Type>, bn: Interner): (parts: seq<Renaming>)
    requires |a| == |b| && AllReadable(a, an) && AllReadable(b, bn)
    ensures |parts| == |a| && forall i :: 0 <= i < |a| ==> parts[i] == Pairing(a[i], an, b[i], bn)
  {
    seq(|a|, i requires 0 <= i < |a| => Pairing(a[i], an, b[i], bn))
  }

  ghost predicate Extends(ren: Renaming, part: Renaming) {
    forall x :: x in part ==> x in ren && ren[x] == part[x]
  }

  /** One injective renaming that renames every argument as its own renaming does. */
  ghost predicate SharedRenaming(ren: Renaming, parts: seq<Renaming>) {
    Injective(ren) && forall i :: 0 <= i < |parts| ==> Extends(ren, parts[i])
  }

  /** Two renamings agree on the variables that occur in both arguments, on either side. */
  ghost predicate Agree(p: Renaming, q: Renaming) {
    forall x, y :: x in p && y in q ==> (x == y <==> p[x] == q[y])
  }

  ghost predicate AllAgree(parts: seq<Renaming>) {
    forall i, j :: 0 <= i < |parts| && 0 <= j < |parts| ==> Agree(parts[i], parts[j])
  }

  /** The renamings of the first `n` arguments together. */
  ghost function Joined(parts: seq<Renaming>, n: nat): Renaming
    requires n <= |parts|
  {
    if n == 0 then map[] else Joined(parts, n - 1) + parts[n - 1]
  }

  lemma {:induction false} JoinedComesFrom(parts: seq<Renaming>, n: nat, x: Symbol) returns (i: nat)
    requires n <= |parts| && x in Joined(parts, n)
    ensures i < n && x in parts[i] && parts[i][x] == Joined(parts, n)[x]
  {
    if x in parts[n - 1] {
      i := n - 1;
    } else {
      i := JoinedComesFrom(parts, n - 1, x);
    }
  }

  lemma {:induction false} JoinedHas(parts: seq<Renaming>, n: nat, i: nat, x: Symbol)
    requires i < n <= |parts| && AllAgree(parts) && x in parts[i]
    ensures x in Joined(parts, n) && Joined(parts, n)[x] == parts[i][x]
  {
    if i < n - 1 {
      JoinedHas(parts, n - 1, i, x);
      assert Agree(parts[i], parts[n - 1]);
    }
  }

  /** One renaming serves the whole list exactly when the arguments' own renamings agree wherever they meet. */
  lemma {:induction false} SharedExactly(parts: seq<Renaming>)
    ensures (exists ren :: SharedRenaming(ren, parts)) <==> AllAgree(parts)
  {
    if AllAgree(parts) {
      var ren := Joined(parts, |parts|);
      forall x, y | x in ren && y in ren && ren[x] == ren[y] ensures x == y {
        var i := JoinedComesFrom(parts, |parts|, x);
        var j := JoinedComesFrom(parts, |parts|, y);
        assert Agree(parts[i], parts[j]);
      }
      forall i, x | 0 <= i < |parts| && x in parts[i] ensures x in ren && ren[x] == parts[i][x] {
        JoinedHas(parts, |parts|, i, x);
      }
      assert SharedRenaming(ren, parts);
    }
  }

  /** Under a larger renaming the types are still one. */
  lemma {:induction false} SameTypeExtends(part: Renaming, ren: Renaming, s: Type, sn: Interner, t: Type, tn: Interner)
    requires Extends(ren, part) && SameType(part, s, sn, t, tn)
    ensures SameType(ren, s, sn, t, tn)
    decreases s, 0
  {
    match s
    case Var(_) =>
    case Con(_, _, xs) => SameTypesExtend(part, ren, xs, sn, t.args, tn);
    case Lambda(from, to) =>
      SameTypeExtends(part, ren, from, sn, t.from, tn);
      SameTypeExtends(part, ren, to, sn, t.to, tn);
    case Tuple(xs) => SameTypesExtend(part, ren, xs, sn, t.elems, tn);
    case Unit =>
    case Record(fs) => SameFieldsExtend(part, ren, fs, sn, t.fields, tn);
    case RecordOpen(_, fs) => SameFieldsExtend(part, ren, fs, sn, t.fields, tn);
  }

  lemma {:induction false} SameTypesExtend(
      part: Renaming, ren: Renaming, xs: seq<Type>, sn: Interner, ys: seq<Type>, tn: Interner)
    requires Extends(ren, part) && SameTypes(part, xs, sn, ys, tn)
    ensures SameTypes(ren, xs, sn, ys, tn)
    decreases xs, 0
  {
    forall i | 0 <= i < |xs| ensures SameType(ren, xs[i], sn, ys[i], tn) {
      SameTypeExtends(part, ren, xs[i], sn, ys[i], tn);
    }
  }

  lemma {:induction false} SameFieldExtends(
      part: Renaming, ren: Renaming, f: Field, sn: Interner, g: Field, tn: Interner)
    requires Extends(ren, part) && SameField(part, f, sn, g, tn)
    ensures SameField(ren, f, sn, g, tn)
    decreases f, 0
  {
    SameTypeExtends(part, ren, f.ty, sn, g.ty, tn);
  }

  lemma {:induction false} SameFieldsExtend(
      part: Renaming, ren: Renaming, fs: seq<Field>, sn: Interner, gs: seq<Field>, tn: Interner)
    requires Extends(ren, part) && SameFields(part, fs, sn, gs, tn)
    ensures SameFields(ren, fs, sn, gs, tn)
    decreases fs, 0
  {
    if fs != [] {
      var j :| 0 <= j < |gs| && SameField(part, fs[0], sn, gs[j], tn) &&
        SameFields(part, fs[1..], sn, Without(gs, j), tn);
      SameFieldExtends(part, ren, fs[0], sn, gs[j], tn);
      SameFieldsExtend(part, ren, fs[1..], sn, Without(gs, j), tn);
      MatchFirst(ren, fs, sn, gs, tn, j);
    }
  }

  /** No variable occurs in two arguments. */
  ghost predicate Apart(args: seq<Type>) {
    forall i, j :: 0 <= i < |args| && 0 <= j < |args| && i != j ==> VarsOf(args[i]) !! VarsOf(args[j])
  }

  lemma {:induction false} SeenAreVariables(ty: Type, names: Interner)
    requires Named(ty, [], names).Ok?
    ensures forall x :: x in FirstSeen(ty, names) ==> x in VarsOf(ty)
  {
    RenamedNames(ty, [], names, (s: Symbol) => s, VarsOf(ty));
  }

  lemma {:induction false} PairingIsOfVariables(s: Type, sn: Interner, t: Type, tn: Interner, x: Symbol)
    requires Named(s, [], sn).Ok? && Named(t, [], tn).Ok? && x in Pairing(s, sn, t, tn)
    ensures x in VarsOf(s) && Pairing(s, sn, t, tn)[x] in VarsOf(t)
  {
    NamedDistinct(s, [], sn);
    NamedDistinct(t, [], tn);
    SeenAreVariables(s, sn);
    SeenAreVariables(t, tn);
    var vs, ws := FirstSeen(s, sn), FirstSeen(t, tn);
    var k :| 0 <= k < |vs| && k < |ws| && x == vs[k] && Zip(vs, ws)[x] == ws[k];
  }

  /**
   * Where no variable occurs in two arguments, on either side, equal signature
   * lists do mean one shared renaming of the whole argument list.
   */
  lemma {:induction false} ApartListsShare(
      a: seq<Type>, an: Interner, b: seq<Type>, bn: Interner) returns (ren: Renaming)
    requires AllReadable(a, an) && AllReadable(b, bn) && Apart(a) && Apart(b)
    requires ArgSignatures(a, an) == ArgSignatures(b, bn)
    ensures |a| == |b| && SharedRenaming(ren, Pairings(a, an, b, bn))
    ensures forall i :: 0 <= i < |a| ==> SameType(ren, a[i], an, b[i], bn)
  {
    ListsAlikeExactly(a, an, b, bn);
    var parts := Pairings(a, an, b, bn);
    forall i, j | 0 <= i < |a| && 0 <= j < |a| ensures Agree(parts[i], parts[j]) {
      ApartAgree(a, an, b, bn, i, j);
    }
    SharedExactly(parts);
    ren :| SharedRenaming(ren, parts);
    forall i | 0 <= i < |a| ensures SameType(ren, a[i], an, b[i], bn) {
      assert Extends(ren, parts[i]);
      SameTypeExtends(parts[i], ren, a[i], an, b[i], bn);
    }
  }

  lemma {:induction false} ApartAgree(a: seq<Type>, an: Interner, b: seq<Type>, bn: Interner, i: nat, j: nat)
    requires |a| == |b| && i < |a| && j < |a|
    requires AllReadable(a, an) && AllReadable(b, bn) && Apart(a) && Apart(b)
    ensures Agree(Pairing(a[i], an, b[i], bn), Pairing(a[j], an, b[j], bn))
  {
    var p, q := Pairing(a[i], an, b[i], bn), Pairing(a[j], an, b[j], bn);
    forall x, y | x in p && y in q ensures x == y <==> p[x] == q[y] {
      PairingIsOfVariables(a[i], an, b[i], bn, x);
      PairingIsOfVariables(a[j], an, b[j], bn, y);
      if i != j {
        assert VarsOf(a[i]) !! VarsOf(a[j]) && VarsOf(b[i]) !! VarsOf(b[j]);
      }
    }
  }

  /** `C a b` and `C a a` list the same signatures, and no one renaming takes one to the other. */
  lemma {:induction false} SharingIsLost(v: Symbol, w: Symbol, names: Interner)
    requires v != w
    ensures ArgSignatures([Var(v), Var(w)], names) == ArgSignatures([Var(v), Var(v)], names)
    ensures AllReadable([Var(v), Var(w)], names) && AllReadable([Var(v), Var(v)], names)
    ensures !exists ren :: SharedRenaming(ren, Pairings([Var(v), Var(w)], names, [Var(v), Var(v)], names))
  {
    var a, b := [Var(v), Var(w)], [Var(v), Var(v)];
    VarIsFirst(v, names);
    VarIsFirst(w, names);
    ListsAlikeExactly(a, names, b, names);
    VarPairing(v, v, names);
    VarPairing(w, v, names);
    var parts := Pairings(a, names, b, names);
    assert parts[0][v] == parts[1][w] && !Agree(parts[0], parts[1]);
    SharedExactly(parts);
  }

  lemma {:induction false} VarIsFirst(v: Symbol, names: Interner)
    ensures Named(Var(v), [], names) == Ok((SVar(Letters(0)), [v]))
  {
    assert [] + [v] == [v];
  }

  lemma {:induction false} VarPairing(v: Symbol, w: Symbol, names: Interner)
    ensures Named(Var(v), [], names).Ok? && Named(Var(w), [], names).Ok?
    ensures v in Pairing(Var(v), names, Var(w), names) && Pairing(Var(v), names, Var(w), names)[v] == w
    ensures Matches(Var(v), names, Var(w), names)
  {
    VarIsFirst(v, names);
    VarIsFirst(w, names);
    assert FirstSeen(Var(v), names)[0] == v && FirstSeen(Var(w), names)[0] == w;
  }
}
