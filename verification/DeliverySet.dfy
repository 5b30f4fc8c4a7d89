/** The declared delivery set of a release, and the loop that builds every member of it. */
module DeliverySet {
  import opened Prelude
  import opened Delivery

  /** The target axis of a co-located binary. */
  datatype BinaryTarget = HostTriple | StaticMusl | Cross(triple: StaticTriple)

  /** One declared delivery, before the program's shape is known. */
  datatype ShipEntry = Binary(target: BinaryTarget) | ShipDesktop
                     | ShipSolo | ShipSoloDesktop | ShipSoloIos | ShipSoloAndroid

  datatype Planned = Planned(delivery: Delivery, target: BinaryTarget)

  /** The runtime and host a web-bearing entry stands for. */
  function WebAxes(e: ShipEntry): (Runtime, Host)
    requires !e.Binary?
  {
    match e
    case ShipDesktop => (Served, Desktop)
    case ShipSolo => (Solo, Default)
    case ShipSoloDesktop => (Solo, Desktop)
    case ShipSoloIos => (Solo, Ios)
    case ShipSoloAndroid => (Solo, Android)
  }

  function ResolveOne(pinned: Shape, e: ShipEntry): Result<Planned, DeliveryError> {
    match e
    case Binary(target) =>
      var delivery :- ResolveDelivery(pinned, None, Default);
      if target.StaticMusl? && !AllowsStatic(delivery) then Err(StaticNotAllowed) else Ok(Planned(delivery, target))
    case _ =>
      if !pinned.Web? then Err(WebEntryOnNonWeb)
      else
        var delivery :- ResolveDelivery(pinned, Some(WebAxes(e).0), WebAxes(e).1);
        Ok(Planned(delivery, HostTriple))
  }

  /** `DeliverySet::resolve` as it runs: plan in order, refuse a repeat. */
  method Resolve(pinned: Shape, entries: seq<ShipEntry>) returns (r: Result<seq<Planned>, DeliveryError>)
    ensures entries == [] ==> r == Ok([Planned(ResolveDelivery(pinned, None, Default).value, HostTriple)])
    ensures entries != [] ==> (r.Ok? <==> Resolvable(pinned, entries))
    ensures entries != [] && r.Ok? ==> Plans(pinned, entries, r.value)
    ensures r.Ok? ==> forall i, j :: 0 <= i < j < |r.value| ==> Slug(r.value[i]) != Slug(r.value[j])
    ensures r.Err? ==> exists k :: FirstWrongEntry(pinned, entries, k, r.error)
  {
    if entries == [] {
      return Ok([Planned(ResolveDelivery(pinned, None, Default).value, HostTriple)]);
    }
    var planned: seq<Planned> := [];
    for k := 0 to |entries|
      invariant |planned| == k && forall i :: 0 <= i < k ==> ResolveOne(pinned, entries[i]) == Ok(planned[i])
      invariant forall i, j :: 0 <= i < j < k ==> planned[i] != planned[j]
    {
      ResolvesExactly(pinned, entries[k]);
      var plan := ResolveOne(pinned, entries[k]);
      forall i, j | 0 <= i < j < k ensures entries[i] != entries[j] { assert planned[i] != planned[j]; }
      forall i | 0 <= i < k ensures entries[i].Binary? || pinned.Web? { ResolvesExactly(pinned, entries[i]); }
      if plan.Err? {
        assert FirstWrongEntry(pinned, entries, k, plan.error);
        return Err(plan.error);
      }
      if plan.value in planned {
        var i :| 0 <= i < |planned| && planned[i] == plan.value;
        PlansAreDistinct(pinned, entries[i], entries[k]);
        assert FirstWrongEntry(pinned, entries, k, RepeatedEntry);
        return Err(RepeatedEntry);
      }
      planned := planned + [plan.value];
    }
    forall i, j | 0 <= i < j < |planned| ensures entries[i] != entries[j] && Slug(planned[i]) != Slug(planned[j]) {
      if Slug(planned[i]) == Slug(planned[j]) { SlugsAreDistinct(pinned, entries[i], entries[j]); }
    }
    forall i | 0 <= i < |entries| ensures entries[i].Binary? || pinned.Web? { ResolvesExactly(pinned, entries[i]); }
    return Ok(planned);
  }

  /** One plan per entry, in order. */
  ghost predicate Plans(pinned: Shape, entries: seq<ShipEntry>, planned: seq<Planned>) {
    |planned| == |entries| && forall i :: 0 <= i < |entries| ==> ResolveOne(pinned, entries[i]) == Ok(planned[i])
  }

  /** No repeat, and every web-bearing entry on a web program. */
  ghost predicate Resolvable(pinned: Shape, entries: seq<ShipEntry>) {
    && (forall i, j :: 0 <= i < j < |entries| ==> entries[i] != entries[j])
    && (pinned.Web? || forall i :: 0 <= i < |entries| ==> entries[i].Binary?)
  }

  /** Entry `k` is the first that cannot join those before it: a web entry off the web, or a repeat. */
  ghost predicate FirstWrongEntry(pinned: Shape, entries: seq<ShipEntry>, k: int, e: DeliveryError) {
    && 0 <= k < |entries| && Resolvable(pinned, entries[..k])
    && (if entries[k].Binary? || pinned.Web? then entries[k] in entries[..k] && e == RepeatedEntry
        else e == WebEntryOnNonWeb)
  }

  /** One entry resolves exactly when it is a binary or the program is a web one. */
  lemma {:induction false} ResolvesExactly(pinned: Shape, e: ShipEntry)
    ensures ResolveOne(pinned, e).Ok? <==> e.Binary? || pinned.Web?
  {
  }

  /** Different entries plan different deliveries. */
  lemma {:induction false} PlansAreDistinct(pinned: Shape, e: ShipEntry, f: ShipEntry)
    requires ResolveOne(pinned, e).Ok? && ResolveOne(pinned, e) == ResolveOne(pinned, f)
    ensures e == f
  {
  }

  // ---- output directories ----

  function Dashed(s: string): string {
    if s == "" then "" else [if s[0] == ' ' then '-' else s[0]] + Dashed(s[1..])
  }

  /** The output directory of a planned delivery. */
  function Slug(p: Planned): string {
    Dashed(Display(p.delivery)) + TargetSuffix(p.target)
  }

  lemma {:induction false} DashedConcat(a: string, b: string)
    ensures Dashed(a + b) == Dashed(a) + Dashed(b)
  {
    if a == "" {
      assert a + b == b;
    } else {
      assert (a + b)[1..] == a[1..] + b;
      DashedConcat(a[1..], b);
    }
  }

  lemma {:induction false} DashedWord(w: string)
    requires ' ' !in w
    ensures Dashed(w) == w
  {
    if w != "" { DashedWord(w[1..]); }
  }

  lemma {:induction false} DashedLed(words: seq<string>)
    requires forall i :: 0 <= i < |words| ==> ' ' !in words[i]
    ensures Dashed(Led(" ", words)) == Led("-", words)
  {
    if words != [] {
      DashedLed(words[1..]);
      DashedConcat(" " + words[0], Led(" ", words[1..]));
      DashedConcat(" ", words[0]);
      DashedWord(words[0]);
      assert Dashed(" ") == "-" by { assert " "[1..] == ""; }
    }
  }

  lemma {:induction false} WordsHaveNoSpace(s: Shape, h: Host)
    ensures ' ' !in ShapeWord(s) && ' ' !in "solo" && (HostWord(h).Some? ==> ' ' !in HostWord(h).value)
  {
  }

  /** The words an entry's delivery adds to the shape word. */
  function EntryWords(e: ShipEntry): seq<string> {
    match e
    case Binary(_) => []
    case ShipDesktop => ["desktop"]
    case ShipSolo => ["solo"]
    case ShipSoloDesktop => ["solo", "desktop"]
    case ShipSoloIos => ["solo", "ios"]
    case ShipSoloAndroid => ["solo", "android"]
  }

  function TargetSuffix(t: BinaryTarget): string {
    match t
    case HostTriple => ""
    case StaticMusl => "-static"
    case Cross(triple) => "-" + TripleText(triple)
  }

  /** What follows the shape word in the directory of an entry's delivery. */
  function Suffix(e: ShipEntry): string {
    Led("-", EntryWords(e)) + TargetSuffix(if e.Binary? then e.target else HostTriple)
  }

  lemma {:induction false} PlansItsWords(pinned: Shape, e: ShipEntry)
    requires ResolveOne(pinned, e).Ok?
    ensures var p := ResolveOne(pinned, e).value;
      && p.delivery.shape == pinned && DeliveryWords(p.delivery) == EntryWords(e)
      && p.target == (if e.Binary? then e.target else HostTriple)
  {
  }

  lemma {:induction false} DashedDisplay(d: Delivery)
    ensures Dashed(Display(d)) == ShapeWord(d.shape) + Led("-", DeliveryWords(d))
  {
    WordsHaveNoSpace(d.shape, d.host);
    DashedConcat(ShapeWord(d.shape), Led(" ", DeliveryWords(d)));
    DashedWord(ShapeWord(d.shape));
    DashedLed(DeliveryWords(d));
  }

  lemma {:induction false} SlugIsShapeAndSuffix(pinned: Shape, e: ShipEntry)
    requires ResolveOne(pinned, e).Ok?
    ensures Slug(ResolveOne(pinned, e).value) == ShapeWord(pinned) + Suffix(e)
  {
    PlansItsWords(pinned, e);
    SlugOf(ResolveOne(pinned, e).value, EntryWords(e));
  }

  lemma {:induction false} SlugOf(p: Planned, words: seq<string>)
    requires DeliveryWords(p.delivery) == words
    ensures Slug(p) == ShapeWord(p.delivery.shape) + (Led("-", words) + TargetSuffix(p.target))
  {
    DashedDisplay(p.delivery);
    Reassociate(ShapeWord(p.delivery.shape), Led("-", words), TargetSuffix(p.target));
  }

  lemma {:induction false} Reassociate(a: string, b: string, c: string)
    ensures a + b + c == a + (b + c)
  {
  }

  lemma {:induction false} LedLength(words: seq<string>)
    ensures |words| == 0 ==> |Led("-", words)| == 0
    ensures |words| == 1 ==> Led("-", words) == "-" + words[0]
    ensures |words| == 2 ==> Led("-", words) == "-" + words[0] + "-" + words[1]
  {
    if |words| == 2 {
      LedLength(words[1..]);
      assert words[1..][0] == words[1];
      assert "-" + words[0] + ("-" + words[1]) == "-" + words[0] + "-" + words[1];
    }
  }

  lemma {:induction false} SuffixInjective(e: ShipEntry, f: ShipEntry)
    requires Suffix(e) == Suffix(f)
    ensures e == f
  {
    SuffixFacts(e);
    SuffixFacts(f);
  }

  /** Length, and for the two longest the seventh character, tell the suffixes apart. */
  lemma {:induction false} SuffixFacts(e: ShipEntry)
    ensures |Suffix(e)| == match e
      case Binary(HostTriple) => 0
      case Binary(StaticMusl) => 7
      case Binary(Cross(X8664LinuxMusl)) => 26
      case Binary(Cross(Aarch64LinuxMusl)) => 27
      case ShipDesktop => 8
      case ShipSolo => 5
      case ShipSoloDesktop => 13
      case ShipSoloIos => 9
      case ShipSoloAndroid => 13
    ensures e.ShipSoloDesktop? ==> Suffix(e)[6] == 'd'
    ensures e.ShipSoloAndroid? ==> Suffix(e)[6] == 'a'
  {
    LedLength(EntryWords(e));
  }

  /** Different entries of one program are written to different directories. */
  lemma {:induction false} SlugsAreDistinct(pinned: Shape, e: ShipEntry, f: ShipEntry)
    requires ResolveOne(pinned, e).Ok? && ResolveOne(pinned, f).Ok?
    requires Slug(ResolveOne(pinned, e).value) == Slug(ResolveOne(pinned, f).value)
    ensures e == f
  {
    SlugIsShapeAndSuffix(pinned, e);
    SlugIsShapeAndSuffix(pinned, f);
    var word := ShapeWord(pinned);
    assert Suffix(e) == (word + Suffix(e))[|word|..] == (word + Suffix(f))[|word|..] == Suffix(f);
    SuffixInjective(e, f);
  }

  // ---- the release loop ----

  datatype Released<A> = Released(delivery: Delivery, artifact: A)
  datatype Failed<R> = Failed(delivery: Delivery, error: R)
  datatype Outcome<A, R> = AllReleased(built: seq<Released<A>>)
                         | Incomplete(built: seq<Released<A>>, failed: seq<Failed<R>>)

  /** A member of the set, and what the packager answers for it. */
  datatype Attempt<A, R> = Attempt(planned: Planned, packaged: Result<A, R>)

  /** What is built once the first `n` members were attempted. */
  function BuiltOf<A, R>(attempts: seq<Attempt<A, R>>, n: nat): seq<Released<A>>
    requires n <= |attempts|
  {
    if n == 0 then []
    else
      var a := attempts[n - 1];
      if a.packaged.Err? then BuiltOf(attempts, n - 1)
      else BuiltOf(attempts, n - 1) + [Released(a.planned.delivery, a.packaged.value)]
  }

  /** What failed among the first `n` members. */
  function FailedOf<A, R>(attempts: seq<Attempt<A, R>>, n: nat): seq<Failed<R>>
    requires n <= |attempts|
  {
    if n == 0 then []
    else
      var a := attempts[n - 1];
      if a.packaged.Ok? then FailedOf(attempts, n - 1)
      else FailedOf(attempts, n - 1) + [Failed(a.planned.delivery, a.packaged.error)]
  }

  /** A packager: what it answers for a member, and the state it is left in. */
  type Packager<!S, !A, !R> = (S, Planned) -> (S, Result<A, R>)

  /** Every member attempted in order, the packager keeping its state from one to the next. */
  function Attempts<S, A, R>(packager: Packager<S, A, R>, s: S, planned: seq<Planned>): (r: seq<Attempt<A, R>>)
    ensures |r| == |planned| && forall i :: 0 <= i < |r| ==> r[i].planned == planned[i]
  {
    if planned == [] then []
    else
      var (s', answer) := packager(s, planned[0]);
      [Attempt(planned[0], answer)] + Attempts(packager, s', planned[1..])
  }

  /** The packager's state once every member was attempted. */
  function StateAfter<S, A, R>(packager: Packager<S, A, R>, s: S, planned: seq<Planned>): S {
    if planned == [] then s else StateAfter(packager, packager(s, planned[0]).0, planned[1..])
  }

  /** Attempt `i` is the packager's answer for member `i`, in the state its predecessors left. */
  lemma {:induction false} AttemptIs<S, A, R>(packager: Packager<S, A, R>, s: S, planned: seq<Planned>, i: nat)
    requires i < |planned|
    ensures Attempts(packager, s, planned)[i] ==
      Attempt(planned[i], packager(StateAfter(packager, s, planned[..i]), planned[i]).1)
  {
    if i > 0 {
      AttemptIs(packager, packager(s, planned[0]).0, planned[1..], i - 1);
      assert planned[1..][..i - 1] == planned[..i][1..];
    }
  }

  /** `release_each`: whatever the packager answers, it is called once for each member, in order. */
  method ReleaseEach<S, A, R>(packager: Packager<S, A, R>, s: S, planned: seq<Planned>)
      returns (outcome: Outcome<A, R>, after: S)
    ensures after == StateAfter(packager, s, planned)
    ensures var attempts := Attempts(packager, s, planned);
      outcome == (if FailedOf(attempts, |attempts|) == [] then AllReleased(BuiltOf(attempts, |attempts|))
                  else Incomplete(BuiltOf(attempts, |attempts|), FailedOf(attempts, |attempts|)))
  {
    var built: seq<Released<A>>, failed: seq<Failed<R>> := [], [];
    ghost var attempts := Attempts(packager, s, planned);
    after := s;
    assert planned[0..] == planned && attempts[0..] == attempts;
    for k := 0 to |planned|
      invariant StateAfter(packager, after, planned[k..]) == StateAfter(packager, s, planned)
      invariant Attempts(packager, after, planned[k..]) == attempts[k..]
      invariant built == BuiltOf(attempts, k) && failed == FailedOf(attempts, k)
    {
      assert planned[k..][1..] == planned[k + 1..] && attempts[k..][1..] == attempts[k + 1..];
      assert attempts[k] == attempts[k..][0];
      var (after', answer) := packager(after, planned[k]);
      after := after';
      match answer {
        case Ok(artifact) => built := built + [Released(planned[k].delivery, artifact)];
        case Err(error) => failed := failed + [Failed(planned[k].delivery, error)];
      }
    }
    outcome := if failed == [] then AllReleased(built) else Incomplete(built, failed);
  }

  /** The two lists share the attempts out between them, each in order and with the answer it was given. */
  ghost predicate Interleaves<A, R>(attempts: seq<Attempt<A, R>>, built: seq<Released<A>>, failed: seq<Failed<R>>) {
    if attempts == [] then built == [] && failed == []
    else
      var a, rest := attempts[|attempts| - 1], attempts[..|attempts| - 1];
      || (built != []
          && a.packaged == Ok(built[|built| - 1].artifact) && a.planned.delivery == built[|built| - 1].delivery
          && Interleaves(rest, built[..|built| - 1], failed))
      || (failed != []
          && a.packaged == Err(failed[|failed| - 1].error) && a.planned.delivery == failed[|failed| - 1].delivery
          && Interleaves(rest, built, failed[..|failed| - 1]))
  }

  lemma {:induction false} RecordsOfPrefix<A, R>(attempts: seq<Attempt<A, R>>, m: nat, n: nat)
    requires n <= m <= |attempts|
    ensures BuiltOf(attempts[..m], n) == BuiltOf(attempts, n) && FailedOf(attempts[..m], n) == FailedOf(attempts, n)
  {
    if n > 0 {
      RecordsOfPrefix(attempts, m, n - 1);
    }
  }

  /** What is built and what failed partition the set in order, and no other two lists do. */
  lemma {:induction false} PartitionInOrder<A, R>(
      attempts: seq<Attempt<A, R>>, built: seq<Released<A>>, failed: seq<Failed<R>>)
    ensures Interleaves(attempts, built, failed) <==>
      built == BuiltOf(attempts, |attempts|) && failed == FailedOf(attempts, |attempts|)
    decreases |attempts|
  {
    if attempts != [] {
      var n := |attempts| - 1;
      RecordsOfPrefix(attempts, n, n);
      if attempts[n].packaged.Ok? && built != [] {
        PartitionInOrder(attempts[..n], built[..|built| - 1], failed);
        assert built == built[..|built| - 1] + [built[|built| - 1]];
      }
      if attempts[n].packaged.Err? && failed != [] {
        PartitionInOrder(attempts[..n], built, failed[..|failed| - 1]);
        assert failed == failed[..|failed| - 1] + [failed[|failed| - 1]];
      }
    }
  }

  /** A member's own answer is recorded, at the place its predecessors' answers leave for it. */
  lemma {:induction false} EachIsRecorded<A, R>(attempts: seq<Attempt<A, R>>, i: nat, n: nat)
    requires i < n <= |attempts|
    ensures var delivery := attempts[i].planned.delivery;
      match attempts[i].packaged
      case Ok(artifact) => BuiltOf(attempts, i) + [Released(delivery, artifact)] <= BuiltOf(attempts, n)
      case Err(error) => FailedOf(attempts, i) + [Failed(delivery, error)] <= FailedOf(attempts, n)
  {
    if n > i + 1 {
      EachIsRecorded(attempts, i, n - 1);
    }
  }

  /** Everything is released only when every member was packaged. */
  lemma {:induction false} NoFailureMeansAllPackaged<A, R>(attempts: seq<Attempt<A, R>>, n: nat)
    requires n <= |attempts|
    ensures FailedOf(attempts, n) == [] <==> forall i :: 0 <= i < n ==> attempts[i].packaged.Ok?
  {
    if n > 0 {
      NoFailureMeansAllPackaged(attempts, n - 1);
      assert attempts[n - 1].packaged.Err? ==> FailedOf(attempts, n) != [];
    }
  }
}
