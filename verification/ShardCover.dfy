/** The end-to-end shard plan: its key check, and the proof that the shards partition the archive. */
module ShardCover {
  import opened Prelude
  import opened Orders
  import opened Decimal

  // ---- the order of the plan's keys ----

  /** The plan's sort key: length, then text. */
  predicate KeyLe(a: string, b: string) {
    |a| < |b| || (|a| == |b| && TextLe(a, b))
  }

  lemma {:induction false} KeyLeTotal()
    ensures TotalOrder(KeyLe)
  {
    TextLeTotal();
  }

  lemma {:induction false} NumeralLength(m: nat, n: nat)
    requires m <= n
    ensures |Numeral(m)| <= |Numeral(n)|
    decreases n
  {
    if m >= 10 {
      NumeralLength(m / 10, n / 10);
    }
  }

  lemma {:induction false} LexLeSnoc(a: string, b: string, x: char, y: char)
    requires |a| == |b|
    ensures TextLe(a + [x], b + [y]) <==> if a == b then x <= y else TextLe(a, b)
  {
    if a == "" {
      assert a + [x] == [x] && b + [y] == [y] && [x][1..] == "" == [y][1..];
      assert x == y ==> TextLe([x], [y]);
    } else {
      assert (a + [x])[1..] == a[1..] + [x] && (b + [y])[1..] == b[1..] + [y];
      assert a == [a[0]] + a[1..] && b == [b[0]] + b[1..];
      LexLeSnoc(a[1..], b[1..], x, y);
    }
  }

  lemma {:induction false} SameLengthOrder(m: nat, n: nat)
    requires |Numeral(m)| == |Numeral(n)|
    ensures TextLe(Numeral(m), Numeral(n)) <==> m <= n
  {
    if m < 10 {
      assert n < 10;
      LexLeSnoc("", "", Digit(m), Digit(n));
      assert "" + [Digit(m)] == [Digit(m)] && "" + [Digit(n)] == [Digit(n)];
    } else {
      assert n >= 10;
      SameLengthOrder(m / 10, n / 10);
      LexLeSnoc(Numeral(m / 10), Numeral(n / 10), Digit(m % 10), Digit(n % 10));
      if Numeral(m / 10) == Numeral(n / 10) {
        NumeralInjective(m / 10, n / 10);
      }
    }
  }

  /** Length then text is numeric order on canonical decimal numerals. */
  lemma {:induction false} NumeralOrder(m: nat, n: nat)
    ensures KeyLe(Numeral(m), Numeral(n)) <==> m <= n
  {
    if m <= n { NumeralLength(m, n); } else { NumeralLength(n, m); }
    if |Numeral(m)| == |Numeral(n)| {
      SameLengthOrder(m, n);
    }
  }

  // ---- the key check ----

  /** `"1"` to `"n"`, in numeric order. */
  function Expected(n: nat): (keys: seq<string>)
    ensures |keys| == n && forall i :: 0 <= i < n ==> keys[i] == Numeral(i + 1)
  {
    if n == 0 then [] else Expected(n - 1) + [Numeral(n)]
  }

  lemma {:induction false} ExpectedFacts(n: nat)
    ensures Sorted(KeyLe, Expected(n)) && Distinct(Expected(n))
  {
    forall i, j | 0 <= i < j < n ensures KeyLe(Expected(n)[i], Expected(n)[j]) && Expected(n)[i] != Expected(n)[j] {
      NumeralOrder(i + 1, j + 1);
      if Numeral(i + 1) == Numeral(j + 1) { NumeralInjective(i + 1, j + 1); }
    }
  }

  /** The canonical numerals of 1 to `n`. */
  ghost function NumeralsTo(n: nat): set<string> {
    set k: nat | 1 <= k <= n :: Numeral(k)
  }

  /** The keys are the canonical numerals of 1 to their number, in some order. */
  ghost predicate CanonicalKeys(keys: seq<string>) {
    forall key :: key in keys <==> key in NumeralsTo(|keys|)
  }

  lemma {:induction false} ExpectedMembers(n: nat, key: string)
    ensures key in Expected(n) <==> key in NumeralsTo(n)
  {
    if key in NumeralsTo(n) {
      var k: nat :| 1 <= k <= n && key == Numeral(k);
      assert Expected(n)[k - 1] == key;
    }
    if key in Expected(n) {
      var i :| 0 <= i < n && Expected(n)[i] == key;
      assert Numeral(i + 1) in NumeralsTo(n);
    }
  }

  /** The sorted keys are the expected listing exactly when the key set is canonical. */
  lemma {:induction false} KeyCheckExactly(keys: seq<string>)
    requires Distinct(keys)
    ensures Sort(KeyLe, keys) == Expected(|keys|) <==> CanonicalKeys(keys)
  {
    forall key ensures key in Expected(|keys|) <==> key in NumeralsTo(|keys|) { ExpectedMembers(|keys|, key); }
    if Sort(KeyLe, keys) == Expected(|keys|) {
      forall key ensures key in keys <==> key in Expected(|keys|) { SameMembers(Sort(KeyLe, keys), keys, key); }
    }
    if CanonicalKeys(keys) {
      SortsToExpected(keys);
    }
  }

  lemma {:induction false} SortsToExpected(keys: seq<string>)
    requires Distinct(keys) && forall key :: key in keys <==> key in Expected(|keys|)
    ensures Sort(KeyLe, keys) == Expected(|keys|)
  {
    KeyLeTotal();
    ExpectedFacts(|keys|);
    DistinctSameMultiset(keys, Expected(|keys|));
    SortSorted(KeyLe, keys);
    SortedUnique(KeyLe, Sort(KeyLe, keys), Expected(|keys|));
  }

  // ---- the plan ----

  const MAX_SHARDS: nat := 256

  datatype PlanError = EmptyPlan | TooManyShards | WrongKeys | BadSelection

  /** A shard's filter and partition. */
  datatype Selection = Selection(filter: string, partition: string)

  /**
   * `parse_plan` from the decoded document on: `keys` is its keys in document order, and an entry
   * that is not exactly a non-blank filter and partition decodes to None.
   */
  method ParsePlan(
      keys: seq<string>, entries: map<string, Option<Selection>>) returns (r: Result<map<nat, Selection>, PlanError>)
    requires Distinct(keys) && forall key :: key in keys <==> key in entries
    ensures r.Ok? <==>
      1 <= |keys| <= MAX_SHARDS && CanonicalKeys(keys) && forall key :: key in keys ==> entries[key].Some?
    ensures r.Ok? ==> forall k :: k in r.value <==> 1 <= k <= |keys|
    ensures r.Ok? ==> forall k :: k in r.value ==> Selects(entries, k, r.value[k])
    ensures r == Err(EmptyPlan) <==> keys == []
    ensures r == Err(TooManyShards) <==> |keys| > MAX_SHARDS
    ensures r == Err(WrongKeys) <==> 1 <= |keys| <= MAX_SHARDS && !CanonicalKeys(keys)
  {
    if |keys| == 0 {
      return Err(EmptyPlan);
    }
    if |keys| > MAX_SHARDS {
      return Err(TooManyShards);
    }
    KeyCheckExactly(keys);
    if Sort(KeyLe, keys) != Expected(|keys|) {
      return Err(WrongKeys);
    }
    r := FillPlan(keys, entries);
  }

  /** The loop that converts each key and keeps its selection. */
  method FillPlan(
      keys: seq<string>, entries: map<string, Option<Selection>>) returns (r: Result<map<nat, Selection>, PlanError>)
    requires CanonicalKeys(keys) && forall key :: key in keys ==> key in entries
    ensures r.Ok? <==> forall key :: key in keys ==> entries[key].Some?
    ensures r.Ok? ==> forall k :: k in r.value <==> 1 <= k <= |keys|
    ensures r.Ok? ==> forall k :: k in r.value ==> Selects(entries, k, r.value[k])
    ensures r.Err? ==> r.error == BadSelection
  {
    var plan: map<nat, Selection> := map[];
    for i := 0 to |keys|
      invariant forall key :: key in keys[..i] ==> entries[key].Some?
      invariant forall k :: k in plan ==> 1 <= k <= |keys| && Selects(entries, k, plan[k])
      invariant forall key :: key in keys[..i] ==> ValueOfKey(key) in plan
    {
      assert keys[..i + 1] == keys[..i] + [keys[i]];
      assert keys[i] in keys;
      if entries[keys[i]].None? {
        return Err(BadSelection);
      }
      ghost var k := KeyIsNumeral(keys, keys[i]);
      plan := plan[ValueOfKey(keys[i]) := entries[keys[i]].value];
    }
    assert keys[..|keys|] == keys;
    forall k: nat | 1 <= k <= |keys| ensures k in plan {
      assert Numeral(k) in NumeralsTo(|keys|);
      ValueOfNumeral(k);
    }
    return Ok(plan);
  }

  /** The plan's shard `k` is the document's entry under the numeral of `k`. */
  ghost predicate Selects(entries: map<string, Option<Selection>>, k: nat, selection: Selection) {
    Numeral(k) in entries && entries[Numeral(k)] == Some(selection)
  }

  lemma {:induction false} KeyIsNumeral(keys: seq<string>, key: string) returns (k: nat)
    requires CanonicalKeys(keys) && key in keys
    ensures 1 <= k <= |keys| && key == Numeral(k) && ValueOfKey(key) == k
  {
    k :| 1 <= k <= |keys| && key == Numeral(k);
    ValueOfNumeral(k);
  }

  /** The integer a key denotes; only digit strings are asked for one. */
  function ValueOfKey(key: string): nat {
    if forall i :: 0 <= i < |key| ==> '0' <= key[i] <= '9' then Value(key) else 0
  }

  // ---- the partition check ----

  datatype CoverError = EmptyArchive | WrongShards | RepeatedTest
                      | Stray(shard: int, test: string) | Unrun(test: string) | RunsIn(test: string, times: nat)

  /** What the listed shards select, with multiplicity. */
  ghost function Owners(shards: map<int, seq<string>>, ks: seq<int>): multiset<string>
    requires forall i :: 0 <= i < |ks| ==> ks[i] in shards
  {
    if ks == [] then multiset{} else Owners(shards, ks[..|ks| - 1]) + multiset(shards[ks[|ks| - 1]])
  }

  /** Some member of a set. */
  ghost function Pick<T>(s: set<T>): (x: T)
    requires s != {}
    ensures x in s
  {
    var x :| x in s;
    x
  }

  /** What a set of shards select together, with multiplicity. */
  ghost function Union(shards: map<int, seq<string>>, ks: set<int>): multiset<string>
    requires ks <= shards.Keys
  {
    if ks == {} then multiset{}
    else
      var k := Pick(ks);
      Union(shards, ks - {k}) + multiset(shards[k])
  }

  /** Any shard may be counted last. */
  lemma {:induction false} UnionRemove(shards: map<int, seq<string>>, ks: set<int>, k: int)
    requires k in ks && ks <= shards.Keys
    ensures Union(shards, ks) == Union(shards, ks - {k}) + multiset(shards[k])
  {
    var j := Pick(ks);
    if j != k {
      UnionRemove(shards, ks - {j}, k);
      UnionRemove(shards, ks - {k}, j);
      assert ks - {j} - {k} == ks - {k} - {j};
    }
  }

  /** Counting shard by shard counts the union, whatever the order. */
  lemma {:induction false} OwnersIsUnion(shards: map<int, seq<string>>, listing: seq<int>, ks: set<int>)
    requires ks <= shards.Keys && Distinct(listing) && forall k :: k in listing <==> k in ks
    requires forall i :: 0 <= i < |listing| ==> listing[i] in shards
    ensures Owners(shards, listing) == Union(shards, ks)
    decreases |listing|
  {
    if listing != [] {
      var last := listing[|listing| - 1];
      var rest := listing[..|listing| - 1];
      assert listing == rest + [last];
      UnionRemove(shards, ks, last);
      OwnersIsUnion(shards, rest, ks - {last});
    }
  }

  predicate IntLe(a: int, b: int) { a <= b }

  function Range(count: int): (r: seq<int>)
    ensures forall i :: 0 <= i < |r| ==> r[i] == i + 1
    ensures |r| == if count < 0 then 0 else count
  {
    if count <= 0 then [] else Range(count - 1) + [count]
  }

  /** A listing of a set, each member once. */
  method Listing<T(==)>(s: set<T>) returns (listing: seq<T>)
    ensures Distinct(listing) && forall x :: x in listing <==> x in s
  {
    listing := [];
    var rest := s;
    while rest != {}
      invariant rest <= s && Distinct(listing)
      invariant forall x :: x in listing <==> x in s && x !in rest
      decreases |rest|
    {
      var x :| x in rest;
      rest := rest - {x};
      listing := listing + [x];
    }
  }

  /** A sorted, duplicate-free listing. */
  method SortedListing<T(!new, ==)>(le: (T, T) -> bool, s: set<T>) returns (listing: seq<T>)
    requires TotalOrder(le)
    ensures Sorted(le, listing) && Distinct(listing) && forall x :: x in listing <==> x in s
  {
    var any := Listing(s);
    listing := Sort(le, any);
    SortSorted(le, any);
    forall x ensures x in listing <==> x in s { SameMembers(listing, any, x); }
    SortStaysDistinct(le, any);
  }

  lemma {:induction false} SortStaysDistinct<T(!new)>(le: (T, T) -> bool, s: seq<T>)
    requires Distinct(s)
    ensures Distinct(Sort(le, s))
  {
    var t := Sort(le, s);
    forall i, j | 0 <= i < j < |t| ensures t[i] != t[j] {
      if t[i] == t[j] {
        TwiceCounts(t, i, j);
        DistinctCount(s, t[i]);
      }
    }
  }

  lemma {:induction false} TwiceCounts<T>(s: seq<T>, i: nat, j: nat)
    requires i < j < |s| && s[i] == s[j]
    ensures multiset(s)[s[i]] >= 2
  {
    assert s == s[..j] + s[j..];
    assert s[..j][i] == s[i] && s[j..][0] == s[j];
    assert s[i] in multiset(s[..j]) && s[i] in multiset(s[j..]);
  }

  lemma {:induction false} RangeExactly(ks: seq<int>, count: int)
    requires Sorted(IntLe, ks) && Distinct(ks)
    ensures ks == Range(count) <==> forall k :: k in ks <==> 1 <= k <= count
  {
    forall k ensures k in Range(count) <==> 1 <= k <= count {
      if 1 <= k <= count { assert Range(count)[k - 1] == k; }
    }
    if forall k :: k in ks <==> 1 <= k <= count {
      DistinctSameMultiset(ks, Range(count));
      SortedUnique(IntLe, ks, Range(count));
    }
  }

  /** A listing is as long as its set of members exactly when it repeats nothing. */
  lemma {:induction false} DistinctBySize(s: seq<string>)
    ensures |set x | x in s| <= |s|
    ensures |set x | x in s| == |s| <==> Distinct(s)
  {
    if s != [] {
      var rest := s[..|s| - 1];
      var last := s[|s| - 1];
      DistinctBySize(rest);
      assert s == rest + [last];
      assert (set x | x in s) == (set x | x in rest) + {last};
      assert Distinct(s) <==> Distinct(rest) && last !in rest by {
        forall i, j | 0 <= i < j < |s| && Distinct(rest) && last !in rest ensures s[i] != s[j] {}
        if Distinct(s) {
          forall i, j | 0 <= i < j < |rest| ensures rest[i] != rest[j] { assert s[i] != s[j]; }
        }
      }
    }
  }

  /** What each error says of the archive and the shards. */
  ghost predicate Holds(e: CoverError, full: seq<string>, shards: map<int, seq<string>>, count: int) {
    match e
    case EmptyArchive => full == []
    case WrongShards => !Numbered(shards, count)
    case RepeatedTest => !Distinct(full)
    case Stray(shard, test) => shard in shards && test in shards[shard] && test !in full
    case Unrun(_) => OwnerError(e, full, Selected(shards))
    case RunsIn(_, _) => OwnerError(e, full, Selected(shards))
  }

  /** What all shards together select. */
  ghost function Selected(shards: map<int, seq<string>>): multiset<string> {
    Union(shards, shards.Keys)
  }

  /** The shard keys are exactly 1 to a positive count. */
  ghost predicate Numbered(shards: map<int, seq<string>>, count: int) {
    count >= 1 && forall k :: k in shards <==> 1 <= k <= count
  }

  /** An archived test that no shard, or more than one, selects. */
  ghost predicate OwnerError(e: CoverError, tests: seq<string>, owners: multiset<string>) {
    match e
    case Unrun(test) => test in tests && owners[test] == 0
    case RunsIn(test, times) => test in tests && owners[test] == times && times > 1
    case _ => false
  }

  /** Every archived test is selected exactly once, and nothing else is. */
  ghost predicate Partitions(full: seq<string>, shards: map<int, seq<string>>, count: int) {
    full != [] && Distinct(full) && Numbered(shards, count) && Selected(shards) == multiset(full)
  }

  lemma {:induction false} SelectedSomewhere(shards: map<int, seq<string>>, ks: set<int>, test: string) returns (k: int)
    requires ks <= shards.Keys && test in Union(shards, ks)
    ensures k in shards && test in shards[k]
  {
    var j := Pick(ks);
    if test in shards[j] {
      k := j;
    } else {
      k := SelectedSomewhere(shards, ks - {j}, test);
    }
  }

  lemma {:induction false} NoErrorsPartition(full: seq<string>, shards: map<int, seq<string>>, count: int)
    requires forall e :: !Holds(e, full, shards, count)
    ensures Partitions(full, shards, count)
  {
    assert !Holds(EmptyArchive, full, shards, count) && !Holds(WrongShards, full, shards, count);
    assert !Holds(RepeatedTest, full, shards, count);
    forall test ensures Selected(shards)[test] == multiset(full)[test] {
      DistinctCount(full, test);
      if test in full {
        assert !Holds(Unrun(test), full, shards, count);
        assert !Holds(RunsIn(test, Selected(shards)[test]), full, shards, count);
      } else if test in Selected(shards) {
        var k := SelectedSomewhere(shards, shards.Keys, test);
        assert Holds(Stray(k, test), full, shards, count);
      }
    }
  }

  lemma {:induction false} PartitionHasNoErrors(
      full: seq<string>, shards: map<int, seq<string>>, count: int, e: CoverError)
    requires Partitions(full, shards, count)
    ensures !Holds(e, full, shards, count)
  {
    if e.Unrun? || e.RunsIn? {
      DistinctCount(full, e.test);
    }
    if e.Stray? && e.shard in shards && e.test in shards[e.shard] {
      UnionRemove(shards, shards.Keys, e.shard);
      assert e.test in multiset(full);
    }
  }

  /** No error holds exactly when the shards partition the archive. */
  lemma {:induction false} PartitionExactly(full: seq<string>, shards: map<int, seq<string>>, count: int)
    ensures (forall e :: !Holds(e, full, shards, count)) <==> Partitions(full, shards, count)
  {
    if forall e :: !Holds(e, full, shards, count) {
      NoErrorsPartition(full, shards, count);
    }
    if Partitions(full, shards, count) {
      forall e ensures !Holds(e, full, shards, count) { PartitionHasNoErrors(full, shards, count, e); }
    }
  }

  /** One shard's tests are counted, and those outside the archive reported. */
  method CountShard(
      shard: int, tests: seq<string>, archive: set<string>, owners0: multiset<string>, errors0: seq<CoverError>)
    returns (owners: multiset<string>, errors: seq<CoverError>)
    ensures owners == owners0 + multiset(tests)
    ensures forall e :: e in errors <==>
      e in errors0 || (e.Stray? && e.shard == shard && e.test in tests && e.test !in archive)
  {
    owners, errors := owners0, errors0;
    for i := 0 to |tests|
      invariant owners == owners0 + multiset(tests[..i])
      invariant forall e :: e in errors <==>
        e in errors0 || (e.Stray? && e.shard == shard && e.test in tests[..i] && e.test !in archive)
    {
      assert tests[..i + 1] == tests[..i] + [tests[i]];
      owners := owners + multiset{tests[i]};
      if tests[i] !in archive {
        errors := errors + [Stray(shard, tests[i])];
      }
    }
    assert tests[..|tests|] == tests;
  }

  /** The loop over the shards in order. */
  method CountShards(shards: map<int, seq<string>>, ks: seq<int>, archive: set<string>, errors0: seq<CoverError>)
    returns (owners: multiset<string>, errors: seq<CoverError>)
    requires forall i :: 0 <= i < |ks| ==> ks[i] in shards
    ensures owners == Owners(shards, ks)
    ensures forall e :: e in errors <==>
      e in errors0 ||
      (e.Stray? && e.shard in ks && e.shard in shards && e.test in shards[e.shard] && e.test !in archive)
  {
    owners, errors := multiset{}, errors0;
    for i := 0 to |ks|
      invariant owners == Owners(shards, ks[..i])
      invariant forall e :: e in errors <==>
        e in errors0 ||
        (e.Stray? && e.shard in ks[..i] && e.shard in shards && e.test in shards[e.shard] && e.test !in archive)
    {
      assert ks[..i + 1] == ks[..i] + [ks[i]] && ks[..i + 1][..i] == ks[..i];
      owners, errors := CountShard(ks[i], shards[ks[i]], archive, owners, errors);
    }
    assert ks[..|ks|] == ks;
  }

  /** The loop over the archived tests in order. */
  method CheckOwners(
      tests: seq<string>, owners: multiset<string>, errors0: seq<CoverError>) returns (errors: seq<CoverError>)
    ensures forall e :: e in errors <==> e in errors0 || OwnerError(e, tests, owners)
  {
    errors := errors0;
    for i := 0 to |tests|
      invariant forall e :: e in errors <==> e in errors0 || OwnerError(e, tests[..i], owners)
    {
      assert tests[..i + 1] == tests[..i] + [tests[i]];
      var seen := owners[tests[i]];
      if seen == 0 {
        errors := errors + [Unrun(tests[i])];
      } else if seen > 1 {
        errors := errors + [RunsIn(tests[i], seen)];
      }
    }
    assert tests[..|tests|] == tests;
  }

  /** The checks made before any shard is read. */
  method HeadErrors(
      full: seq<string>, ks: seq<int>, archive: set<string>, ghost shards: map<int, seq<string>>, count: int)
    returns (errors: seq<CoverError>)
    requires archive == (set x | x in full)
    requires Sorted(IntLe, ks) && Distinct(ks) && forall k :: k in ks <==> k in shards
    ensures forall e :: e in errors <==>
      (e.EmptyArchive? || e.WrongShards? || e.RepeatedTest?) && Holds(e, full, shards, count)
  {
    errors := [];
    if full == [] {
      errors := errors + [EmptyArchive];
    }
    RangeExactly(ks, count);
    if count < 1 || ks != Range(count) {
      errors := errors + [WrongShards];
    }
    DistinctBySize(full);
    if |archive| != |full| {
      errors := errors + [RepeatedTest];
    }
  }

  /** `partition_errors`: every error that holds is reported, and no other. */
  method PartitionErrors(full: seq<string>, shards: map<int, seq<string>>, count: int) returns (errors: seq<CoverError>)
    ensures forall e :: e in errors <==> Holds(e, full, shards, count)
    ensures errors == [] <==> Partitions(full, shards, count)
  {
    TextLeTotal();
    var ks := SortedListing(IntLe, shards.Keys);
    var archive := set x | x in full;
    var tests := SortedListing(TextLe, archive);
    errors := HeadErrors(full, ks, archive, shards, count);
    ghost var head := errors;
    OwnersIsUnion(shards, ks, shards.Keys);
    var owners;
    owners, errors := CountShards(shards, ks, archive, errors);
    errors := CheckOwners(tests, owners, errors);
    forall e ensures e in errors <==> Holds(e, full, shards, count) {
      assert OwnerError(e, tests, owners) <==> OwnerError(e, full, owners);
    }
    PartitionExactly(full, shards, count);
    assert errors != [] ==> errors[0] in errors;
  }
}
