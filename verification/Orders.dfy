/** Total orders, the library sort, and why a sorted listing is unique. */
module Orders {

  ghost predicate TotalOrder<T(!new)>(le: (T, T) -> bool) {
    && (forall a :: le(a, a))
    && (forall a, b :: le(a, b) || le(b, a))
    && (forall a, b :: le(a, b) && le(b, a) ==> a == b)
    && (forall a, b, c :: le(a, b) && le(b, c) ==> le(a, c))
  }

  /** What sorting needs: any two are comparable, and comparison chains. */
  ghost predicate TotalPreorder<T(!new)>(le: (T, T) -> bool) {
    && (forall a, b :: le(a, b) || le(b, a))
    && (forall a, b, c :: le(a, b) && le(b, c) ==> le(a, c))
  }

  ghost predicate Sorted<T>(le: (T, T) -> bool, s: seq<T>) {
    forall i, j :: 0 <= i < j < |s| ==> le(s[i], s[j])
  }

  ghost predicate Distinct<T>(s: seq<T>) {
    forall i, j :: 0 <= i < j < |s| ==> s[i] != s[j]
  }

  function Insert<T>(le: (T, T) -> bool, x: T, s: seq<T>): (r: seq<T>)
    ensures multiset(r) == multiset(s) + multiset{x}
  {
    if s == [] then [x]
    else if le(x, s[0]) then [x] + s
    else
      assert s == [s[0]] + s[1..];
      [s[0]] + Insert(le, x, s[1..])
  }

  /** The library's stable sort, as a function of the listing it is given. */
  function Sort<T>(le: (T, T) -> bool, s: seq<T>): (r: seq<T>)
    ensures multiset(r) == multiset(s)
  {
    if s == [] then []
    else
      assert s == [s[0]] + s[1..];
      Insert(le, s[0], Sort(le, s[1..]))
  }

  lemma {:induction false} SameMembers<T>(a: seq<T>, b: seq<T>, x: T)
    requires multiset(a) == multiset(b)
    ensures x in a <==> x in b
  {
    assert x in multiset(a) <==> x in multiset(b);
  }

  lemma {:induction false} InsertSorted<T(!new)>(le: (T, T) -> bool, x: T, s: seq<T>)
    requires TotalPreorder(le) && Sorted(le, s)
    ensures Sorted(le, Insert(le, x, s))
  {
    if s != [] && !le(x, s[0]) {
      InsertSorted(le, x, s[1..]);
      var t := Insert(le, x, s[1..]);
      forall i | 0 <= i < |t| ensures le(s[0], t[i]) {
        assert t[i] in multiset(t);
        assert t[i] in s[1..] || t[i] == x;
      }
    }
  }

  lemma {:induction false} SortSorted<T(!new)>(le: (T, T) -> bool, s: seq<T>)
    requires TotalPreorder(le)
    ensures Sorted(le, Sort(le, s))
  {
    if s != [] {
      SortSorted(le, s[1..]);
      InsertSorted(le, s[0], Sort(le, s[1..]));
    }
  }

  lemma {:induction false} SameHead<T(!new)>(le: (T, T) -> bool, a: seq<T>, b: seq<T>)
    requires TotalOrder(le) && Sorted(le, a) && Sorted(le, b) && a != []
    requires multiset(a) == multiset(b)
    ensures |b| == |a| && a[0] == b[0]
  {
    assert |multiset(b)| == |multiset(a)|;
    SameMembers(a, b, a[0]);
    SameMembers(a, b, b[0]);
    assert le(a[0], b[0]) && le(b[0], a[0]);
  }

  lemma {:induction false} SameTail<T>(a: seq<T>, b: seq<T>)
    requires multiset(a) == multiset(b) && a != [] && b != [] && a[0] == b[0]
    ensures multiset(a[1..]) == multiset(b[1..])
  {
    assert a == [a[0]] + a[1..] && b == [b[0]] + b[1..];
    assert multiset(a[1..]) == multiset(a) - multiset{a[0]};
    assert multiset(b[1..]) == multiset(b) - multiset{b[0]};
  }

  /** Two sorted listings of one multiset are the same listing. */
  lemma {:induction false} SortedUnique<T(!new)>(le: (T, T) -> bool, a: seq<T>, b: seq<T>)
    requires TotalOrder(le) && Sorted(le, a) && Sorted(le, b)
    requires multiset(a) == multiset(b)
    ensures a == b
    decreases a
  {
    if a == [] {
      assert |multiset(b)| == 0;
    } else {
      SameHead(le, a, b);
      SameTail(a, b);
      SortedUnique(le, a[1..], b[1..]);
      assert a == [a[0]] + a[1..] && b == [b[0]] + b[1..];
    }
  }

  /** Sorting forgets the order of the listing it was given. */
  lemma {:induction false} SortForgetsOrder<T(!new)>(le: (T, T) -> bool, a: seq<T>, b: seq<T>)
    requires TotalOrder(le) && multiset(a) == multiset(b)
    ensures Sort(le, a) == Sort(le, b)
  {
    SortSorted(le, a);
    SortSorted(le, b);
    SortedUnique(le, Sort(le, a), Sort(le, b));
  }

  lemma {:induction false} DistinctCount<T>(a: seq<T>, x: T)
    requires Distinct(a)
    ensures multiset(a)[x] == if x in a then 1 else 0
  {
    if a != [] {
      assert a == [a[0]] + a[1..];
      DistinctCount(a[1..], x);
    }
  }

  /** Two duplicate-free listings of one set have one multiset. */
  lemma {:induction false} DistinctSameMultiset<T(!new)>(a: seq<T>, b: seq<T>)
    requires Distinct(a) && Distinct(b)
    requires forall x :: x in a <==> x in b
    ensures multiset(a) == multiset(b)
  {
    forall x ensures multiset(a)[x] == multiset(b)[x] {
      DistinctCount(a, x);
      DistinctCount(b, x);
    }
  }

  /** The listing without one member. */
  function Without<T>(s: seq<T>, j: nat): seq<T>
    requires j < |s|
  {
    s[..j] + s[j + 1..]
  }

  lemma {:induction false} PutBack<T>(b: seq<T>, j: nat)
    requires j < |b|
    ensures multiset(b) == multiset{b[j]} + multiset(Without(b, j))
  {
    assert b == b[..j] + [b[j]] + b[j + 1..];
  }

  lemma {:induction false} MatchedOff<T>(a: seq<T>, b: seq<T>, j: nat)
    requires multiset(a) == multiset(b) && a != [] && j < |b| && b[j] == a[0]
    ensures multiset(a[1..]) == multiset(Without(b, j))
  {
    assert a == [a[0]] + a[1..] && b == b[..j] + [b[j]] + b[j + 1..];
    assert multiset(a) == multiset{a[0]} + multiset(a[1..]);
    assert multiset(b) == multiset(b[..j]) + multiset{b[j]} + multiset(b[j + 1..]);
    assert multiset(Without(b, j)) == multiset(b[..j]) + multiset(b[j + 1..]);
    assert multiset(a[1..]) == multiset(a) - multiset{a[0]};
    assert multiset(Without(b, j)) == multiset(b) - multiset{b[j]};
  }

  /** Lexicographic order on sequences, given the element order. */
  predicate LexLe<T(==)>(le: (T, T) -> bool, a: seq<T>, b: seq<T>) {
    if a == [] then true
    else if b == [] then false
    else if a[0] == b[0] then LexLe(le, a[1..], b[1..])
    else le(a[0], b[0])
  }

  lemma {:induction false} LexLeReflexive<T>(le: (T, T) -> bool, a: seq<T>)
    ensures LexLe(le, a, a)
  {
    if a != [] { LexLeReflexive(le, a[1..]); }
  }

  lemma {:induction false} LexLeTotal<T(!new)>(le: (T, T) -> bool, a: seq<T>, b: seq<T>)
    requires TotalOrder(le)
    ensures LexLe(le, a, b) || LexLe(le, b, a)
    ensures LexLe(le, a, b) && LexLe(le, b, a) ==> a == b
  {
    if a != [] && b != [] && a[0] == b[0] {
      LexLeTotal(le, a[1..], b[1..]);
      assert a == [a[0]] + a[1..] && b == [b[0]] + b[1..];
    }
  }

  lemma {:induction false} LexLeTransitive<T(!new)>(le: (T, T) -> bool, a: seq<T>, b: seq<T>, c: seq<T>)
    requires TotalOrder(le) && LexLe(le, a, b) && LexLe(le, b, c)
    ensures LexLe(le, a, c)
  {
    if a != [] && a[0] == b[0] == c[0] {
      LexLeTransitive(le, a[1..], b[1..], c[1..]);
    }
  }

  predicate CharLe(a: char, b: char) { a <= b }

  /** Strings in code-point order. */
  predicate TextLe(a: string, b: string) { LexLe(CharLe, a, b) }

  lemma {:induction false} CharLeTotal()
    ensures TotalOrder(CharLe)
  {
  }

  lemma {:induction false} TextLeTotal()
    ensures TotalOrder(TextLe)
  {
    CharLeTotal();
    forall a, b ensures TextLe(a, a) && (TextLe(a, b) || TextLe(b, a)) && (TextLe(a, b) && TextLe(b, a) ==> a == b) {
      LexLeReflexive(CharLe, a);
      LexLeTotal(CharLe, a, b);
    }
    forall a, b, c | TextLe(a, b) && TextLe(b, c) ensures TextLe(a, c) {
      LexLeTransitive(CharLe, a, b, c);
    }
  }
}
