/** Character classes and searches shared by the text scanners. */
module Text {
  import opened Prelude

  /** The Unicode classes the scanners consult, whose tables are the standard library's. */
  datatype CharClass = CharClass(alphanumeric: char -> bool, whitespace: char -> bool)

  predicate IsAsciiDigit(c: char) { '0' <= c <= '9' }

  predicate IsAsciiAlphanumeric(c: char) {
    IsAsciiDigit(c) || 'a' <= c <= 'z' || 'A' <= c <= 'Z'
  }

  /** What those tables say of ASCII, and that the two classes are disjoint. */
  ghost predicate Lawful(cc: CharClass) {
    && (forall c :: c < 128 as char ==> (cc.alphanumeric(c) <==> IsAsciiAlphanumeric(c)))
    && (forall c :: '!' <= c <= '~' ==> !cc.whitespace(c))
    && (forall c :: c in {' ', '\t', '\n', '\r'} ==> cc.whitespace(c))
    && (forall c :: cc.whitespace(c) ==> !cc.alphanumeric(c))
  }

  predicate StartsWith(s: string, prefix: string) {
    prefix <= s
  }

  predicate EndsWith(s: string, suffix: string) {
    |suffix| <= |s| && s[|s| - |suffix|..] == suffix
  }

  function TrimStart(s: string, drop: char -> bool): string {
    if s == "" || !drop(s[0]) then s else TrimStart(s[1..], drop)
  }

  function TrimEnd(s: string, drop: char -> bool): string {
    if s == "" || !drop(s[|s| - 1]) then s else TrimEnd(s[..|s| - 1], drop)
  }

  /** Trimming the front drops the longest run of dropped characters. */
  lemma {:induction false} TrimStartExactly(s: string, drop: char -> bool) returns (lead: string)
    ensures s == lead + TrimStart(s, drop) && forall i :: 0 <= i < |lead| ==> drop(lead[i])
    ensures TrimStart(s, drop) != "" ==> !drop(TrimStart(s, drop)[0])
  {
    if s == "" || !drop(s[0]) {
      lead := "";
    } else {
      var rest := TrimStartExactly(s[1..], drop);
      lead := [s[0]] + rest;
    }
  }

  /** Trimming the end drops the longest run of dropped characters. */
  lemma {:induction false} TrimEndExactly(s: string, drop: char -> bool) returns (trail: string)
    ensures s == TrimEnd(s, drop) + trail && forall i :: 0 <= i < |trail| ==> drop(trail[i])
    ensures TrimEnd(s, drop) != "" ==> !drop(TrimEnd(s, drop)[|TrimEnd(s, drop)| - 1])
  {
    if s == "" || !drop(s[|s| - 1]) {
      trail := "";
    } else {
      var rest := TrimEndExactly(s[..|s| - 1], drop);
      trail := rest + [s[|s| - 1]];
    }
  }

  /** The first index `needle` occurs at. */
  function Find(s: string, needle: string): (r: Option<nat>)
    ensures r.Some? ==> r.value + |needle| <= |s|
  {
    if needle <= s then Some(0)
    else if s == "" then None
    else match Find(s[1..], needle) case None => None case Some(k) => Some(k + 1)
  }

  /** The needle occurs where it is found. */
  lemma {:induction false} FindOccurs(s: string, needle: string)
    requires Find(s, needle).Some?
    ensures needle <= s[Find(s, needle).value..]
  {
    if needle <= s {
      assert s[0..] == s;
    } else {
      FindOccurs(s[1..], needle);
      assert s[1..][Find(s[1..], needle).value..] == s[Find(s, needle).value..];
    }
  }

  lemma {:induction false} FindFirst(s: string, needle: string, k: nat)
    requires k <= |s| && needle <= s[k..]
    requires forall i :: 0 <= i < k ==> !(needle <= s[i..])
    ensures Find(s, needle) == Some(k)
  {
    if k > 0 {
      assert s[0..] == s;
      assert s[1..][k - 1..] == s[k..];
      forall i | 0 <= i < k - 1 ensures !(needle <= s[1..][i..]) {
        assert s[1..][i..] == s[i + 1..];
      }
      FindFirst(s[1..], needle, k - 1);
    }
  }

  lemma {:induction false} FindIsFirst(s: string, needle: string, i: nat)
    requires Find(s, needle).Some? && i < Find(s, needle).value
    ensures !(needle <= s[i..])
  {
    if i == 0 {
      assert s[0..] == s;
    } else {
      FindIsFirst(s[1..], needle, i - 1);
      assert s[1..][i - 1..] == s[i..];
    }
  }

  /** The needle occurs at `k` and nowhere before. */
  predicate FirstAt(s: string, needle: string, k: nat) {
    && k + |needle| <= |s| && needle <= s[k..]
    && forall i :: 0 <= i < k ==> !(needle <= s[i..])
  }

  lemma {:induction false} FindsFirst(s: string, needle: string)
    requires Find(s, needle).Some?
    ensures FirstAt(s, needle, Find(s, needle).value)
  {
    var k := Find(s, needle).value;
    FindOccurs(s, needle);
    forall i | 0 <= i < k ensures !(needle <= s[i..]) { FindIsFirst(s, needle, i); }
  }

  /** The search answers the first occurrence, and nothing exactly where there is none. */
  lemma {:induction false} FindExactly(s: string, needle: string, k: nat)
    ensures Find(s, needle) == Some(k) <==> FirstAt(s, needle, k)
  {
    if Find(s, needle).Some? { FindsFirst(s, needle); }
    if FirstAt(s, needle, k) { FindFirst(s, needle, k); }
  }

  lemma {:induction false} TrimStartDrops(a: string, s: string, drop: char -> bool)
    requires (forall i :: 0 <= i < |a| ==> drop(a[i])) && s != "" && !drop(s[0])
    ensures TrimStart(a + s, drop) == s
  {
    if a == "" {
      assert a + s == s;
    } else {
      assert (a + s)[1..] == a[1..] + s;
      TrimStartDrops(a[1..], s, drop);
    }
  }

  lemma {:induction false} TrimEndDrops(s: string, b: string, drop: char -> bool)
    requires (forall i :: 0 <= i < |b| ==> drop(b[i])) && s != "" && !drop(s[|s| - 1])
    ensures TrimEnd(s + b, drop) == s
  {
    if b == "" {
      assert s + b == s;
    } else {
      assert (s + b)[..|s + b| - 1] == s + b[..|b| - 1];
      TrimEndDrops(s, b[..|b| - 1], drop);
    }
  }
}
