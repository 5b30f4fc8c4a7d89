/**
 * What an accepted path means later, once its missing tail has been created.
 * A link that dangled at the check is part of that tail.
 */
module LaterPaths {
  import opened Prelude
  import opened ContainedPath

  /** The target of each symbolic link, by the link's resolved place. */
  type Links = Path -> Option<Path>

  /** One name below a path. */
  function Below(p: Path, n: Component): Path {
    p + [n]
  }

  /** How the entry `n` below `p` resolves: below the place `p` resolves to, and through a link to its target. */
  ghost predicate FollowsAt(fs: FileSystem, links: Links, p: Path, n: Component) {
    match fs(p)
    case None => fs(Below(p, n)).None?
    case Some(q) =>
      && fs(q) == Some(q) && fs(Below(p, n)) == fs(Below(q, n))
      && match links(Below(q, n))
         case Some(target) => fs(Below(q, n)) == fs(target)
         case None => fs(Below(q, n)) in {None, Some(Below(q, n))}
  }

  /** Resolution goes name by name. */
  ghost predicate Follows(fs: FileSystem, links: Links) {
    forall p, n: Component {:trigger FollowsAt(fs, links, p, n)} :: n.Normal? ==> FollowsAt(fs, links, p, n)
  }

  /** What exists stays as it is, and a link is an entry of an existing directory. */
  ghost predicate GrowsAt(fs: FileSystem, after: FileSystem, links: Links, p: Path, n: Component) {
    (fs(p).Some? ==> after(p) == fs(p)) && (links(Below(p, n)).Some? ==> fs(p) == Some(p))
  }

  /** `after` is `fs` with entries created, none of them a link, and none removed. */
  ghost predicate Grows(fs: FileSystem, after: FileSystem, links: Links) {
    && Follows(fs, links) && Follows(after, links)
    && forall p, n: Component {:trigger GrowsAt(fs, after, links, p, n)} :: n.Normal? ==>
      GrowsAt(fs, after, links, p, n)
  }

  ghost predicate AllNames(p: Path) {
    forall i :: 0 <= i < |p| ==> p[i].Normal?
  }

  lemma {:induction false} MissingStaysMissing(fs: FileSystem, links: Links, p: Path, tail: Path)
    requires Follows(fs, links) && AllNames(tail) && fs(p).None?
    ensures fs(p + tail).None?
    decreases |tail|
  {
    if tail == [] {
      assert p + tail == p;
    } else {
      assert FollowsAt(fs, links, p, tail[0]);
      MissingStaysMissing(fs, links, Below(p, tail[0]), tail[1..]);
      assert p + tail == Below(p, tail[0]) + tail[1..];
    }
  }

  /** Paths that resolve alike resolve alike with any names below them. */
  lemma {:induction false} AlikeBelow(fs: FileSystem, links: Links, p: Path, q: Path, tail: Path)
    requires Follows(fs, links) && AllNames(tail) && fs(p) == fs(q)
    ensures fs(p + tail) == fs(q + tail)
    decreases |tail|
  {
    if tail == [] {
      assert p + tail == p && q + tail == q;
    } else {
      var n := tail[0];
      assert FollowsAt(fs, links, p, n) && FollowsAt(fs, links, q, n);
      AlikeBelow(fs, links, Below(p, n), Below(q, n), tail[1..]);
      assert p + tail == Below(p, n) + tail[1..] && q + tail == Below(q, n) + tail[1..];
    }
  }

  /** Without a link on the way, a resolved path with existing names below it is resolved. */
  lemma {:induction false} PlainTailResolves(after: FileSystem, links: Links, base: Path, tail: Path)
    requires Follows(after, links) && AllNames(tail) && after(base) == Some(base) && after(base + tail).Some?
    requires forall i :: 0 <= i < |tail| ==> links(Below(base + tail[..i], tail[i])).None?
    ensures after(base + tail) == Some(base + tail)
    decreases |tail|
  {
    if tail == [] {
      assert base + tail == base;
    } else {
      var q := Below(base, tail[0]);
      assert base + tail[..0] == base && base + tail == q + tail[1..];
      assert FollowsAt(after, links, base, tail[0]);
      if after(q).None? {
        MissingStaysMissing(after, links, q, tail[1..]);
      }
      forall i | 0 <= i < |tail[1..]| ensures links(Below(q + tail[1..][..i], tail[1..][i])).None? {
        assert q + tail[1..][..i] == base + tail[..i + 1];
      }
      PlainTailResolves(after, links, q, tail[1..]);
    }
  }

  /** The first name of the missing tail that was a dangling link, if it was one. */
  ghost function Dangling(fs: FileSystem, links: Links, root: Path, names: Path, k: nat): Option<Path>
    requires Deepest(fs, root, names, k)
  {
    if k == |names| then None else links(Below(fs(root + names[..k]).value, names[k]))
  }

  /** Only the first missing name can be a link: deeper ones have no directory to be in. */
  lemma {:induction false} OnlyTheFirstDangles(
      fs: FileSystem, after: FileSystem, links: Links, root: Path, names: Path, k: nat, i: nat)
    requires Grows(fs, after, links) && AllNames(names) && Deepest(fs, root, names, k) && k < i < |names|
    ensures var base := fs(root + names[..k]).value;
      links(Below(base + names[k..i], names[i])).None?
  {
    var base := fs(root + names[..k]).value;
    assert FollowsAt(fs, links, root + names[..k], names[k]);
    AlikeBelow(fs, links, root + names[..k], base, names[k..i]);
    assert GrowsAt(fs, after, links, base + names[k..i], names[i]);
    assert root + names[..k] + names[k..i] == root + names[..i];
    assert fs(base + names[k..i]).None?;
  }

  lemma {:induction false} BaseStays(fs: FileSystem, after: FileSystem, links: Links, p: Path)
    requires Grows(fs, after, links) && fs(p).Some?
    ensures after(fs(p).value) == Some(fs(p).value)
  {
    assert FollowsAt(fs, links, p, Normal("")) && GrowsAt(fs, after, links, fs(p).value, Normal(""));
  }

  /**
   * Once its tail has been created, an accepted path resolves to itself unless
   * the first missing name was a dangling link, and then to whatever that link
   * leads to.
   */
  lemma {:induction false} LaterResolution(
      fs: FileSystem, after: FileSystem, links: Links, root: Path, names: Path, k: nat, p: Path)
    requires Grows(fs, after, links) && AllNames(names) && ResolvesFrom(fs, root, names, k, p) && after(p).Some?
    ensures match Dangling(fs, links, root, names, k)
      case None => after(p) == Some(p)
      case Some(target) => after(p) == after(target + names[k + 1..])
  {
    var base, tail := fs(root + names[..k]).value, names[k..];
    BaseStays(fs, after, links, root + names[..k]);
    match Dangling(fs, links, root, names, k)
    case None =>
      forall i | 0 <= i < |tail| ensures links(Below(base + tail[..i], tail[i])).None? {
        if i == 0 {
          assert base + tail[..0] == base;
        } else {
          OnlyTheFirstDangles(fs, after, links, root, names, k, k + i);
          assert tail[..i] == names[k..k + i];
        }
      }
      PlainTailResolves(after, links, base, tail);
    case Some(target) =>
      assert FollowsAt(after, links, base, names[k]);
      AlikeBelow(after, links, Below(base, names[k]), target, names[k + 1..]);
      assert p == Below(base, names[k]) + names[k + 1..];
  }

  // ---- chains of dangling links ----

  const TOP: Path := [RootDir]

  /** The top directory is there, answers begin at it, and links lead from it along plain names. */
  ghost predicate Rooted(fs: FileSystem, links: Links) {
    && fs(TOP) == Some(TOP) && (forall p :: fs(p).Some? ==> TOP <= fs(p).value)
    && (forall p :: links(p).Some? ==> TOP <= links(p).value && AllNames(links(p).value[1..]))
  }

  /**
   * Where the walk from `root` along `names` settles, following `n` dangling
   * links: each is replaced by its target, and the walk taken again from the top.
   */
  ghost predicate Settles(fs: FileSystem, links: Links, root: Path, names: Path, q: Path, n: nat)
    decreases n, 1
  {
    exists k: nat, p :: ResolvesFrom(fs, root, names, k, p) && SettlesFrom(fs, links, root, names, k, p, q, n)
  }

  ghost predicate SettlesFrom(
      fs: FileSystem, links: Links, root: Path, names: Path, k: nat, p: Path, q: Path, n: nat)
    requires Deepest(fs, root, names, k)
    decreases n, 0
  {
    match Dangling(fs, links, root, names, k)
    case None => n == 0 && q == p
    case Some(target) => n > 0 && target != [] && Settles(fs, links, TOP, target[1..] + names[k + 1..], q, n - 1)
  }

  /** How many links resolving a path follows: those of its directory, and one and its target's for each link. */
  ghost predicate CountsAt(fs: FileSystem, links: Links, steps: Path -> nat, p: Path, n: Component) {
    fs(p).Some? && fs(Below(p, n)).Some? ==>
      steps(Below(p, n)) == steps(p) +
        match links(Below(fs(p).value, n)) case None => 0 case Some(target) => 1 + steps(target)
  }

  /** Every resolution ends: it follows a number of links. */
  ghost predicate Counts(fs: FileSystem, links: Links, steps: Path -> nat) {
    forall p, n: Component {:trigger CountsAt(fs, links, steps, p, n)} :: n.Normal? ==> CountsAt(fs, links, steps, p, n)
  }

  /** Below one place, the same names follow the same number of links. */
  lemma {:induction false} SameStepsBelow(
      fs: FileSystem, links: Links, steps: Path -> nat, p: Path, q: Path, tail: Path)
    requires Follows(fs, links) && Counts(fs, links, steps) && AllNames(tail)
    requires fs(p) == fs(q) && fs(p + tail).Some?
    ensures steps(p + tail) - steps(p) == steps(q + tail) - steps(q)
    decreases |tail|
  {
    if tail == [] {
      assert p + tail == p && q + tail == q;
    } else {
      var n := tail[0];
      assert p + tail == Below(p, n) + tail[1..] && q + tail == Below(q, n) + tail[1..];
      WayIsThere(fs, links, p, tail);
      assert FollowsAt(fs, links, p, n) && FollowsAt(fs, links, q, n);
      assert CountsAt(fs, links, steps, p, n) && CountsAt(fs, links, steps, q, n);
      SameStepsBelow(fs, links, steps, Below(p, n), Below(q, n), tail[1..]);
    }
  }

  /** What leads to an existing path exists. */
  lemma {:induction false} WayIsThere(fs: FileSystem, links: Links, p: Path, tail: Path)
    requires Follows(fs, links) && AllNames(tail) && tail != [] && fs(p + tail).Some?
    ensures fs(p).Some? && fs(Below(p, tail[0])).Some?
  {
    if fs(p).None? {
      MissingStaysMissing(fs, links, p, tail);
    } else if fs(Below(p, tail[0])).None? {
      assert p + tail == Below(p, tail[0]) + tail[1..];
      MissingStaysMissing(fs, links, Below(p, tail[0]), tail[1..]);
    }
  }

  /** The walked path and its answer are one place later on. */
  lemma {:induction false} AnswerIsThere(
      fs: FileSystem, after: FileSystem, links: Links, root: Path, names: Path, k: nat, p: Path)
    requires Grows(fs, after, links) && AllNames(names) && ResolvesFrom(fs, root, names, k, p)
    ensures after(root + names) == after(p)
  {
    var at := root + names[..k];
    BaseStays(fs, after, links, at);
    assert GrowsAt(fs, after, links, at, Normal(""));
    AlikeBelow(after, links, at, fs(at).value, names[k..]);
    assert root + names == at + names[k..];
  }

  /** Replacing a dangling link by its target leads to the same place, along fewer links. */
  lemma {:induction false} LinkReplaced(
      fs: FileSystem, after: FileSystem, links: Links, steps: Path -> nat, root: Path, names: Path, k: nat, p: Path,
      target: Path)
    requires Grows(fs, after, links) && Counts(after, links, steps) && AllNames(names)
    requires ResolvesFrom(fs, root, names, k, p) && Dangling(fs, links, root, names, k) == Some(target)
    requires after(root + names).Some?
    ensures after(target + names[k + 1..]) == after(root + names)
    ensures steps(target + names[k + 1..]) < steps(root + names)
  {
    var at, l, tail := root + names[..k], names[k], names[k + 1..];
    AnswerIsThere(fs, after, links, root, names, k, p);
    LaterResolution(fs, after, links, root, names, k, p);
    BaseStays(fs, after, links, at);
    assert GrowsAt(fs, after, links, at, Normal(""));
    assert root + names == at + names[k..] == Below(at, l) + tail;
    WayIsThere(after, links, at, names[k..]);
    assert FollowsAt(after, links, at, l) && CountsAt(after, links, steps, at, l);
    assert FollowsAt(after, links, fs(at).value, l);
    SameStepsBelow(after, links, steps, Below(at, l), target, tail);
  }

  /** From the top, every plain path is walked to some deepest existing ancestor. */
  lemma {:induction false} WalkFromTop(fs: FileSystem, links: Links, names: Path, m: nat) returns (k: nat, p: Path)
    requires Rooted(fs, links) && m <= |names|
    requires forall j :: m < j <= |names| ==> fs(TOP + names[..j]).None?
    ensures ResolvesFrom(fs, TOP, names, k, p)
  {
    assert TOP + names[..0] == TOP;
    if fs(TOP + names[..m]).Some? {
      k, p := m, fs(TOP + names[..m]).value + names[m..];
    } else {
      k, p := WalkFromTop(fs, links, names, m - 1);
    }
  }

  /** Once the path exists, its walk has settled: the links dangling at the check form no loop. */
  lemma {:induction false} ExistingSettles(
      fs: FileSystem, after: FileSystem, links: Links, steps: Path -> nat, root: Path, names: Path, k: nat, p: Path)
      returns (n: nat)
    requires Grows(fs, after, links) && Rooted(fs, links) && Counts(after, links, steps) && AllNames(names)
    requires ResolvesFrom(fs, root, names, k, p) && after(root + names).Some?
    ensures Settles(fs, links, root, names, after(root + names).value, n)
    decreases steps(root + names)
  {
    AnswerIsThere(fs, after, links, root, names, k, p);
    LaterResolution(fs, after, links, root, names, k, p);
    match Dangling(fs, links, root, names, k)
    case None =>
      n := 0;
      assert SettlesFrom(fs, links, root, names, k, p, p, 0);
    case Some(target) =>
      var rest := target[1..] + names[k + 1..];
      LinkReplaced(fs, after, links, steps, root, names, k, p, target);
      assert TOP + rest == target + names[k + 1..];
      var k', p' := WalkFromTop(fs, links, rest, |rest|);
      n := ExistingSettles(fs, after, links, steps, TOP, rest, k', p');
      n := n + 1;
      assert SettlesFrom(fs, links, root, names, k, p, after(root + names).value, n);
  }

  /** Where the walk settles is where the path resolves, once it exists. */
  lemma {:induction false} SettledIsLater(
      fs: FileSystem, after: FileSystem, links: Links, root: Path, names: Path, q: Path, n: nat)
    requires Grows(fs, after, links) && Rooted(fs, links) && AllNames(names) && after(root + names).Some?
    requires Settles(fs, links, root, names, q, n)
    ensures after(root + names) == Some(q)
    decreases n
  {
    var k: nat, p :| ResolvesFrom(fs, root, names, k, p) && SettlesFrom(fs, links, root, names, k, p, q, n);
    AnswerIsThere(fs, after, links, root, names, k, p);
    LaterResolution(fs, after, links, root, names, k, p);
    match Dangling(fs, links, root, names, k)
    case None =>
    case Some(target) =>
      var rest := target[1..] + names[k + 1..];
      assert TOP + rest == target + names[k + 1..];
      SettledIsLater(fs, after, links, TOP, rest, q, n - 1);
  }

  /**
   * Whatever is created later, an accepted path then resolves under the root
   * exactly when the walk settles under it, which the file system at the check
   * and its links decide.
   */
  lemma {:induction false} StaysUnderRootExactly(
      fs: FileSystem, after: FileSystem, links: Links, steps: Path -> nat, root: Path, names: Path, p: Path)
    requires Grows(fs, after, links) && Rooted(fs, links) && Counts(after, links, steps) && AllNames(names)
    requires ResolvesTo(fs, root, names, p) && after(p).Some?
    ensures fs(root).value <= after(p).value <==>
      exists q, n :: Settles(fs, links, root, names, q, n) && fs(root).value <= q
  {
    var k: nat :| ResolvesFrom(fs, root, names, k, p);
    AnswerIsThere(fs, after, links, root, names, k, p);
    var n := ExistingSettles(fs, after, links, steps, root, names, k, p);
    assert Settles(fs, links, root, names, after(p).value, n);
    forall q, m | Settles(fs, links, root, names, q, m) ensures q == after(p).value {
      SettledIsLater(fs, after, links, root, names, q, m);
    }
  }

  // ---- a path that leaves ----

  const PROJECT: Path := [RootDir, Normal("p")]
  const LINK: Path := [RootDir, Normal("p"), Normal("l")]
  const OUTSIDE: Path := [RootDir, Normal("o")]

  /** `/p` exists and holds one link, to `/o`, which does not exist yet. */
  function Before(p: Path): Option<Path> {
    if p == [RootDir] || p == PROJECT then Some(p) else None
  }

  function OneLink(p: Path): Option<Path> {
    if p == LINK then Some(OUTSIDE) else None
  }

  /** `/o` has been created. */
  function Created(p: Path): Option<Path> {
    if p == [RootDir] || p == PROJECT || p == OUTSIDE then Some(p)
    else if p == LINK then Some(OUTSIDE)
    else None
  }

  lemma {:induction false} BelowFacts(q: Path, n: Component)
    ensures Below(q, n) == PROJECT <==> q == [RootDir] && n == Normal("p")
    ensures Below(q, n) == OUTSIDE <==> q == [RootDir] && n == Normal("o")
    ensures Below(q, n) == LINK <==> q == PROJECT && n == Normal("l")
    ensures Below(q, n) == [RootDir] <==> q == [] && n == RootDir
  {
    assert Below(q, n)[..|q|] == q && Below(q, n)[|q|] == n;
    assert PROJECT == Below([RootDir], Normal("p")) && OUTSIDE == Below([RootDir], Normal("o"));
    assert LINK == Below(PROJECT, Normal("l")) && [RootDir] == Below([], RootDir);
  }

  lemma {:induction false} ExampleGrows()
    ensures Grows(Before, Created, OneLink)
  {
    forall p, n: Component | n.Normal?
      ensures FollowsAt(Before, OneLink, p, n) && FollowsAt(Created, OneLink, p, n) &&
        GrowsAt(Before, Created, OneLink, p, n)
    {
      BelowFacts(p, n);
      BelowFacts(OUTSIDE, n);
    }
  }

  /** In the example, too, answers begin at the top, and only the link costs a step. */
  lemma {:induction false} ExampleCounts()
    ensures Rooted(Before, OneLink) && Counts(Created, OneLink, (p: Path) => if p == LINK then 1 else 0)
  {
    var steps := (p: Path) => if p == LINK then 1 else 0;
    forall p, n: Component | n.Normal? ensures CountsAt(Created, OneLink, steps, p, n) {
      BelowFacts(p, n);
      BelowFacts(OUTSIDE, n);
    }
  }

  /** `l` is accepted under `/p` while it dangles, and resolves outside `/p` once its target exists. */
  lemma {:induction false} DanglingLinkEscapes()
    ensures Grows(Before, Created, OneLink) && Rooted(Before, OneLink)
    ensures Counts(Created, OneLink, (p: Path) => if p == LINK then 1 else 0)
    ensures ResolvesTo(Before, PROJECT, [Normal("l")], LINK)
    ensures Created(LINK) == Some(OUTSIDE) && !(Before(PROJECT).value <= OUTSIDE)
  {
    ExampleGrows();
    ExampleCounts();
    var names := [Normal("l")];
    assert PROJECT + names[..0] == PROJECT && PROJECT + names[..1] == LINK && PROJECT + names[0..] == LINK;
    assert |PROJECT| == 2 && |LINK| == 3;
    assert Deepest(Before, PROJECT, names, 0);
    assert ResolvesFrom(Before, PROJECT, names, 0, LINK);
    assert PROJECT[1] != OUTSIDE[1] by { assert "p"[0] != "o"[0]; }
  }
}
