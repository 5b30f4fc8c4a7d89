/** Relative paths proved to resolve under a project root. */
module ContainedPath {
  import opened Prelude

  /** The components of a path, as the standard library splits it. */
  datatype Component = Prefix(drive: string) | RootDir | CurDir | ParentDir | Normal(name: string)

  type Path = seq<Component>

  datatype PathEscape = ParentTraversal | Absolute | NotUnderRoot

  /** What `canonicalize` answers, for one state of the file system. */
  type FileSystem = Path -> Option<Path>

  /** Only plain names follow the root of a resolved path. */
  predicate Resolved(p: Path) {
    p != [] && forall i :: 0 <= i < |p| ==> p[i].Normal? || p[i].Prefix? || p[i].RootDir?
  }

  /** The empty path does not exist, and answers are resolved paths. */
  ghost predicate Lawful(fs: FileSystem) {
    fs([]).None? && forall p :: fs(p).Some? ==> Resolved(fs(p).value)
  }

  // ---- path operations ----

  predicate IsAbsolute(p: Path) {
    p != [] && (p[0].RootDir? || p[0].Prefix?)
  }

  function Names(p: Path): Path {
    if p == [] then [] else (if p[0].CurDir? then [] else [p[0]]) + Names(p[1..])
  }

  /** `root.join(candidate)`, split again: `.` disappears, and an absolute candidate replaces the root. */
  function Join(root: Path, candidate: Path): Path {
    if IsAbsolute(candidate) then candidate else root + Names(candidate)
  }

  function FileName(p: Path): Option<Component> {
    if p != [] && p[|p| - 1].Normal? then Some(p[|p| - 1]) else None
  }

  function Parent(p: Path): Option<Path> {
    if p == [] || p[|p| - 1].RootDir? || p[|p| - 1].Prefix? then None else Some(p[..|p| - 1])
  }

  // ---- what the check promises ----

  predicate IsPlain(c: Component) { c.CurDir? || c.Normal? }

  /** Why a component is refused. */
  function Refusal(c: Component): Option<PathEscape> {
    match c
    case RootDir => Some(Absolute)
    case Prefix(_) => Some(Absolute)
    case ParentDir => Some(ParentTraversal)
    case _ => None
  }

  /** The first `k` names under the root exist, and no deeper one does. */
  ghost predicate Deepest(fs: FileSystem, root: Path, names: Path, k: nat) {
    && k <= |names| && fs(root + names[..k]).Some?
    && forall j :: k < j <= |names| ==> fs(root + names[..j]).None?
  }

  /** The deepest existing ancestor resolves under the root, and `p` is it with the rest of the names appended. */
  ghost predicate ResolvesFrom(fs: FileSystem, root: Path, names: Path, k: nat, p: Path) {
    && Deepest(fs, root, names, k) && fs(root).Some?
    && fs(root).value <= fs(root + names[..k]).value
    && p == fs(root + names[..k]).value + names[k..]
  }

  ghost predicate ResolvesTo(fs: FileSystem, root: Path, names: Path, p: Path) {
    exists k: nat :: ResolvesFrom(fs, root, names, k, p)
  }

  lemma {:induction false} NamesArePlain(p: Path)
    requires forall i :: 0 <= i < |p| ==> IsPlain(p[i])
    ensures forall i :: 0 <= i < |Names(p)| ==> Names(p)[i].Normal?
  {
    if p != [] {
      NamesArePlain(p[1..]);
    }
  }

  lemma {:induction false} DeepestIsUnique(fs: FileSystem, root: Path, names: Path, j: nat, k: nat)
    requires Deepest(fs, root, names, j) && Deepest(fs, root, names, k)
    ensures j == k
  {
  }

  /** The names of a path are its components in order, but for `.`, which names nothing. */
  lemma {:induction false} NamesExactly(p: Path, q: Path, c: Component)
    ensures Names([]) == [] && Names([c]) == (if c == CurDir then [] else [c])
    ensures Names(p + q) == Names(p) + Names(q)
  {
    assert [c][1..] == [];
    if p == [] {
      assert p + q == q;
    } else {
      assert (p + q)[1..] == p[1..] + q;
      NamesExactly(p[1..], q, c);
    }
  }

  /** A candidate resolves to at most one path. */
  lemma {:induction false} ResolvesToOne(fs: FileSystem, root: Path, names: Path, p: Path, q: Path)
    requires ResolvesTo(fs, root, names, p) && ResolvesTo(fs, root, names, q)
    ensures p == q
  {
    var j: nat :| ResolvesFrom(fs, root, names, j, p);
    var k: nat :| ResolvesFrom(fs, root, names, k, q);
    DeepestIsUnique(fs, root, names, j, k);
  }

  /** The resolved root is a component prefix of the result, and only plain names follow it. */
  lemma {:induction false} ResultIsUnderRoot(fs: FileSystem, root: Path, names: Path, p: Path)
    requires Lawful(fs) && ResolvesTo(fs, root, names, p)
    requires forall i :: 0 <= i < |names| ==> names[i].Normal?
    ensures fs(root).Some? && fs(root).value <= p && Resolved(p)
  {
    var k: nat :| ResolvesFrom(fs, root, names, k, p);
    var base := fs(root + names[..k]).value;
    assert forall i :: 0 <= i < |p| ==> p[i] == if i < |base| then base[i] else names[k + i - |base|];
    assert p[..|fs(root).value|] == base[..|fs(root).value|];
  }

  /** The result is strictly inside the root exactly when the joined path does not itself resolve to the root. */
  lemma {:induction false} StrictlyInsideExactly(fs: FileSystem, root: Path, names: Path, p: Path)
    requires ResolvesTo(fs, root, names, p)
    ensures fs(root).Some?
    ensures p != fs(root).value <==> fs(root + names) != fs(root)
  {
    var k: nat :| ResolvesFrom(fs, root, names, k, p);
    assert names[..|names|] == names;
    var base := fs(root + names[..k]).value;
    if k == |names| {
      assert base + names[k..] == base;
    } else {
      assert |p| > |fs(root).value|;
    }
  }

  /** The root itself is accepted: an empty candidate, or `.`, resolves to it. */
  lemma {:induction false} RootResolvesToItself(fs: FileSystem, root: Path)
    requires fs(root).Some?
    ensures Names([]) == Names([CurDir]) == []
    ensures ResolvesTo(fs, root, [], fs(root).value)
  {
    assert [CurDir][1..] == [];
    assert root + [] == root;
    var none: Path := [];
    assert none[..0] == [] && none[0..] == [];
    assert ResolvesFrom(fs, root, [], 0, fs(root).value);
  }

  // ---- the check ----

  /** Component `i` is the first that is not plain, and says why. */
  ghost predicate FirstRefusal(candidate: Path, i: int, escape: Option<PathEscape>) {
    && 0 <= i < |candidate| && (forall j :: 0 <= j < i ==> IsPlain(candidate[j]))
    && match candidate[i]
       case RootDir => escape == Some(Absolute)
       case Prefix(_) => escape == Some(Absolute)
       case ParentDir => escape == Some(ParentTraversal)
       case _ => false
  }

  /** The component scan, before any file system call. */
  method CheckComponents(candidate: Path) returns (escape: Option<PathEscape>)
    ensures escape.None? <==> forall i :: 0 <= i < |candidate| ==> IsPlain(candidate[i])
    ensures escape.Some? ==> exists i :: FirstRefusal(candidate, i, escape)
  {
    for i := 0 to |candidate|
      invariant forall j :: 0 <= j < i ==> IsPlain(candidate[j])
    {
      escape := Refusal(candidate[i]);
      if escape.Some? {
        assert FirstRefusal(candidate, i, escape);
        return;
      }
    }
    escape := None;
  }

  /**
   * The ancestor walk on a fixed file system: it stops at or below the root, its fail-closed arm is
   * never reached, and ancestor and tail always join to the path it started from.
   */
  method DeepestAncestor(fs: FileSystem, root: Path, names: Path) returns (existing: Path, tail: Path)
    requires fs(root).Some? && forall i :: 0 <= i < |names| ==> names[i].Normal?
    ensures |tail| <= |names| && tail == names[|names| - |tail|..]
    ensures Deepest(fs, root, names, |names| - |tail|)
    ensures fs(root + names[..|names| - |tail|]) == Some(existing)
  {
    var ancestor := root + names;
    tail := [];
    ghost var k: nat := |names|;
    assert names[..k] == names && names[k..] == [];
    while fs(ancestor).None?
      invariant k <= |names| && ancestor == root + names[..k] && tail == names[k..]
      invariant forall j :: k < j <= |names| ==> fs(root + names[..j]).None?
      decreases k
    {
      assert k == 0 ==> ancestor == root;
      assert k > 0 ==> ancestor[|ancestor| - 1] == names[k - 1];
      var name, parent := FileName(ancestor), Parent(ancestor);
      if name.None? || parent.None? {
        assert false;
      }
      tail := [name.value] + tail;
      ancestor := parent.value;
      k := k - 1;
    }
    existing := fs(ancestor).value;
  }

  /** `ContainedRelPath::parse` on a fixed file system. */
  method Parse(fs: FileSystem, root: Path, candidate: Path) returns (r: Result<Path, PathEscape>)
    ensures r == Err(Absolute) || r == Err(ParentTraversal) <==>
      exists i :: 0 <= i < |candidate| && !IsPlain(candidate[i])
    ensures r == Err(Absolute) || r == Err(ParentTraversal) ==> exists i :: FirstRefusal(candidate, i, Some(r.error))
    ensures r.Ok? ==> forall i :: 0 <= i < |candidate| ==> IsPlain(candidate[i])
    ensures r.Ok? ==> ResolvesTo(fs, root, Names(candidate), r.value)
    ensures r == Err(NotUnderRoot) ==> forall p :: !ResolvesTo(fs, root, Names(candidate), p)
  {
    var escape := CheckComponents(candidate);
    if escape.Some? {
      return Err(escape.value);
    }
    NamesArePlain(candidate);
    assert !IsAbsolute(candidate);
    var names := Names(candidate);
    var joined := Join(root, candidate);
    if fs(root).None? {
      return Err(NotUnderRoot);
    }
    var canonRoot := fs(root).value;
    assert names[..|names|] == names && names[|names|..] == [];
    if fs(joined).Some? {
      assert Deepest(fs, root, names, |names|);
      if !(canonRoot <= fs(joined).value) {
        RefusedAt(fs, root, names, |names|);
        return Err(NotUnderRoot);
      }
      assert ResolvesFrom(fs, root, names, |names|, fs(joined).value);
      return Ok(fs(joined).value);
    }
    var existing, tail := DeepestAncestor(fs, root, names);
    ghost var k: nat := |names| - |tail|;
    if !(canonRoot <= existing) {
      RefusedAt(fs, root, names, k);
      return Err(NotUnderRoot);
    }
    assert ResolvesFrom(fs, root, names, k, existing + tail);
    return Ok(existing + tail);
  }

  lemma {:induction false} RefusedAt(fs: FileSystem, root: Path, names: Path, k: nat)
    requires fs(root).Some? && Deepest(fs, root, names, k) && !(fs(root).value <= fs(root + names[..k]).value)
    ensures forall p :: !ResolvesTo(fs, root, names, p)
  {
    forall p, j: nat | ResolvesFrom(fs, root, names, j, p) ensures false {
      DeepestIsUnique(fs, root, names, j, k);
    }
  }
}
