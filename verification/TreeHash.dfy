/**
 * The source-tree hash: a budgeted recursive walk, a sort, and a length-framed
 * stream. The stream is exactly the set of visible files, whatever order the
 * file system lists directories in.
 */
module TreeHash {
  import opened Prelude
  import opened Orders
  import opened Framing
  import Keys

  /** A directory entry's name as the OS gives it. */
  datatype Name = Utf8(text: Bytes) | NonUtf8(raw: Bytes)

  datatype Node = File(content: Bytes) | Dir(entries: seq<Entry>) | Symlink | Special

  /** One listed entry; a directory lists its entries in any order. */
  datatype Entry = Entry(name: Name, node: Node)

  datatype Ceiling = Ceiling(bytes: nat, entries: nat, perFile: nat, depth: nat)

  datatype TreeError = TooManyEntries | TooDeep | TooManyBytes | IsSymlink | IsSpecial | NonUtf8Name | NotOneComponent
                     | ChangedSize

  datatype FileAt = FileAt(path: Bytes, content: Bytes)

  const SLASH: byte := 47
  const DOT: byte := 46

  // ---- the walk ----

  /** A name a directory listing can yield: one non-empty component. */
  predicate IsComponent(name: Bytes) {
    name != [] && name != [DOT] && name != [DOT, DOT] && SLASH !in name
  }

  predicate IsHidden(name: Bytes) {
    name != [] && name[0] == DOT
  }

  function Child(rel: Bytes, name: Bytes): Bytes {
    if rel == [] then name else rel + [SLASH] + name
  }

  /** The files below a directory in walk order, and the running count of visited entries. */
  function WalkDir(entries: seq<Entry>, rel: Bytes, depth: nat, seen: nat, c: Ceiling)
    : Result<(seq<FileAt>, nat), TreeError>
    decreases entries, 1
  {
    if depth > c.depth then Err(TooDeep) else WalkEntries(entries, rel, depth, seen, c)
  }

  function WalkEntries(entries: seq<Entry>, rel: Bytes, depth: nat, seen: nat, c: Ceiling)
    : Result<(seq<FileAt>, nat), TreeError>
    decreases entries, 0
  {
    if entries == [] then Ok(([], seen))
    else
      match WalkEntry(entries[0], rel, depth, seen, c)
      case Err(e) => Err(e)
      case Ok((first, seen')) => Prepend(first, WalkEntries(entries[1..], rel, depth, seen', c))
  }

  function WalkEntry(entry: Entry, rel: Bytes, depth: nat, seen: nat, c: Ceiling)
    : Result<(seq<FileAt>, nat), TreeError>
    decreases entry
  {
    var seen' := Saturate(seen + 1);
    if seen' > c.entries then Err(TooManyEntries)
    else if entry.node.Symlink? then Err(IsSymlink)
    else if entry.name.NonUtf8? then Err(NonUtf8Name)
    else if !IsComponent(entry.name.text) then Err(NotOneComponent)
    else
      var child := Child(rel, entry.name.text);
      match entry.node
      case Dir(entries) =>
        if IsHidden(entry.name.text) then Ok(([], seen')) else WalkDir(entries, child, depth + 1, seen', c)
      case File(content) => Ok(([FileAt(child, content)], seen'))
      case _ => Err(IsSpecial)
  }

  function Prepend(first: seq<FileAt>, r: Result<(seq<FileAt>, nat), TreeError>)
    : Result<(seq<FileAt>, nat), TreeError>
  {
    match r
    case Err(e) => Err(e)
    case Ok((rest, seen)) => Ok((first + rest, seen))
  }

  /** `collect_files`: the recursion that pushes to `out` and bumps `seen`. */
  method CollectFiles(entries: seq<Entry>, rel: Bytes, out0: seq<FileAt>, seen0: nat, c: Ceiling, depth: nat)
      returns (error: Option<TreeError>, out: seq<FileAt>, seen: nat)
    ensures match WalkDir(entries, rel, depth, seen0, c)
      case Err(e) => error == Some(e)
      case Ok((files, count)) => error == None && out == out0 + files && seen == count
    decreases Dir(entries)
  {
    error, out, seen := None, out0, seen0;
    if depth > c.depth {
      return Some(TooDeep), out, seen;
    }
    for i := 0 to |entries|
      invariant error == None
      invariant Prepend(out, WalkEntries(entries[i..], rel, depth, seen, c))
             == Prepend(out0, WalkEntries(entries, rel, depth, seen0, c))
    {
      var entry := entries[i];
      assert entries[i..][0] == entry && entries[i..][1..] == entries[i + 1..];
      ghost var rest := WalkEntries(entries[i..], rel, depth, seen, c);
      ghost var out1 := out;
      ghost var step := WalkEntry(entry, rel, depth, seen, c);
      seen := Saturate(seen + 1);
      if seen > c.entries {
        return Some(TooManyEntries), out, seen;
      }
      if entry.node.Symlink? {
        return Some(IsSymlink), out, seen;
      }
      if entry.name.NonUtf8? {
        return Some(NonUtf8Name), out, seen;
      }
      if !IsComponent(entry.name.text) {
        return Some(NotOneComponent), out, seen;
      }
      var child := Child(rel, entry.name.text);
      match entry.node {
        case Dir(below) =>
          if !IsHidden(entry.name.text) {
            assert Dir(below) == entry.node;
            error, out, seen := CollectFiles(below, child, out, seen, c, depth + 1);
            if error.Some? {
              return;
            }
          }
        case File(content) =>
          out := out + [FileAt(child, content)];
        case Special =>
          return Some(IsSpecial), out, seen;
      }
      assert step.Ok? && out == out1 + step.value.0 && seen == step.value.1;
      ghost var after := WalkEntries(entries[i + 1..], rel, depth, seen, c);
      assert after.Ok? ==> (out1 + step.value.0) + after.value.0 == out1 + (step.value.0 + after.value.0);
    }
    assert entries[|entries|..] == [];
  }

  // ---- when the walk succeeds ----

  /** Entries visited below a directory: every listed entry, hidden directories not entered. */
  function Visited(entries: seq<Entry>): nat
    decreases entries, 0
  {
    if entries == [] then 0 else VisitedAt(entries[0]) + Visited(entries[1..])
  }

  function VisitedAt(entry: Entry): nat
    decreases entry
  {
    1 + if entry.node.Dir? && entry.name.Utf8? && !IsHidden(entry.name.text) then Visited(entry.node.entries) else 0
  }

  /** Nothing visited is refused by shape, name or depth. */
  predicate Clean(entries: seq<Entry>, depth: nat, maxDepth: nat)
    decreases entries, 0
  {
    depth <= maxDepth && forall i :: 0 <= i < |entries| ==> CleanAt(entries[i], depth, maxDepth)
  }

  predicate CleanAt(entry: Entry, depth: nat, maxDepth: nat)
    decreases entry
  {
    && (entry.node.File? || entry.node.Dir?)
    && entry.name.Utf8? && IsComponent(entry.name.text)
    && (entry.node.Dir? && !IsHidden(entry.name.text) ==> Clean(entry.node.entries, depth + 1, maxDepth))
  }

  /** A saturating 64-bit counter never passes a ceiling of `u64::MAX`. */
  predicate Within(n: nat, ceiling: nat) {
    n <= ceiling || ceiling == U64_MAX
  }

  predicate IsCeiling(c: Ceiling) {
    c.bytes <= U64_MAX && c.entries <= U64_MAX && c.perFile <= U64_MAX
  }

  lemma {:induction false} WalkSucceedsExactly(entries: seq<Entry>, rel: Bytes, depth: nat, n: nat, c: Ceiling)
    requires IsCeiling(c) && Within(n, c.entries)
    ensures var r := WalkDir(entries, rel, depth, Saturate(n), c);
      && (r.Ok? <==> Clean(entries, depth, c.depth) && Within(n + Visited(entries), c.entries))
      && (r.Ok? ==> r.value.1 == Saturate(n + Visited(entries)))
    decreases entries, 1
  {
    if depth <= c.depth { WalkEntriesSucceeds(entries, rel, depth, n, c); }
  }

  lemma {:induction false} WalkEntriesSucceeds(entries: seq<Entry>, rel: Bytes, depth: nat, n: nat, c: Ceiling)
    requires IsCeiling(c) && Within(n, c.entries) && depth <= c.depth
    ensures var r := WalkEntries(entries, rel, depth, Saturate(n), c);
      && (r.Ok? <==> Clean(entries, depth, c.depth) && Within(n + Visited(entries), c.entries))
      && (r.Ok? ==> r.value.1 == Saturate(n + Visited(entries)))
    decreases entries, 0
  {
    if entries != [] {
      WalkEntrySucceeds(entries[0], rel, depth, n, c);
      if WalkEntry(entries[0], rel, depth, Saturate(n), c).Ok? {
        WalkEntriesSucceeds(entries[1..], rel, depth, n + VisitedAt(entries[0]), c);
        assert Clean(entries, depth, c.depth) <==>
          CleanAt(entries[0], depth, c.depth) && Clean(entries[1..], depth, c.depth) by {
          assert entries == [entries[0]] + entries[1..];
        }
      }
    }
  }

  lemma {:induction false} WalkEntrySucceeds(entry: Entry, rel: Bytes, depth: nat, n: nat, c: Ceiling)
    requires IsCeiling(c) && Within(n, c.entries) && depth <= c.depth
    ensures var r := WalkEntry(entry, rel, depth, Saturate(n), c);
      && (r.Ok? <==> CleanAt(entry, depth, c.depth) && Within(n + VisitedAt(entry), c.entries))
      && (r.Ok? ==> r.value.1 == Saturate(n + VisitedAt(entry)))
    decreases entry
  {
    if Within(n + 1, c.entries) && entry.node.Dir? && entry.name.Utf8? {
      WalkSucceedsExactly(entry.node.entries, Child(rel, entry.name.text), depth + 1, n + 1, c);
    }
  }

  // ---- what the walk refuses ----

  /** Something visited gives this reason to refuse the tree. */
  ghost predicate Offends(e: TreeError, entries: seq<Entry>, depth: nat, maxDepth: nat)
    decreases entries, 0
  {
    (e == TooDeep && depth > maxDepth) ||
    exists i :: 0 <= i < |entries| && OffendsAt(e, entries[i], depth, maxDepth)
  }

  ghost predicate OffendsAt(e: TreeError, entry: Entry, depth: nat, maxDepth: nat)
    decreases entry
  {
    || (e == IsSymlink && entry.node.Symlink?)
    || (e == NonUtf8Name && entry.name.NonUtf8?)
    || (e == NotOneComponent && entry.name.Utf8? && !IsComponent(entry.name.text))
    || (e == IsSpecial && entry.node.Special?)
    || (entry.node.Dir? && entry.name.Utf8? && !IsHidden(entry.name.text)
        && Offends(e, entry.node.entries, depth + 1, maxDepth))
  }

  /** The reason is the number of entries, or something visited gives it. */
  ghost predicate Refuses(e: TreeError, entries: seq<Entry>, depth: nat, n: nat, c: Ceiling) {
    if e == TooManyEntries then !Within(n + Visited(entries), c.entries) else Offends(e, entries, depth, c.depth)
  }

  /** A refused walk is refused for a reason that is there. */
  lemma {:induction false} WalkRefusedFor(entries: seq<Entry>, rel: Bytes, depth: nat, n: nat, c: Ceiling)
    requires IsCeiling(c) && Within(n, c.entries) && WalkDir(entries, rel, depth, Saturate(n), c).Err?
    ensures Refuses(WalkDir(entries, rel, depth, Saturate(n), c).error, entries, depth, n, c)
    decreases entries, 1
  {
    if depth <= c.depth { WalkEntriesRefusedFor(entries, rel, depth, n, c); }
  }

  lemma {:induction false} WalkEntriesRefusedFor(entries: seq<Entry>, rel: Bytes, depth: nat, n: nat, c: Ceiling)
    requires IsCeiling(c) && Within(n, c.entries) && depth <= c.depth
    requires WalkEntries(entries, rel, depth, Saturate(n), c).Err?
    ensures Refuses(WalkEntries(entries, rel, depth, Saturate(n), c).error, entries, depth, n, c)
    decreases entries, 0
  {
    var e := WalkEntries(entries, rel, depth, Saturate(n), c).error;
    if WalkEntry(entries[0], rel, depth, Saturate(n), c).Err? {
      WalkEntryRefusedFor(entries[0], rel, depth, n, c);
    } else {
      WalkEntrySucceeds(entries[0], rel, depth, n, c);
      WalkEntriesRefusedFor(entries[1..], rel, depth, n + VisitedAt(entries[0]), c);
      if e != TooManyEntries {
        var i :| 0 <= i < |entries[1..]| && OffendsAt(e, entries[1..][i], depth, c.depth);
        assert OffendsAt(e, entries[i + 1], depth, c.depth);
      }
    }
  }

  lemma {:induction false} WalkEntryRefusedFor(entry: Entry, rel: Bytes, depth: nat, n: nat, c: Ceiling)
    requires IsCeiling(c) && Within(n, c.entries) && depth <= c.depth
    requires WalkEntry(entry, rel, depth, Saturate(n), c).Err?
    ensures var e := WalkEntry(entry, rel, depth, Saturate(n), c).error;
      if e == TooManyEntries then !Within(n + VisitedAt(entry), c.entries) else OffendsAt(e, entry, depth, c.depth)
    decreases entry
  {
    if Within(n + 1, c.entries) && entry.node.Dir? && entry.name.Utf8? && IsComponent(entry.name.text)
       && !IsHidden(entry.name.text) {
      WalkRefusedFor(entry.node.entries, Child(rel, entry.name.text), depth + 1, n + 1, c);
    }
  }

  // ---- what the walk finds ----

  /** The tree holds `content` at `path`, outside hidden directories. */
  ghost predicate HasFile(entries: seq<Entry>, path: seq<Bytes>, content: Bytes)
    decreases path
  {
    path != [] &&
    exists i :: 0 <= i < |entries| && entries[i].name == Utf8(path[0]) && HasFileAt(entries[i].node, path, content)
  }

  ghost predicate HasFileAt(node: Node, path: seq<Bytes>, content: Bytes)
    requires path != []
    decreases path, 0
  {
    match node
    case File(c) => |path| == 1 && c == content
    case Dir(below) => !IsHidden(path[0]) && HasFile(below, path[1..], content)
    case _ => false
  }

  ghost predicate NamesOnce(entries: seq<Entry>) {
    forall i, j :: 0 <= i < j < |entries| ==> entries[i].name != entries[j].name
  }

  /** A file system lists each name of a directory once. */
  ghost predicate DistinctNames(entries: seq<Entry>)
    decreases entries, 0
  {
    NamesOnce(entries) && forall i :: 0 <= i < |entries| ==> DistinctBelow(entries[i])
  }

  ghost predicate DistinctBelow(entry: Entry)
    decreases entry
  {
    entry.node.Dir? ==> DistinctNames(entry.node.entries)
  }

  /** A file by its path components. */
  datatype Found = Found(path: seq<Bytes>, content: Bytes)

  function Listing(entries: seq<Entry>): seq<Found>
    decreases entries, 0
  {
    if entries == [] then [] else ListingAt(entries[0]) + Listing(entries[1..])
  }

  function ListingAt(entry: Entry): seq<Found>
    decreases entry
  {
    if entry.name.NonUtf8? then []
    else
      var name := entry.name.text;
      match entry.node
      case File(content) => [Found([name], content)]
      case Dir(below) => if IsHidden(name) then [] else Under(name, Listing(below))
      case _ => []
  }

  function Under(name: Bytes, found: seq<Found>): (r: seq<Found>)
    ensures |r| == |found|
    ensures forall i :: 0 <= i < |r| ==> r[i] == Found([name] + found[i].path, found[i].content)
  {
    seq(|found|, i requires 0 <= i < |found| => Found([name] + found[i].path, found[i].content))
  }

  /** The slash-joined path below `rel`. */
  function Joined(rel: Bytes, path: seq<Bytes>): Bytes
    decreases path
  {
    if path == [] then rel else Joined(Child(rel, path[0]), path[1..])
  }

  function Placed(rel: Bytes, found: seq<Found>): (r: seq<FileAt>)
    ensures |r| == |found|
    ensures forall i :: 0 <= i < |r| ==> r[i] == FileAt(Joined(rel, found[i].path), found[i].content)
  {
    seq(|found|, i requires 0 <= i < |found| => FileAt(Joined(rel, found[i].path), found[i].content))
  }

  lemma {:induction false} WalkFinds(entries: seq<Entry>, rel: Bytes, depth: nat, seen: nat, c: Ceiling)
    ensures var r := WalkEntries(entries, rel, depth, seen, c);
      r.Ok? ==> r.value.0 == Placed(rel, Listing(entries))
    decreases entries, 0
  {
    if entries != [] {
      WalkEntryFinds(entries[0], rel, depth, seen, c);
      var first := WalkEntry(entries[0], rel, depth, seen, c);
      if first.Ok? {
        WalkFinds(entries[1..], rel, depth, first.value.1, c);
        assert Placed(rel, ListingAt(entries[0]) + Listing(entries[1..]))
            == Placed(rel, ListingAt(entries[0])) + Placed(rel, Listing(entries[1..]));
      }
    }
  }

  lemma {:induction false} WalkEntryFinds(entry: Entry, rel: Bytes, depth: nat, seen: nat, c: Ceiling)
    ensures var r := WalkEntry(entry, rel, depth, seen, c);
      r.Ok? ==> r.value.0 == Placed(rel, ListingAt(entry))
    decreases entry
  {
    if entry.name.Utf8? {
      var child := Child(rel, entry.name.text);
      match entry.node
      case Dir(below) =>
        WalkFinds(below, child, depth + 1, Saturate(seen + 1), c);
        var found := Listing(below);
        forall i | 0 <= i < |found|
          ensures Joined(rel, [entry.name.text] + found[i].path) == Joined(child, found[i].path)
        {
          assert ([entry.name.text] + found[i].path)[1..] == found[i].path;
        }
        assert Placed(rel, Under(entry.name.text, found)) == Placed(child, found);
      case File(content) =>
        assert Joined(rel, [entry.name.text]) == child by {
          assert [entry.name.text][1..] == [];
        }
      case _ =>
    }
  }

  lemma {:induction false} ListingIsFiles(entries: seq<Entry>, path: seq<Bytes>, content: Bytes)
    ensures Found(path, content) in Listing(entries) <==> HasFile(entries, path, content)
    decreases entries, 0
  {
    if entries != [] {
      ListingAtIsFiles(entries[0], path, content);
      ListingIsFiles(entries[1..], path, content);
      assert forall i :: 0 < i < |entries| ==> entries[i] == entries[1..][i - 1];
    }
  }

  lemma {:induction false} ListingAtIsFiles(entry: Entry, path: seq<Bytes>, content: Bytes)
    ensures Found(path, content) in ListingAt(entry)
       <==> path != [] && entry.name == Utf8(path[0]) && HasFileAt(entry.node, path, content)
    decreases entry
  {
    if |path| == 1 { assert path == [path[0]]; }
    if entry.name.Utf8? && entry.node.Dir? && !IsHidden(entry.name.text) {
      var name, found := entry.name.text, Listing(entry.node.entries);
      if path != [] {
        ListingIsFiles(entry.node.entries, path[1..], content);
        if path[0] == name && Found(path[1..], content) in found {
          var i :| 0 <= i < |found| && found[i] == Found(path[1..], content);
          assert [name] + path[1..] == path;
          assert Under(name, found)[i] == Found(path, content);
        }
      }
      if Found(path, content) in Under(name, found) {
        var i :| 0 <= i < |found| && Under(name, found)[i] == Found(path, content);
        assert path[1..] == found[i].path;
      }
    }
  }

  // ---- joined paths name files uniquely ----

  ghost predicate ValidPath(path: seq<Bytes>) {
    path != [] && forall i :: 0 <= i < |path| ==> IsComponent(path[i])
  }

  function Tail(path: seq<Bytes>): Bytes {
    if path == [] then [] else [SLASH] + (path[0] + Tail(path[1..]))
  }

  lemma {:induction false} JoinedTail(rel: Bytes, path: seq<Bytes>)
    requires rel != []
    ensures Joined(rel, path) == rel + Tail(path)
    decreases path
  {
    if path != [] {
      JoinedTail(Child(rel, path[0]), path[1..]);
      assert (rel + [SLASH] + path[0]) + Tail(path[1..]) == rel + ([SLASH] + (path[0] + Tail(path[1..])));
    }
  }

  function FirstSlash(s: Bytes): nat {
    if s == [] || s[0] == SLASH then 0 else 1 + FirstSlash(s[1..])
  }

  lemma {:induction false} FirstSlashAt(a: Bytes, r: Bytes)
    requires SLASH !in a && (r == [] || r[0] == SLASH)
    ensures FirstSlash(a + r) == |a|
  {
    if a == [] {
      assert a + r == r;
    } else {
      assert (a + r)[1..] == a[1..] + r;
      FirstSlashAt(a[1..], r);
    }
  }

  lemma {:induction false} ComponentCancel(a: Bytes, b: Bytes, r: Bytes, s: Bytes)
    requires SLASH !in a && SLASH !in b && a + r == b + s
    requires (r == [] || r[0] == SLASH) && (s == [] || s[0] == SLASH)
    ensures a == b && r == s
  {
    FirstSlashAt(a, r);
    FirstSlashAt(b, s);
    FixedCancel(a, b, r, s);
  }

  lemma {:induction false} TailInjective(p: seq<Bytes>, q: seq<Bytes>)
    requires forall i :: 0 <= i < |p| ==> IsComponent(p[i])
    requires forall i :: 0 <= i < |q| ==> IsComponent(q[i])
    requires Tail(p) == Tail(q)
    ensures p == q
  {
    if p != [] && q != [] {
      FixedCancel([SLASH], [SLASH], p[0] + Tail(p[1..]), q[0] + Tail(q[1..]));
      ComponentCancel(p[0], q[0], Tail(p[1..]), Tail(q[1..]));
      TailInjective(p[1..], q[1..]);
      assert p == [p[0]] + p[1..] && q == [q[0]] + q[1..];
    }
  }

  /** Two valid component paths that join alike are alike. */
  lemma {:induction false} JoinedInjective(p: seq<Bytes>, q: seq<Bytes>)
    requires ValidPath(p) && ValidPath(q) && Joined([], p) == Joined([], q)
    ensures p == q
  {
    JoinedTail(p[0], p[1..]);
    JoinedTail(q[0], q[1..]);
    ComponentCancel(p[0], q[0], Tail(p[1..]), Tail(q[1..]));
    TailInjective(p[1..], q[1..]);
    assert p == [p[0]] + p[1..] && q == [q[0]] + q[1..];
  }

  lemma {:induction false} FilesHaveValidPaths(
      entries: seq<Entry>, depth: nat, maxDepth: nat, path: seq<Bytes>, content: Bytes)
    requires Clean(entries, depth, maxDepth) && HasFile(entries, path, content)
    ensures ValidPath(path)
    decreases path
  {
    var i :| 0 <= i < |entries| && entries[i].name == Utf8(path[0]) && HasFileAt(entries[i].node, path, content);
    assert CleanAt(entries[i], depth, maxDepth);
    if entries[i].node.Dir? {
      FilesHaveValidPaths(entries[i].node.entries, depth + 1, maxDepth, path[1..], content);
      assert forall k :: 0 < k < |path| ==> path[k] == path[1..][k - 1];
    }
  }

  ghost predicate DistinctPaths(found: seq<Found>) {
    forall i, j :: 0 <= i < j < |found| ==> found[i].path != found[j].path
  }

  lemma {:induction false} ListingDistinct(entries: seq<Entry>)
    requires DistinctNames(entries)
    ensures DistinctPaths(Listing(entries))
    decreases entries, 0
  {
    if entries != [] {
      ListingAtDistinct(entries[0]);
      ListingDistinct(entries[1..]);
      var here, there := ListingAt(entries[0]), Listing(entries[1..]);
      forall i, j | 0 <= i < |here| && 0 <= j < |there| ensures here[i].path != there[j].path {
        ListingAtIsFiles(entries[0], here[i].path, here[i].content);
        ListingIsFiles(entries[1..], there[j].path, there[j].content);
      }
    }
  }

  lemma {:induction false} ListingAtDistinct(entry: Entry)
    requires DistinctBelow(entry)
    ensures DistinctPaths(ListingAt(entry))
    decreases entry
  {
    if entry.node.Dir? && entry.name.Utf8? && !IsHidden(entry.name.text) {
      ListingDistinct(entry.node.entries);
      var found := Listing(entry.node.entries);
      forall i, j | 0 <= i < j < |found|
        ensures [entry.name.text] + found[i].path != [entry.name.text] + found[j].path
      {
        assert ([entry.name.text] + found[i].path)[1..] == found[i].path;
        assert ([entry.name.text] + found[j].path)[1..] == found[j].path;
      }
    }
  }

  // ---- the stream ----

  predicate ByPath(a: FileAt, b: FileAt) {
    Keys.BytesLe(a.path, b.path)
  }

  /** The collected files in the order they are hashed. */
  function SortedFiles(entries: seq<Entry>): seq<FileAt> {
    Sort(ByPath, Placed([], Listing(entries)))
  }

  function FilesThen(files: seq<FileAt>, rest: Bytes): Bytes {
    if files == [] then rest else FrameThen(files[0].path, FrameThen(files[0].content, FilesThen(files[1..], rest)))
  }

  /** The bytes `hash_tree` hashes. */
  function TreeStream(files: seq<FileAt>): Bytes {
    FrameThen(Keys.TREE_TAG, Le64(Saturate(|files|)) + FilesThen(files, []))
  }

  /** Lengths a 64-bit process can hold. */
  ghost predicate HeldFiles(files: seq<FileAt>) {
    && Addressable(files)
    && forall i :: 0 <= i < |files| ==> Addressable(files[i].path) && Addressable(files[i].content)
  }

  lemma {:induction false} FilesCancel(a: seq<FileAt>, b: seq<FileAt>, r: Bytes, s: Bytes)
    requires |a| == |b| && HeldFiles(a) && HeldFiles(b) && FilesThen(a, r) == FilesThen(b, s)
    ensures a == b && r == s
  {
    if a != [] {
      FrameCancel(a[0].path, b[0].path, FrameThen(a[0].content, FilesThen(a[1..], r)),
                  FrameThen(b[0].content, FilesThen(b[1..], s)));
      FrameCancel(a[0].content, b[0].content, FilesThen(a[1..], r), FilesThen(b[1..], s));
      FilesCancel(a[1..], b[1..], r, s);
      assert a == [a[0]] + a[1..] && b == [b[0]] + b[1..];
    }
  }

  lemma {:induction false} TreeStreamInjective(a: seq<FileAt>, b: seq<FileAt>)
    requires HeldFiles(a) && HeldFiles(b) && TreeStream(a) == TreeStream(b)
    ensures a == b
  {
    FrameCancel(Keys.TREE_TAG, Keys.TREE_TAG, Le64(|a|) + FilesThen(a, []), Le64(|b|) + FilesThen(b, []));
    Le64Cancel(|a|, |b|, FilesThen(a, []), FilesThen(b, []));
    FilesCancel(a, b, [], []);
  }

  // ---- one stream per visible file set ----

  /** Path order, ties by content: a total order that agrees with `ByPath` on distinct paths. */
  predicate FileLe(a: FileAt, b: FileAt) {
    if a.path == b.path then Keys.BytesLe(a.content, b.content) else Keys.BytesLe(a.path, b.path)
  }

  lemma {:induction false} FileOrders()
    ensures TotalPreorder(ByPath) && TotalOrder(FileLe)
  {
    Keys.BytesTotalOrder();
  }

  /** The hashed order is the unique path-sorted listing of the visible files. */
  lemma {:induction false} SortedFilesFacts(entries: seq<Entry>, depth: nat, maxDepth: nat)
    requires Clean(entries, depth, maxDepth) && DistinctNames(entries)
    ensures Sorted(FileLe, SortedFiles(entries)) && Distinct(SortedFiles(entries))
    ensures forall f :: f in SortedFiles(entries) <==> f in Placed([], Listing(entries))
  {
    var found := Listing(entries);
    var placed, files := Placed([], found), SortedFiles(entries);
    ListingDistinct(entries);
    forall i, j | 0 <= i < j < |placed| ensures placed[i].path != placed[j].path {
      PlacedIsFile(entries, depth, maxDepth, i);
      PlacedIsFile(entries, depth, maxDepth, j);
      if placed[i].path == placed[j].path { JoinedInjective(found[i].path, found[j].path); }
    }
    FileOrders();
    SortSorted(ByPath, placed);
    forall f ensures f in files <==> f in placed { SameMembers(files, placed, f); }
    SortKeepsDistinctPaths(placed, files);
  }

  lemma {:induction false} PlacedIsFile(entries: seq<Entry>, depth: nat, maxDepth: nat, i: nat)
    requires Clean(entries, depth, maxDepth) && i < |Listing(entries)|
    ensures ValidPath(Listing(entries)[i].path)
  {
    var f := Listing(entries)[i];
    assert Found(f.path, f.content) in Listing(entries);
    ListingIsFiles(entries, f.path, f.content);
    FilesHaveValidPaths(entries, depth, maxDepth, f.path, f.content);
  }

  lemma {:induction false} SortKeepsDistinctPaths(placed: seq<FileAt>, files: seq<FileAt>)
    requires multiset(placed) == multiset(files)
    requires forall i, j :: 0 <= i < j < |placed| ==> placed[i].path != placed[j].path
    ensures forall i, j :: 0 <= i < j < |files| ==> files[i].path != files[j].path
  {
    forall i, j | 0 <= i < j < |files| ensures files[i].path != files[j].path {
      SameMembers(placed, files, files[i]);
      SameMembers(placed, files, files[j]);
      if files[i] == files[j] {
        DistinctCount(placed, files[i]);
        CountTwice(files, i, j);
      }
    }
  }

  lemma {:induction false} CountTwice<T>(s: seq<T>, i: nat, j: nat)
    requires i < j < |s| && s[i] == s[j]
    ensures multiset(s)[s[i]] >= 2
  {
    assert s == s[..j] + s[j..];
    assert s[i] in s[..j] && s[j] in s[j..];
    assert multiset(s) == multiset(s[..j]) + multiset(s[j..]);
  }

  /**
   * Two accepted trees hash the same bytes exactly when they hold the same
   * visible files, whatever order their directories were listed in.
   */
  lemma {:induction false} StreamIsVisibleFiles(a: seq<Entry>, b: seq<Entry>, maxDepth: nat)
    requires Clean(a, 0, maxDepth) && Clean(b, 0, maxDepth) && DistinctNames(a) && DistinctNames(b)
    requires HeldFiles(SortedFiles(a)) && HeldFiles(SortedFiles(b))
    ensures TreeStream(SortedFiles(a)) == TreeStream(SortedFiles(b)) <==> SameFiles(a, b)
  {
    if TreeStream(SortedFiles(a)) == TreeStream(SortedFiles(b)) {
      TreeStreamInjective(SortedFiles(a), SortedFiles(b));
      forall path, content ensures HasFile(a, path, content) <==> HasFile(b, path, content) {
        if HasFile(a, path, content) { SameSortedSameFile(a, b, maxDepth, path, content); }
        if HasFile(b, path, content) { SameSortedSameFile(b, a, maxDepth, path, content); }
      }
    }
    if SameFiles(a, b) { SameFilesSameSorted(a, b, maxDepth); }
  }

  ghost predicate SameFiles(a: seq<Entry>, b: seq<Entry>) {
    forall path, content :: HasFile(a, path, content) <==> HasFile(b, path, content)
  }

  lemma {:induction false} SameFilesSameSorted(a: seq<Entry>, b: seq<Entry>, maxDepth: nat)
    requires Clean(a, 0, maxDepth) && Clean(b, 0, maxDepth) && DistinctNames(a) && DistinctNames(b)
    requires SameFiles(a, b)
    ensures SortedFiles(a) == SortedFiles(b)
  {
    var fa, fb := SortedFiles(a), SortedFiles(b);
    SortedFilesFacts(a, 0, maxDepth);
    SortedFilesFacts(b, 0, maxDepth);
    forall f ensures f in fa <==> f in fb {
      if f in fa { SameFilesSamePlaced(a, b, f); }
      if f in fb { SameFilesSamePlaced(b, a, f); }
    }
    FileOrders();
    DistinctSameMultiset(fa, fb);
    SortedUnique(FileLe, fa, fb);
  }

  /** A visible file has a place among the sorted ones. */
  lemma {:induction false} FileIsSorted(a: seq<Entry>, maxDepth: nat, path: seq<Bytes>, content: Bytes)
      returns (i: nat)
    requires Clean(a, 0, maxDepth) && DistinctNames(a) && HasFile(a, path, content)
    ensures i < |Listing(a)| && Listing(a)[i] == Found(path, content)
    ensures Placed([], Listing(a))[i] in SortedFiles(a)
  {
    ListingIsFiles(a, path, content);
    i :| 0 <= i < |Listing(a)| && Listing(a)[i] == Found(path, content);
    SortedFilesFacts(a, 0, maxDepth);
  }

  lemma {:induction false} SameSortedSameFile(
      a: seq<Entry>, b: seq<Entry>, maxDepth: nat, path: seq<Bytes>, content: Bytes)
    requires Clean(a, 0, maxDepth) && Clean(b, 0, maxDepth) && DistinctNames(a) && DistinctNames(b)
    requires SortedFiles(a) == SortedFiles(b) && HasFile(a, path, content)
    ensures HasFile(b, path, content)
  {
    var la, lb := Listing(a), Listing(b);
    var i := FileIsSorted(a, maxDepth, path, content);
    SortedFilesFacts(b, 0, maxDepth);
    var j :| 0 <= j < |lb| && Placed([], lb)[j] == Placed([], la)[i];
    PlacedIsFile(a, 0, maxDepth, i);
    PlacedIsFile(b, 0, maxDepth, j);
    JoinedInjective(la[i].path, lb[j].path);
    assert Found(path, content) in lb;
    ListingIsFiles(b, path, content);
  }

  lemma {:induction false} SameFilesSamePlaced(a: seq<Entry>, b: seq<Entry>, f: FileAt)
    requires SameFiles(a, b)
    requires f in Placed([], Listing(a))
    ensures f in Placed([], Listing(b))
  {
    var la, lb := Listing(a), Listing(b);
    var i :| 0 <= i < |la| && Placed([], la)[i] == f;
    assert Found(la[i].path, la[i].content) in la;
    ListingIsFiles(a, la[i].path, la[i].content);
    ListingIsFiles(b, la[i].path, la[i].content);
    var j :| 0 <= j < |lb| && lb[j] == la[i];
    assert Placed([], lb)[j] == f;
  }

  // ---- hashing the files ----

  /** The byte budget: each file and the running total fit. */
  predicate Affordable(files: seq<FileAt>, total: nat, c: Ceiling) {
    files == [] ||
    (|files[0].content| <= c.perFile && Within(total + |files[0].content|, c.bytes)
     && Affordable(files[1..], total + |files[0].content|, c))
  }

  function TotalBytes(files: seq<FileAt>): nat {
    if files == [] then 0 else |files[0].content| + TotalBytes(files[1..])
  }

  /** The budget depends on the sizes alone: each file fits, and so does their sum. */
  lemma {:induction false} AffordableExactly(files: seq<FileAt>, total: nat, c: Ceiling)
    requires IsCeiling(c) && Within(total, c.bytes)
    ensures Affordable(files, total, c) <==>
      (forall f :: f in files ==> |f.content| <= c.perFile) && Within(total + TotalBytes(files), c.bytes)
  {
    if files != [] {
      assert files == [files[0]] + files[1..];
      if Within(total + |files[0].content|, c.bytes) { AffordableExactly(files[1..], total + |files[0].content|, c); }
    }
  }

  lemma {:induction false} TotalBytesInsert(x: FileAt, files: seq<FileAt>)
    ensures TotalBytes(Insert(ByPath, x, files)) == |x.content| + TotalBytes(files)
  {
    if files != [] && !ByPath(x, files[0]) { TotalBytesInsert(x, files[1..]); }
  }

  lemma {:induction false} TotalBytesSort(files: seq<FileAt>)
    ensures TotalBytes(Sort(ByPath, files)) == TotalBytes(files)
  {
    if files != [] {
      TotalBytesSort(files[1..]);
      TotalBytesInsert(files[0], Sort(ByPath, files[1..]));
    }
  }

  predicate AllWithin(found: seq<Found>, limit: nat) {
    forall i :: 0 <= i < |found| ==> |found[i].content| <= limit
  }

  /** A successful hash is refused or granted by the tree, not by how it was listed. */
  lemma {:induction false} HashingSucceedsExactly(entries: seq<Entry>, c: Ceiling)
    requires IsCeiling(c)
    ensures Affordable(SortedFiles(entries), 0, c) <==>
      AllWithin(Listing(entries), c.perFile) && Within(TotalBytes(Placed([], Listing(entries))), c.bytes)
  {
    TotalBytesSort(Placed([], Listing(entries)));
    HashingFoundSucceeds(Listing(entries), SortedFiles(entries), c);
  }

  lemma {:induction false} HashingFoundSucceeds(found: seq<Found>, files: seq<FileAt>, c: Ceiling)
    requires IsCeiling(c) && multiset(files) == multiset(Placed([], found))
    requires TotalBytes(files) == TotalBytes(Placed([], found))
    ensures Affordable(files, 0, c) <==> AllWithin(found, c.perFile) && Within(TotalBytes(Placed([], found)), c.bytes)
  {
    AffordableExactly(files, 0, c);
    SameSizes(found, Placed([], found), files, c.perFile);
  }

  lemma {:induction false} SameSizes(found: seq<Found>, placed: seq<FileAt>, files: seq<FileAt>, limit: nat)
    requires placed == Placed([], found) && multiset(files) == multiset(placed)
    ensures (forall f :: f in files ==> |f.content| <= limit) <==> AllWithin(found, limit)
  {
    forall f ensures f in files <==> f in placed { SameMembers(files, placed, f); }
    if AllWithin(found, limit) {
      forall f | f in files ensures |f.content| <= limit {
        var i :| 0 <= i < |placed| && placed[i] == f;
        assert |found[i].content| <= limit;
      }
    }
    if forall f :: f in files ==> |f.content| <= limit {
      forall i | 0 <= i < |found| ensures |found[i].content| <= limit {
        assert placed[i] in placed;
      }
    }
  }

  function Flatten(chunks: seq<Bytes>): Bytes {
    if chunks == [] then [] else chunks[0] + Flatten(chunks[1..])
  }

  /** What one read yields of the bytes on offer, `room` of which the reader may still take. */
  function OneRead(chunk: Bytes, room: nat): Bytes {
    if |chunk| <= room then chunk else chunk[..room]
  }

  /** The bytes a reader limited to `room` receives: reading ends at the limit or at the first empty read. */
  function Received(chunks: seq<Bytes>, room: nat): (r: Bytes)
    ensures |r| <= room
  {
    if room == 0 || chunks == [] || chunks[0] == [] then []
    else
      var chunk := OneRead(chunks[0], room);
      chunk + Received(chunks[1..], room - |chunk|)
  }

  /** How one file is judged: by the ceilings, then by whether as many bytes arrived as were declared. */
  function Verdict(declared: nat, chunks: seq<Bytes>, hashedSoFar: nat, c: Ceiling): Option<TreeError> {
    if declared > c.perFile || !Within(hashedSoFar + declared, c.bytes) then Some(TooManyBytes)
    else if |Received(chunks, declared)| != declared then Some(ChangedSize)
    else None
  }

  /**
   * `hash_one_file`: frame the declared length, then stream what a reader
   * limited to that length receives. A file that yields less is refused.
   */
  method HashOneFile(h: Hasher, declared: nat, chunks: seq<Bytes>, hashedSoFar: nat, c: Ceiling)
      returns (error: Option<TreeError>)
    requires IsCeiling(c) && declared <= U64_MAX && hashedSoFar <= U64_MAX
    modifies h
    ensures error == Verdict(declared, chunks, hashedSoFar, c)
    ensures error == None ==> h.stream == old(h.stream) + (Le64(declared) + Received(chunks, declared))
  {
    if declared > c.perFile {
      return Some(TooManyBytes);
    }
    if Saturate(hashedSoFar + declared) > c.bytes {
      return Some(TooManyBytes);
    }
    h.Update(Le64(declared), Received(chunks, declared));
    var total := StreamChunks(h, chunks, declared);
    if total != declared {
      return Some(ChangedSize);
    }
    return None;
  }

  /** Its read loop. */
  method StreamChunks(h: Hasher, chunks: seq<Bytes>, declared: nat) returns (total: nat)
    modifies h
    ensures total == |Received(chunks, declared)|
    ensures h.stream == old(h.stream) + Received(chunks, declared)
  {
    total := 0;
    var k := 0;
    assert chunks[0..] == chunks;
    while k < |chunks|
      invariant k <= |chunks| && total <= declared
      invariant h.stream + Received(chunks[k..], declared - total) == old(h.stream) + Received(chunks, declared)
      invariant total + |Received(chunks[k..], declared - total)| == |Received(chunks, declared)|
    {
      var chunk := OneRead(chunks[k], declared - total);
      if |chunk| == 0 {
        break;
      }
      assert chunks[k..][1..] == chunks[k + 1..];
      h.Update(chunk, Received(chunks[k + 1..], declared - total - |chunk|));
      total, k := total + |chunk|, k + 1;
    }
    assert Received(chunks[k..], declared - total) == [] && h.stream + [] == h.stream;
  }

  /** No read is empty before the end. */
  ghost predicate Unbroken(chunks: seq<Bytes>) {
    forall k :: 0 <= k < |chunks| ==> chunks[k] != []
  }

  /** A limited reader receives the front of what is there. */
  lemma {:induction false} ReceivedIsTheFront(chunks: seq<Bytes>, room: nat)
    requires Unbroken(chunks)
    ensures Received(chunks, room) == OneRead(Flatten(chunks), room)
  {
    if room != 0 && chunks != [] {
      var chunk := OneRead(chunks[0], room);
      assert Unbroken(chunks[1..]) by {
        assert forall k :: 0 <= k < |chunks[1..]| ==> chunks[1..][k] == chunks[k + 1];
      }
      ReceivedIsTheFront(chunks[1..], room - |chunk|);
      if |chunks[0]| >= room {
        assert Received(chunks[1..], 0) == [];
        assert Flatten(chunks)[..room] == chunks[0][..room];
      }
    }
  }

  /**
   * Within the ceilings a file is hashed exactly when at least the declared bytes
   * are there, and then as its first bytes: it is refused for a changed size
   * exactly when it shrank, and never because it grew.
   */
  lemma {:induction false} OnlyShrinkingIsRefused(declared: nat, chunks: seq<Bytes>, hashedSoFar: nat, c: Ceiling)
    requires Unbroken(chunks) && declared <= c.perFile && Within(hashedSoFar + declared, c.bytes)
    ensures Verdict(declared, chunks, hashedSoFar, c) == None <==> declared <= |Flatten(chunks)|
    ensures Verdict(declared, chunks, hashedSoFar, c) == Some(ChangedSize) <==> |Flatten(chunks)| < declared
    ensures declared <= |Flatten(chunks)| ==> Received(chunks, declared) == Flatten(chunks)[..declared]
  {
    ReceivedIsTheFront(chunks, declared);
  }

  /** One byte declared and two delivered: the file grew, and its first byte is hashed. */
  lemma {:induction false} GrownFileIsHashed(first: byte, second: byte, hashedSoFar: nat, c: Ceiling)
    requires 1 <= c.perFile && Within(hashedSoFar + 1, c.bytes)
    ensures Unbroken([[first, second]]) && |Flatten([[first, second]])| == 2
    ensures Verdict(1, [[first, second]], hashedSoFar, c) == None && Received([[first, second]], 1) == [first]
  {
    var chunks := [[first, second]];
    assert Flatten(chunks) == chunks[0] + Flatten(chunks[1..]) && chunks[1..] == [];
    OnlyShrinkingIsRefused(1, chunks, hashedSoFar, c);
    assert Flatten(chunks)[..1] == [first];
  }

  /** A reader of stable files: it returns each file's bytes, cut into whatever non-empty chunks it likes. */
  ghost predicate StableReader(read: Bytes -> seq<Bytes>) {
    forall content :: Flatten(read(content)) == content && Unbroken(read(content))
  }

  /** One file of the tree: its path, then its framed content. */
  method HashFileAt(h: Hasher, file: FileAt, read: Bytes -> seq<Bytes>, hashedSoFar: nat, c: Ceiling, ghost left: Bytes)
      returns (error: Option<TreeError>)
    requires IsCeiling(c) && StableReader(read) && Addressable(file.content) && hashedSoFar <= U64_MAX
    modifies h
    ensures error == None <==> |file.content| <= c.perFile && Within(hashedSoFar + |file.content|, c.bytes)
    ensures error == None ==> h.stream + left == old(h.stream) + FrameThen(file.path, FrameThen(file.content, left))
  {
    h.UpdateLenPrefixed(file.path, FrameThen(file.content, left));
    ghost var named := h.stream;
    ReceivedIsTheFront(read(file.content), |file.content|);
    error := HashOneFile(h, |file.content|, read(file.content), hashedSoFar, c);
    if error == None {
      assert (named + (Le64(|file.content|) + file.content)) + left == named + FrameThen(file.content, left);
    }
  }

  method HashFiles(h: Hasher, files: seq<FileAt>, read: Bytes -> seq<Bytes>, c: Ceiling)
      returns (error: Option<TreeError>)
    requires IsCeiling(c) && StableReader(read) && HeldFiles(files)
    modifies h
    ensures error == None <==> Affordable(files, 0, c)
    ensures error == None ==> h.stream == old(h.stream) + FilesThen(files, [])
  {
    var total: nat := 0;
    assert files[0..] == files;
    for k := 0 to |files|
      invariant h.stream + FilesThen(files[k..], []) == old(h.stream) + FilesThen(files, [])
      invariant Within(total, c.bytes) && (Affordable(files, 0, c) <==> Affordable(files[k..], total, c))
    {
      assert files[k..][1..] == files[k + 1..];
      error := HashFileAt(h, files[k], read, Saturate(total), c, FilesThen(files[k + 1..], []));
      if error.Some? {
        return;
      }
      total := total + |files[k].content|;
    }
    assert h.stream + [] == h.stream;
    error := None;
  }

  /** The tag, the file count, then every file. */
  method HashTree(files: seq<FileAt>, read: Bytes -> seq<Bytes>, c: Ceiling)
      returns (error: Option<TreeError>, h: Hasher)
    requires IsCeiling(c) && StableReader(read) && HeldFiles(files)
    ensures error == None <==> Affordable(files, 0, c)
    ensures error == None ==> h.stream == TreeStream(files)
  {
    h := new Hasher();
    h.UpdateLenPrefixed(Keys.TREE_TAG, Le64(Saturate(|files|)) + FilesThen(files, []));
    h.Update(Le64(Saturate(|files|)), FilesThen(files, []));
    error := HashFiles(h, files, read, c);
  }

  lemma {:induction false} WalkFromRoot(entries: seq<Entry>, c: Ceiling)
    requires IsCeiling(c)
    ensures var r := WalkDir(entries, [], 0, 0, c);
      && (r.Ok? <==> Clean(entries, 0, c.depth) && Within(Visited(entries), c.entries))
      && (r.Ok? ==> [] + r.value.0 == Placed([], Listing(entries)))
  {
    WalkSucceedsExactly(entries, [], 0, 0, c);
    WalkFinds(entries, [], 0, 0, c);
  }

  /** `tree_hasher_within`: walk, sort by path, frame and stream. */
  method TreeHasherWithin(entries: seq<Entry>, read: Bytes -> seq<Bytes>, c: Ceiling)
      returns (error: Option<TreeError>, stream: Bytes)
    requires IsCeiling(c) && StableReader(read) && HeldFiles(SortedFiles(entries))
    ensures error == None <==> Accepted(entries, c)
    ensures error == None ==> stream == TreeStream(SortedFiles(entries))
  {
    var failed, out, seen := CollectFiles(entries, [], [], 0, c, 0);
    WalkFromRoot(entries, c);
    if failed.Some? {
      return failed, [];
    }
    var files := Sort(ByPath, out);
    var h;
    error, h := HashTree(files, read, c);
    stream := h.stream;
  }

  // ---- listing order ----

  /** `b` lists the tree of `a`, each directory in any order. */
  ghost predicate Relisted(a: seq<Entry>, b: seq<Entry>)
    decreases a, 0
  {
    |a| == |b| &&
    (a == [] || exists j :: 0 <= j < |b| && RelistedAt(a[0], b[j]) && Relisted(a[1..], Without(b, j)))
  }

  ghost predicate RelistedAt(x: Entry, y: Entry)
    decreases x
  {
    x.name == y.name && (x.node == y.node || (x.node.Dir? && y.node.Dir? && Relisted(x.node.entries, y.node.entries)))
  }

  /** Every rearrangement of a listing relists it. */
  lemma {:induction false} RearrangedIsRelisted(a: seq<Entry>, b: seq<Entry>)
    requires multiset(a) == multiset(b)
    ensures Relisted(a, b)
    decreases a
  {
    assert |multiset(a)| == |multiset(b)|;
    if a != [] {
      SameMembers(a, b, a[0]);
      var j :| 0 <= j < |b| && b[j] == a[0];
      MatchedOff(a, b, j);
      RearrangedIsRelisted(a[1..], Without(b, j));
    }
  }

  lemma {:induction false} VisitedConcat(a: seq<Entry>, b: seq<Entry>)
    ensures Visited(a + b) == Visited(a) + Visited(b)
  {
    if a == [] {
      assert a + b == b;
    } else {
      assert (a + b)[1..] == a[1..] + b;
      VisitedConcat(a[1..], b);
    }
  }

  lemma {:induction false} VisitedWithout(b: seq<Entry>, j: nat)
    requires j < |b|
    ensures Visited(b) == VisitedAt(b[j]) + Visited(Without(b, j))
  {
    assert b == b[..j] + ([b[j]] + b[j + 1..]);
    VisitedConcat(b[..j], [b[j]] + b[j + 1..]);
    VisitedConcat([b[j]], b[j + 1..]);
    VisitedConcat(b[..j], b[j + 1..]);
    assert [b[j]][1..] == [];
  }

  /** A property of every entry is a property of one and of every other. */
  lemma {:induction false} EachWithout(b: seq<Entry>, j: nat, k: nat)
    requires j < |b| && k < |b|
    ensures k == j || b[k] in Without(b, j)
    ensures k < |b| - 1 ==> Without(b, j)[k] in b
  {
    if k < j { assert Without(b, j)[k] == b[k]; }
    if k > j { assert Without(b, j)[k - 1] == b[k]; }
    if k < |b| - 1 { assert Without(b, j)[k] == b[if k < j then k else k + 1]; }
  }

  /** Relisting keeps the number of visited entries. */
  lemma {:induction false} RelistingKeepsVisited(a: seq<Entry>, b: seq<Entry>)
    requires Relisted(a, b)
    ensures Visited(a) == Visited(b)
    decreases a, 0
  {
    if a != [] {
      var j :| 0 <= j < |b| && RelistedAt(a[0], b[j]) && Relisted(a[1..], Without(b, j));
      RelistingKeepsVisitedAt(a[0], b[j]);
      RelistingKeepsVisited(a[1..], Without(b, j));
      VisitedWithout(b, j);
    }
  }

  lemma {:induction false} RelistingKeepsVisitedAt(x: Entry, y: Entry)
    requires RelistedAt(x, y)
    ensures VisitedAt(x) == VisitedAt(y)
    decreases x
  {
    if x.node != y.node { RelistingKeepsVisited(x.node.entries, y.node.entries); }
  }

  /** Relisting keeps whether anything visited is refused. */
  lemma {:induction false} RelistingKeepsClean(a: seq<Entry>, b: seq<Entry>, depth: nat, maxDepth: nat)
    requires Relisted(a, b)
    ensures Clean(a, depth, maxDepth) <==> Clean(b, depth, maxDepth)
    decreases a, 0
  {
    if a != [] {
      var j :| 0 <= j < |b| && RelistedAt(a[0], b[j]) && Relisted(a[1..], Without(b, j));
      RelistingKeepsCleanAt(a[0], b[j], depth, maxDepth);
      RelistingKeepsClean(a[1..], Without(b, j), depth, maxDepth);
      forall k | 0 <= k < |b| ensures k == j || b[k] in Without(b, j) { EachWithout(b, j, k); }
      forall k | 0 <= k < |b| - 1 ensures Without(b, j)[k] in b { EachWithout(b, j, k); }
      assert forall k :: 0 <= k < |a| - 1 ==> a[1..][k] == a[k + 1];
      assert forall k :: 0 < k < |a| ==> a[k] == a[1..][k - 1];
    }
  }

  lemma {:induction false} RelistingKeepsCleanAt(x: Entry, y: Entry, depth: nat, maxDepth: nat)
    requires RelistedAt(x, y)
    ensures CleanAt(x, depth, maxDepth) <==> CleanAt(y, depth, maxDepth)
    decreases x
  {
    if x.node != y.node { RelistingKeepsClean(x.node.entries, y.node.entries, depth + 1, maxDepth); }
  }

  /** Relisting keeps the files. */
  lemma {:induction false} RelistingKeepsFiles(a: seq<Entry>, b: seq<Entry>, path: seq<Bytes>, content: Bytes)
    requires Relisted(a, b)
    ensures HasFile(a, path, content) <==> HasFile(b, path, content)
    decreases a, 0
  {
    if a != [] && path != [] {
      var j :| 0 <= j < |b| && RelistedAt(a[0], b[j]) && Relisted(a[1..], Without(b, j));
      RelistingKeepsFilesAt(a[0], b[j], path, content);
      RelistingKeepsFiles(a[1..], Without(b, j), path, content);
      HasFileWithout(a, 0, path, content);
      HasFileWithout(b, j, path, content);
      assert Without(a, 0) == a[1..];
    }
  }

  lemma {:induction false} RelistingKeepsFilesAt(x: Entry, y: Entry, path: seq<Bytes>, content: Bytes)
    requires RelistedAt(x, y) && path != []
    ensures HasFileAt(x.node, path, content) <==> HasFileAt(y.node, path, content)
    decreases x
  {
    if x.node != y.node { RelistingKeepsFiles(x.node.entries, y.node.entries, path[1..], content); }
  }

  lemma {:induction false} HasFileWithout(b: seq<Entry>, j: nat, path: seq<Bytes>, content: Bytes)
    requires j < |b| && path != []
    ensures HasFile(b, path, content) <==>
      (b[j].name == Utf8(path[0]) && HasFileAt(b[j].node, path, content)) || HasFile(Without(b, j), path, content)
  {
    if HasFile(b, path, content) {
      var k :| 0 <= k < |b| && b[k].name == Utf8(path[0]) && HasFileAt(b[k].node, path, content);
      EachWithout(b, j, k);
    }
    if HasFile(Without(b, j), path, content) {
      var k :| 0 <= k < |b| - 1 && Without(b, j)[k].name == Utf8(path[0]) &&
        HasFileAt(Without(b, j)[k].node, path, content);
      EachWithout(b, j, k);
    }
  }

  lemma {:induction false} RelistingKeepsNames(a: seq<Entry>, b: seq<Entry>, name: Name)
    requires Relisted(a, b)
    ensures (exists y :: y in b && y.name == name) ==> exists x :: x in a && x.name == name
    decreases a
  {
    if a != [] && exists y :: y in b && y.name == name {
      var j :| 0 <= j < |b| && RelistedAt(a[0], b[j]) && Relisted(a[1..], Without(b, j));
      var k :| 0 <= k < |b| && b[k].name == name;
      EachWithout(b, j, k);
      RelistingKeepsNames(a[1..], Without(b, j), name);
      assert a[0] in a;
    }
  }

  /** A relisting lists each name once, as the original does. */
  lemma {:induction false} RelistingKeepsDistinct(a: seq<Entry>, b: seq<Entry>)
    requires Relisted(a, b) && DistinctNames(a)
    ensures DistinctNames(b)
    decreases a, 0
  {
    if a != [] {
      var j :| 0 <= j < |b| && RelistedAt(a[0], b[j]) && Relisted(a[1..], Without(b, j));
      RelistingKeepsDistinctAt(a[0], b[j]);
      RelistingKeepsDistinct(a[1..], Without(b, j));
      RelistingKeepsNames(a[1..], Without(b, j), b[j].name);
      forall k | 0 <= k < |b| && k != j ensures b[k].name != b[j].name && DistinctBelow(b[k]) {
        EachWithout(b, j, k);
      }
      NamesOnceWithout(b, j);
    }
  }

  lemma {:induction false} RelistingKeepsDistinctAt(x: Entry, y: Entry)
    requires RelistedAt(x, y) && DistinctBelow(x)
    ensures DistinctBelow(y)
    decreases x
  {
    if x.node != y.node { RelistingKeepsDistinct(x.node.entries, y.node.entries); }
  }

  lemma {:induction false} NamesOnceWithout(b: seq<Entry>, j: nat)
    requires j < |b| && NamesOnce(Without(b, j)) && forall k :: 0 <= k < |b| && k != j ==> b[k].name != b[j].name
    ensures NamesOnce(b)
  {
    forall i, k | 0 <= i < k < |b| ensures b[i].name != b[k].name {
      if i != j && k != j {
        assert Without(b, j)[if i < j then i else i - 1] == b[i] && Without(b, j)[if k < j then k else k - 1] == b[k];
      }
    }
  }

  ghost predicate Accepted(entries: seq<Entry>, c: Ceiling) {
    Clean(entries, 0, c.depth) && Within(Visited(entries), c.entries) && Affordable(SortedFiles(entries), 0, c)
  }

  /** However every directory is listed, a tree is accepted alike and hashes the same bytes. */
  lemma {:induction false} ListingOrderIsInvisible(a: seq<Entry>, b: seq<Entry>, c: Ceiling)
    requires Relisted(a, b) && DistinctNames(a)
    ensures Accepted(a, c) <==> Accepted(b, c)
    ensures Accepted(a, c) ==> TreeStream(SortedFiles(a)) == TreeStream(SortedFiles(b))
  {
    RelistingKeepsVisited(a, b);
    RelistingKeepsClean(a, b, 0, c.depth);
    RelistingKeepsDistinct(a, b);
    forall path, content ensures HasFile(a, path, content) <==> HasFile(b, path, content) {
      RelistingKeepsFiles(a, b, path, content);
    }
    if Clean(a, 0, c.depth) { SameFilesSameSorted(a, b, c.depth); }
  }
}
