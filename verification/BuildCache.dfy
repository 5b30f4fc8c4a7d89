/**
 * The two-tier build cache over whole runs.
 *
 * A build first looks for its emitted project, then for its lowered program to
 * emit from, and only then compiles. The disk outlives builds, compilers and
 * option changes.
 */
module BuildCache {
  import opened Prelude
  import opened Framing
  import opened Keys

  /** Emission inputs that reach the backend but not the project key. */
  datatype Unhashed = Unhashed(cargoName: Bytes, hydrate: bool, widgetFiles: map<Bytes, Bytes>)

  /**
   * One compiler: the stages of the pipeline and the serializers of the two
   * tiers. `finish` is everything after lowering on the uncached path (gates,
   * constant folding, split emission, widget splice); `fastEmit` is the
   * backend call the IR tier makes on a loaded program.
   */
  datatype Toolchain<!P, !E> = Toolchain(
    lower: (Path, map<Path, Module>) -> Option<P>,
    finish: (P, Inputs, Unhashed) -> Option<E>,
    fastEmit: (P, Inputs, Unhashed) -> Option<E>,
    usesDebug: P -> bool,
    encodeProject: E -> Option<Bytes>,
    decodeProject: Bytes -> Option<E>,
    encodeIr: P -> Option<Bytes>,
    decodeIr: Bytes -> Option<P>)

  /** What is stored reads back: serialization loses nothing. */
  ghost predicate Lawful<P(!new), E(!new)>(tc: Toolchain<P, E>) {
    && (forall e :: tc.encodeProject(e).Some? ==> tc.decodeProject(tc.encodeProject(e).value) == Some(e))
    && (forall p :: tc.encodeIr(p).Some? ==> tc.decodeIr(tc.encodeIr(p).value) == Some(p))
  }

  /** The build with no cache at all; `None` is a refused program. */
  function FullCompile<P, E>(tc: Toolchain<P, E>, i: Inputs, u: Unhashed): Option<E> {
    match tc.lower(i.entry, i.modules)
    case None => None
    case Some(p) => tc.finish(p, i, u)
  }

  // ---- the disk ----

  const ENTRY_CAP: nat := 64 * 1024 * 1024

  datatype Address = Address(epoch: string, file: string)
  type Disk = map<Address, Bytes>

  /** One plain path component. */
  predicate IsOneSpelledName(name: string) {
    name != "" && name != "." && name != ".." && '/' !in name && '\0' !in name
  }

  function Read(disk: Disk, a: Address): Option<Bytes> {
    if IsOneSpelledName(a.epoch) && IsOneSpelledName(a.file) && a in disk && |disk[a]| <= ENTRY_CAP
    then Some(disk[a]) else None
  }

  /** A best-effort write: refused past the cap or off-name, and lost when `wrote` is false. */
  function Write(disk: Disk, a: Address, bytes: Bytes, wrote: bool): Disk {
    if wrote && |bytes| <= ENTRY_CAP && IsOneSpelledName(a.epoch) && IsOneSpelledName(a.file)
    then disk[a := bytes] else disk
  }

  function TryLoad<P, E>(tc: Toolchain<P, E>, disk: Disk, epoch: string, key: string): Option<E> {
    match Read(disk, Address(epoch, EntryFileName(key)))
    case None => None
    case Some(bytes) => tc.decodeProject(bytes)
  }

  function TryLoadIr<P, E>(tc: Toolchain<P, E>, disk: Disk, epoch: string, key: string): Option<P> {
    match Read(disk, Address(epoch, IrEntryFileName(key)))
    case None => None
    case Some(bytes) => tc.decodeIr(bytes)
  }

  function Store<P, E>(tc: Toolchain<P, E>, disk: Disk, epoch: string, key: string, e: E, wrote: bool): Disk {
    match tc.encodeProject(e)
    case None => disk
    case Some(bytes) => Write(disk, Address(epoch, EntryFileName(key)), bytes, wrote)
  }

  function StoreIr<P, E>(tc: Toolchain<P, E>, disk: Disk, epoch: string, key: string, p: P, wrote: bool): Disk {
    match tc.encodeIr(p)
    case None => disk
    case Some(bytes) => Write(disk, Address(epoch, IrEntryFileName(key)), bytes, wrote)
  }

  // ---- one build ----

  /**
   * One build request. `cacheable` holds when a cache site exists, the epoch
   * probes succeeded, and neither foreign bindings nor the dependency-model
   * runtime is in use; `wroteProject` and `wroteIr` say which advisory writes
   * land.
   */
  datatype Request = Request(epoch: string, inputs: Inputs, unhashed: Unhashed, cacheable: bool,
                             wroteProject: bool, wroteIr: bool)

  /** What the IR tier answers for a loaded program: `None` is "fall through to the pipeline". */
  function FastPath<P, E>(tc: Toolchain<P, E>, p: P, i: Inputs, u: Unhashed): Option<Option<E>> {
    if i.intent.Release? && tc.usesDebug(p) then Some(None)
    else match tc.fastEmit(p, i, u)
         case None => None
         case Some(e) => Some(Some(e))
  }

  /** The uncached path, then both stores. */
  function SlowBuild<P, E>(tc: Toolchain<P, E>, disk: Disk, r: Request, key: string, irKey: string): (Disk, Option<E>) {
    match FullCompile(tc, r.inputs, r.unhashed)
    case None => (disk, None)
    case Some(e) =>
      var stored := Store(tc, disk, r.epoch, key, e, r.wroteProject);
      match tc.lower(r.inputs.entry, r.inputs.modules)
      case None => (stored, Some(e))
      case Some(p) => (StoreIr(tc, stored, r.epoch, irKey, p, r.wroteIr), Some(e))
  }

  /** The new disk and the project of one build, given the two content addresses. */
  function BuildWith<P, E>(tc: Toolchain<P, E>, disk: Disk, r: Request, key: string, irKey: string)
    : (Disk, Option<E>)
  {
    if !r.cacheable then (disk, FullCompile(tc, r.inputs, r.unhashed))
    else match TryLoad(tc, disk, r.epoch, key)
         case Some(e) => (disk, Some(e))
         case None =>
           match TryLoadIr(tc, disk, r.epoch, irKey)
           case None => SlowBuild(tc, disk, r, key, irKey)
           case Some(p) =>
             match FastPath(tc, p, r.inputs, r.unhashed)
             case None => SlowBuild(tc, disk, r, key, irKey)
             case Some(None) => (disk, None)
             case Some(Some(e)) => (Store(tc, disk, r.epoch, key, e, r.wroteProject), Some(e))
  }

  ghost function ProjectKey(digest: Bytes -> string, i: Inputs): string { digest(ProjectStream(i)) }
  ghost function IrKey(digest: Bytes -> string, i: Inputs): string { digest(IrStream(IrPart(i))) }

  ghost function Build<P, E>(tc: Toolchain<P, E>, digest: Bytes -> string, disk: Disk, r: Request)
    : (Disk, Option<E>)
  {
    BuildWith(tc, disk, r, ProjectKey(digest, r.inputs), IrKey(digest, r.inputs))
  }

  // ---- whole runs ----

  datatype Event = BuildOf(request: Request) | Delete(at: Address) | Damage(at: Address, bytes: Bytes)

  type World<!P, !E> = string -> Toolchain<P, E>

  ghost predicate IsEpoch(s: string) {
    s != "" && IsHex(s)
  }

  ghost predicate ValidEvent<P, E>(world: World<P, E>, ev: Event) {
    match ev
    case BuildOf(r) => IsEpoch(r.epoch) && Fits(r.inputs)
    case Delete(_) => true
    case Damage(at, bytes) => world(at.epoch).decodeProject(bytes) == None && world(at.epoch).decodeIr(bytes) == None
  }

  ghost function After<P, E>(world: World<P, E>, digest: Bytes -> string, disk: Disk, ev: Event): Disk {
    match ev
    case BuildOf(r) => Build(world(r.epoch), digest, disk, r).0
    case Delete(at) => disk - {at}
    case Damage(at, bytes) => disk[at := bytes]
  }

  /** The build of `ev`, if it is one, yields what an uncached compile of its inputs yields. */
  ghost predicate Unobservable<P, E>(world: World<P, E>, digest: Bytes -> string, disk: Disk, ev: Event) {
    ev.BuildOf? ==>
      var r := ev.request;
      Build(world(r.epoch), digest, disk, r).1 == FullCompile(world(r.epoch), r.inputs, r.unhashed)
  }

  /** Every build of the run is unobservable. */
  ghost predicate Transparent<P, E>(world: World<P, E>, digest: Bytes -> string, disk: Disk, run: seq<Event>)
    decreases run
  {
    run == [] ||
    (Unobservable(world, digest, disk, run[0]) &&
      Transparent(world, digest, After(world, digest, disk, run[0]), run[1..]))
  }

  ghost predicate HexDigest(digest: Bytes -> string) {
    forall s :: IsHex(digest(s))
  }

  /** The digest names hashes in hex and tells apart the streams of `universe`. */
  ghost predicate CollisionFree(digest: Bytes -> string, universe: iset<Bytes>) {
    && HexDigest(digest)
    && (forall s, t :: s in universe && t in universe && digest(s) == digest(t) ==> s == t)
  }

  ghost predicate Covers(universe: iset<Bytes>, ev: Event) {
    ev.BuildOf? ==> ProjectStream(ev.request.inputs) in universe && IrStream(IrPart(ev.request.inputs)) in universe
  }

  /** The toolchain of every epoch reads back what it writes. */
  ghost predicate LawfulWorld<P(!new), E(!new)>(world: World<P, E>) {
    forall epoch :: IsEpoch(epoch) ==> Lawful(world(epoch))
  }

  ghost predicate ValidRun<P, E>(world: World<P, E>, run: seq<Event>) {
    forall k :: 0 <= k < |run| ==> ValidEvent(world, run[k])
  }

  // ---- what a store changes ----

  ghost predicate Fitting(bytes: Option<Bytes>) {
    bytes.Some? && |bytes.value| <= ENTRY_CAP
  }

  /** A project store changes what one project address loads, and nothing else. */
  lemma {:induction false} StoreEffect<P(!new), E(!new)>(
      tc: Toolchain<P, E>, disk: Disk, epoch: string, key: string, e: E, wrote: bool, tc': Toolchain<P, E>,
      epoch': string, key': string)
    requires Lawful(tc) && IsHex(key) && IsHex(key')
    ensures var disk' := Store(tc, disk, epoch, key, e, wrote);
      && TryLoadIr(tc', disk', epoch', key') == TryLoadIr(tc', disk, epoch', key')
      && (TryLoad(tc', disk', epoch', key') == TryLoad(tc', disk, epoch', key')
          || (epoch' == epoch && key' == key && wrote && Fitting(tc.encodeProject(e))
              && (tc' == tc ==> TryLoad(tc', disk', epoch', key') == Some(e))))
  {
    FileNamesJointlyInjective(key, key');
  }

  /** A program store changes what one program address loads, and nothing else. */
  lemma {:induction false} StoreIrEffect<P(!new), E(!new)>(
      tc: Toolchain<P, E>, disk: Disk, epoch: string, key: string, p: P, wrote: bool, tc': Toolchain<P, E>,
      epoch': string, key': string)
    requires Lawful(tc) && IsHex(key) && IsHex(key')
    ensures var disk' := StoreIr(tc, disk, epoch, key, p, wrote);
      && TryLoad(tc', disk', epoch', key') == TryLoad(tc', disk, epoch', key')
      && (TryLoadIr(tc', disk', epoch', key') == TryLoadIr(tc', disk, epoch', key')
          || (epoch' == epoch && key' == key && wrote && Fitting(tc.encodeIr(p))
              && (tc' == tc ==> TryLoadIr(tc', disk', epoch', key') == Some(p))))
  {
    FileNamesJointlyInjective(key, key');
    FileNamesJointlyInjective(key', key);
  }

  /** A write that fits is read back. */
  lemma {:induction false} StoreLands<P(!new), E(!new)>(
      tc: Toolchain<P, E>, disk: Disk, epoch: string, key: string, e: E)
    requires Lawful(tc) && IsEpoch(epoch) && IsHex(key)
    ensures Fitting(tc.encodeProject(e)) ==> TryLoad(tc, Store(tc, disk, epoch, key, e, true), epoch, key) == Some(e)
  {
    NamesAreSpelled(epoch, key);
  }

  lemma {:induction false} StoreIrLands<P(!new), E(!new)>(
      tc: Toolchain<P, E>, disk: Disk, epoch: string, key: string, p: P)
    requires Lawful(tc) && IsEpoch(epoch) && IsHex(key)
    ensures Fitting(tc.encodeIr(p)) ==> TryLoadIr(tc, StoreIr(tc, disk, epoch, key, p, true), epoch, key) == Some(p)
  {
    NamesAreSpelled(epoch, key);
  }

  /** What is over the cap, or under a name of more than one component, is neither read nor written. */
  lemma {:induction false} OnlyHoldableEntries(disk: Disk, a: Address, bytes: Bytes, wrote: bool)
    ensures a in disk && |disk[a]| > ENTRY_CAP ==> Read(disk, a) == None
    ensures |bytes| > ENTRY_CAP ==> Write(disk, a, bytes, wrote) == disk
    ensures !IsOneSpelledName(a.epoch) || !IsOneSpelledName(a.file) ==>
      Read(disk, a) == None && Write(disk, a, bytes, wrote) == disk
  {
  }

  lemma {:induction false} NamesAreSpelled(epoch: string, key: string)
    requires IsEpoch(epoch) && IsHex(key)
    ensures IsOneSpelledName(epoch) && IsOneSpelledName(EntryFileName(key)) && IsOneSpelledName(IrEntryFileName(key))
  {
    assert epoch[0] != '.';
    assert EntryFileName(key)[|key| + 1] == 'j' && IrEntryFileName(key)[|key| + 1] == 'i';
  }

  // ---- the cache as the driver updates it ----

  /** The cache directory: the mutable disk both tiers share. */
  class CacheDir {
    var disk: Disk

    constructor ()
      ensures disk == map[]
    {
      disk := map[];
    }

    method WriteEntry(epoch: string, file: string, bytes: Bytes, wrote: bool)
      modifies this
      ensures disk == Write(old(disk), Address(epoch, file), bytes, wrote)
    {
      if |bytes| > ENTRY_CAP || !IsOneSpelledName(epoch) || !IsOneSpelledName(file) {
        return;
      }
      if wrote {
        disk := disk[Address(epoch, file) := bytes];
      }
    }

    method StoreProject<P, E>(tc: Toolchain<P, E>, epoch: string, key: string, e: E, wrote: bool)
      modifies this
      ensures disk == Store(tc, old(disk), epoch, key, e, wrote)
    {
      var json := tc.encodeProject(e);
      if json.Some? {
        WriteEntry(epoch, EntryFileName(key), json.value, wrote);
      }
    }

    method StoreProgram<P, E>(tc: Toolchain<P, E>, epoch: string, key: string, p: P, wrote: bool)
      modifies this
      ensures disk == StoreIr(tc, old(disk), epoch, key, p, wrote)
    {
      var json := tc.encodeIr(p);
      if json.Some? {
        WriteEntry(epoch, IrEntryFileName(key), json.value, wrote);
      }
    }

    /** `compile_modules_observed`: project hit, else program hit and emit, else compile. */
    method CompileModules<P, E>(
        tc: Toolchain<P, E>, digest: Bytes -> string, sources: map<Path, (Bytes, Bytes)>, injected: set<Path>,
        request: Request) returns (project: Option<E>)
      requires request.inputs.modules == TaggedModules(sources, injected)
      modifies this
      ensures (disk, project) == Build(tc, digest, old(disk), request)
    {
      var i, u, epoch := request.inputs, request.unhashed, request.epoch;
      var key := ComputeProjectKey(sources, injected, i.entry, i.driver, i.target, i.publicEnv, i.intent, i.debugger,
                                   i.hotAppearance, i.webviewHost, i.window, digest);
      assert key == ProjectKey(digest, i);
      if request.cacheable {
        var hit := TryLoad(tc, disk, epoch, key);
        if hit.Some? {
          return hit;
        }
        var irKey := ComputeIrKey(sources, injected, i.entry, i.target, digest);
        assert irKey == IrKey(digest, i);
        var loaded := TryLoadIr(tc, disk, epoch, irKey);
        if loaded.Some? {
          if i.intent.Release? && tc.usesDebug(loaded.value) {
            return None;
          }
          var emitted := tc.fastEmit(loaded.value, i, u);
          if emitted.Some? {
            StoreProject(tc, epoch, key, emitted.value, request.wroteProject);
            return emitted;
          }
        }
      }
      project := FullCompile(tc, i, u);
      if project.Some? && request.cacheable {
        StoreProject(tc, epoch, key, project.value, request.wroteProject);
        var program := tc.lower(i.entry, i.modules);
        if program.Some? {
          var irKey := ComputeIrKey(sources, injected, i.entry, i.target, digest);
          StoreProgram(tc, epoch, irKey, program.value, request.wroteIr);
        }
      }
    }
  }
}
