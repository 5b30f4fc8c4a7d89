/**
 * What the cached build answers, tier by tier, and the production gate of the
 * IR tier: a release build never yields a project of sources that use the
 * development-only escape hatch, whatever an earlier build left behind.
 */
module CacheGate {
  import opened Prelude
  import opened Framing
  import opened Keys
  import opened BuildCache
  import opened CacheRuns

  // ---- one build, tier by tier ----

  /** The request may use the cache and misses the project tier. */
  ghost predicate MissesProject<P, E>(tc: Toolchain<P, E>, digest: Bytes -> string, disk: Disk, r: Request) {
    r.cacheable && TryLoad(tc, disk, r.epoch, ProjectKey(digest, r.inputs)) == None
  }

  ghost function LoadedProgram<P, E>(
      tc: Toolchain<P, E>, digest: Bytes -> string, disk: Disk, r: Request): Option<P> {
    TryLoadIr(tc, disk, r.epoch, IrKey(digest, r.inputs))
  }

  /** Without a cache, or on a project hit, nothing is stored, and the answer is the compile's or the entry's. */
  lemma {:induction false} OutsideTheIrTier<P(!new), E(!new)>(
      tc: Toolchain<P, E>, digest: Bytes -> string, disk: Disk, r: Request)
    ensures !r.cacheable ==> Build(tc, digest, disk, r) == (disk, FullCompile(tc, r.inputs, r.unhashed))
    ensures var hit := TryLoad(tc, disk, r.epoch, ProjectKey(digest, r.inputs));
      r.cacheable && hit.Some? ==> Build(tc, digest, disk, r) == (disk, hit)
  {
  }

  /** The gate: a release build that finds a program using the escape hatch is refused, and stores nothing. */
  lemma {:induction false} ReleaseRefusesDebug<P(!new), E(!new)>(
      tc: Toolchain<P, E>, digest: Bytes -> string, disk: Disk, r: Request)
    requires MissesProject(tc, digest, disk, r) && r.inputs.intent.Release?
    requires LoadedProgram(tc, digest, disk, r).Some? && tc.usesDebug(LoadedProgram(tc, digest, disk, r).value)
    ensures Build(tc, digest, disk, r) == (disk, None)
  {
  }

  /** A program that passes the gate and emits: the project is answered and stored, and the programs stay. */
  lemma {:induction false} IrTierEmits<P(!new), E(!new)>(
      tc: Toolchain<P, E>, digest: Bytes -> string, disk: Disk, r: Request, p: P, e: E)
    requires Lawful(tc) && HexDigest(digest) && IsEpoch(r.epoch)
    requires MissesProject(tc, digest, disk, r) && LoadedProgram(tc, digest, disk, r) == Some(p)
    requires !(r.inputs.intent.Release? && tc.usesDebug(p)) && tc.fastEmit(p, r.inputs, r.unhashed) == Some(e)
    ensures var (disk', answer) := Build(tc, digest, disk, r);
      && answer == Some(e) && LoadedProgram(tc, digest, disk', r) == Some(p)
      && TryLoad(tc, disk', r.epoch, ProjectKey(digest, r.inputs)) ==
           (if r.wroteProject && Fitting(tc.encodeProject(e)) then Some(e) else None)
  {
    var key, irKey := ProjectKey(digest, r.inputs), IrKey(digest, r.inputs);
    StoreEffect(tc, disk, r.epoch, key, e, r.wroteProject, tc, r.epoch, key);
    StoreEffect(tc, disk, r.epoch, key, e, r.wroteProject, tc, r.epoch, irKey);
    StoreLands(tc, disk, r.epoch, key, e);
  }

  /** There is no program, or one that passes the gate and does not emit. */
  ghost predicate FallsThrough<P, E>(tc: Toolchain<P, E>, digest: Bytes -> string, disk: Disk, r: Request) {
    match LoadedProgram(tc, digest, disk, r)
    case None => true
    case Some(p) => !(r.inputs.intent.Release? && tc.usesDebug(p)) && tc.fastEmit(p, r.inputs, r.unhashed) == None
  }

  /** Then the pipeline answers. */
  lemma {:induction false} PipelineAnswers<P(!new), E(!new)>(
      tc: Toolchain<P, E>, digest: Bytes -> string, disk: Disk, r: Request)
    requires MissesProject(tc, digest, disk, r) && FallsThrough(tc, digest, disk, r)
    ensures var compiled := FullCompile(tc, r.inputs, r.unhashed);
      Build(tc, digest, disk, r).1 == compiled && (compiled == None ==> Build(tc, digest, disk, r).0 == disk)
  {
  }

  /** And then both of its products are stored, where their writes land and fit. */
  lemma {:induction false} PipelineStores<P(!new), E(!new)>(
      tc: Toolchain<P, E>, digest: Bytes -> string, disk: Disk, r: Request, p: P, e: E)
    requires Lawful(tc) && HexDigest(digest) && IsEpoch(r.epoch)
    requires MissesProject(tc, digest, disk, r) && FallsThrough(tc, digest, disk, r)
    requires tc.lower(r.inputs.entry, r.inputs.modules) == Some(p) && tc.finish(p, r.inputs, r.unhashed) == Some(e)
    ensures var disk' := Build(tc, digest, disk, r).0;
      && TryLoad(tc, disk', r.epoch, ProjectKey(digest, r.inputs)) ==
           (if r.wroteProject && Fitting(tc.encodeProject(e)) then Some(e) else None)
      && LoadedProgram(tc, digest, disk', r) ==
           (if r.wroteIr && Fitting(tc.encodeIr(p)) then Some(p) else LoadedProgram(tc, digest, disk, r))
  {
    var key, irKey := ProjectKey(digest, r.inputs), IrKey(digest, r.inputs);
    var stored := Store(tc, disk, r.epoch, key, e, r.wroteProject);
    StoreEffect(tc, disk, r.epoch, key, e, r.wroteProject, tc, r.epoch, key);
    StoreEffect(tc, disk, r.epoch, key, e, r.wroteProject, tc, r.epoch, irKey);
    StoreLands(tc, disk, r.epoch, key, e);
    StoreIrEffect(tc, stored, r.epoch, irKey, p, r.wroteIr, tc, r.epoch, key);
    StoreIrEffect(tc, stored, r.epoch, irKey, p, r.wroteIr, tc, r.epoch, irKey);
    StoreIrLands(tc, stored, r.epoch, irKey, p);
  }

  // ---- the gate over whole runs ----

  /** A release of sources that use the escape hatch. */
  ghost predicate DebugRelease<P, E>(tc: Toolchain<P, E>, i: Inputs) {
    var program := tc.lower(i.entry, i.modules);
    i.intent.Release? && program.Some? && tc.usesDebug(program.value)
  }

  /** The pipeline itself refuses such a release. */
  ghost predicate PipelineGated<P(!new), E(!new)>(tc: Toolchain<P, E>) {
    forall i, u :: DebugRelease(tc, i) ==> FullCompile(tc, i, u) == None
  }

  ghost predicate GatedWorld<P(!new), E(!new)>(world: World<P, E>) {
    forall epoch :: IsEpoch(epoch) ==> PipelineGated(world(epoch))
  }

  /** No project of such a release is cached, and every cached program is the lowering of its sources. */
  ghost predicate GatedAt<P, E>(
      world: World<P, E>, digest: Bytes -> string, universe: iset<Bytes>, disk: Disk, epoch: string, i: Inputs) {
    && (ProjectStream(i) in universe && DebugRelease(world(epoch), i) ==>
          TryLoad(world(epoch), disk, epoch, ProjectKey(digest, i)) == None)
    && (IrStream(IrPart(i)) in universe ==>
          TryLoadIr(world(epoch), disk, epoch, IrKey(digest, i)) in {None, world(epoch).lower(i.entry, i.modules)})
  }

  ghost predicate Gated<P(!new), E(!new)>(
      world: World<P, E>, digest: Bytes -> string, universe: iset<Bytes>, disk: Disk) {
    forall epoch, i :: IsEpoch(epoch) && Fits(i) ==> GatedAt(world, digest, universe, disk, epoch, i)
  }

  /** On such a disk the release is refused. */
  lemma {:induction false} GatedBuildRefuses<P(!new), E(!new)>(
      world: World<P, E>, digest: Bytes -> string, universe: iset<Bytes>, disk: Disk, r: Request)
    requires GatedWorld(world) && Gated(world, digest, universe, disk)
    requires ValidEvent(world, BuildOf(r)) && Covers(universe, BuildOf(r)) && DebugRelease(world(r.epoch), r.inputs)
    ensures Build(world(r.epoch), digest, disk, r) == (disk, None)
  {
    assert GatedAt(world, digest, universe, disk, r.epoch, r.inputs);
    assert FullCompile(world(r.epoch), r.inputs, r.unhashed) == None;
  }

  /** `disk'` is `disk` with the project `e` of this request stored, and perhaps the lowering of its sources. */
  ghost predicate Wrote<P, E>(
      tc: Toolchain<P, E>, disk: Disk, r: Request, key: string, irKey: string, e: E, disk': Disk) {
    var stored := Store(tc, disk, r.epoch, key, e, r.wroteProject);
    var program := tc.lower(r.inputs.entry, r.inputs.modules);
    || disk' == stored
    || (program.Some? && disk' == StoreIr(tc, stored, r.epoch, irKey, program.value, r.wroteIr))
  }

  lemma {:induction false} BuildWrites<P(!new), E(!new)>(
      tc: Toolchain<P, E>, disk: Disk, r: Request, key: string, irKey: string) returns (e: E)
    requires BuildWith(tc, disk, r, key, irKey).0 != disk
    ensures Wrote(tc, disk, r, key, irKey, e, BuildWith(tc, disk, r, key, irKey).0)
  {
    e := BuildWith(tc, disk, r, key, irKey).1.value;
  }

  lemma {:induction false} BuildKeepsGated<P(!new), E(!new)>(
      world: World<P, E>, digest: Bytes -> string, universe: iset<Bytes>, disk: Disk, r: Request)
    requires LawfulWorld(world) && GatedWorld(world) && CollisionFree(digest, universe)
    requires Gated(world, digest, universe, disk)
    requires ValidEvent(world, BuildOf(r)) && Covers(universe, BuildOf(r))
    ensures Gated(world, digest, universe, After(world, digest, disk, BuildOf(r)))
  {
    var tc := world(r.epoch);
    if DebugRelease(tc, r.inputs) {
      GatedBuildRefuses(world, digest, universe, disk, r);
    } else {
      var disk' := After(world, digest, disk, BuildOf(r));
      if disk' != disk {
        var e := BuildWrites(tc, disk, r, ProjectKey(digest, r.inputs), IrKey(digest, r.inputs));
        var stored := Store(tc, disk, r.epoch, ProjectKey(digest, r.inputs), e, r.wroteProject);
        StoreKeepsGated(world, digest, universe, disk, r, e);
        if disk' != stored {
          StoreIrKeepsGated(world, digest, universe, stored, r);
        }
      }
    }
  }

  lemma {:induction false} StoreKeepsGated<P(!new), E(!new)>(
      world: World<P, E>, digest: Bytes -> string, universe: iset<Bytes>, disk: Disk, r: Request, e: E)
    requires LawfulWorld(world) && CollisionFree(digest, universe) && Gated(world, digest, universe, disk)
    requires ValidEvent(world, BuildOf(r)) && Covers(universe, BuildOf(r)) && !DebugRelease(world(r.epoch), r.inputs)
    ensures Gated(world, digest, universe,
                  Store(world(r.epoch), disk, r.epoch, ProjectKey(digest, r.inputs), e, r.wroteProject))
  {
    var disk' := Store(world(r.epoch), disk, r.epoch, ProjectKey(digest, r.inputs), e, r.wroteProject);
    forall epoch, i | IsEpoch(epoch) && Fits(i) ensures GatedAt(world, digest, universe, disk', epoch, i) {
      assert GatedAt(world, digest, universe, disk, epoch, i);
      StoreExactly(world, digest, universe, disk, r, e, epoch, i);
    }
  }

  lemma {:induction false} StoreIrKeepsGated<P(!new), E(!new)>(
      world: World<P, E>, digest: Bytes -> string, universe: iset<Bytes>, disk: Disk, r: Request)
    requires LawfulWorld(world) && CollisionFree(digest, universe) && Gated(world, digest, universe, disk)
    requires ValidEvent(world, BuildOf(r)) && Covers(universe, BuildOf(r))
    requires world(r.epoch).lower(r.inputs.entry, r.inputs.modules).Some?
    ensures Gated(world, digest, universe,
                  StoreIr(world(r.epoch), disk, r.epoch, IrKey(digest, r.inputs),
                          world(r.epoch).lower(r.inputs.entry, r.inputs.modules).value, r.wroteIr))
  {
    var p := world(r.epoch).lower(r.inputs.entry, r.inputs.modules).value;
    var disk' := StoreIr(world(r.epoch), disk, r.epoch, IrKey(digest, r.inputs), p, r.wroteIr);
    forall epoch, i | IsEpoch(epoch) && Fits(i) ensures GatedAt(world, digest, universe, disk', epoch, i) {
      assert GatedAt(world, digest, universe, disk, epoch, i);
      StoreIrExactly(world, digest, universe, disk, r, p, epoch, i);
    }
  }

  lemma {:induction false} LossKeepsGated<P(!new), E(!new)>(
      world: World<P, E>, digest: Bytes -> string, universe: iset<Bytes>, disk: Disk, ev: Event)
    requires !ev.BuildOf? && ValidEvent(world, ev) && Gated(world, digest, universe, disk)
    ensures Gated(world, digest, universe, After(world, digest, disk, ev))
  {
    forall epoch, i | IsEpoch(epoch) && Fits(i)
      ensures GatedAt(world, digest, universe, After(world, digest, disk, ev), epoch, i)
    {
      assert GatedAt(world, digest, universe, disk, epoch, i);
      LossEffect(world, digest, disk, ev, epoch, ProjectKey(digest, i));
      LossEffect(world, digest, disk, ev, epoch, IrKey(digest, i));
    }
  }

  /** Every release in the run of sources that use the escape hatch is refused. */
  ghost predicate NoDebugReleased<P, E>(world: World<P, E>, digest: Bytes -> string, disk: Disk, run: seq<Event>)
    decreases run
  {
    run == [] ||
    (&& (run[0].BuildOf? && DebugRelease(world(run[0].request.epoch), run[0].request.inputs) ==>
           Build(world(run[0].request.epoch), digest, disk, run[0].request).1 == None)
     && NoDebugReleased(world, digest, After(world, digest, disk, run[0]), run[1..]))
  }

  lemma {:induction false} GatedRunRefuses<P(!new), E(!new)>(
      world: World<P, E>, digest: Bytes -> string, universe: iset<Bytes>, disk: Disk, run: seq<Event>)
    requires LawfulWorld(world) && GatedWorld(world) && CollisionFree(digest, universe)
    requires Gated(world, digest, universe, disk)
    requires ValidRun(world, run) && forall k :: 0 <= k < |run| ==> Covers(universe, run[k])
    ensures NoDebugReleased(world, digest, disk, run)
    decreases run
  {
    if run != [] {
      var ev := run[0];
      if ev.BuildOf? {
        BuildKeepsGated(world, digest, universe, disk, ev.request);
        if DebugRelease(world(ev.request.epoch), ev.request.inputs) {
          GatedBuildRefuses(world, digest, universe, disk, ev.request);
        }
      } else {
        LossKeepsGated(world, digest, universe, disk, ev);
      }
      GatedRunRefuses(world, digest, universe, After(world, digest, disk, ev), run[1..]);
    }
  }

  /**
   * In any run of builds, deletions and damage, under any lawful compilers whose
   * pipeline gates debug releases, whatever their IR tier would emit and however
   * transparent the run is: no release of sources that use the escape hatch
   * yields a project, though development builds of the same sources fill the IR
   * tier it looks in.
   */
  lemma {:induction false} DebugIsNeverReleased<P(!new), E(!new)>(
      world: World<P, E>, digest: Bytes -> string, run: seq<Event>)
    requires LawfulWorld(world) && GatedWorld(world) && ValidRun(world, run) && SeparatesRun(digest, run)
    ensures NoDebugReleased(world, digest, map[], run)
  {
    var universe :| Separates(digest, universe, run);
    forall epoch, i | IsEpoch(epoch) && Fits(i) ensures GatedAt(world, digest, universe, map[], epoch, i) {}
    GatedRunRefuses(world, digest, universe, map[], run);
  }

  /**
   * A development build, then a release of the same sources: whatever the
   * pipeline and the IR tier would emit, the release finds the program, is
   * refused, and stores nothing.
   */
  lemma {:induction false} ReleaseAfterDevelopment<P(!new), E(!new)>(
      tc: Toolchain<P, E>, digest: Bytes -> string, universe: iset<Bytes>, dev: Request, release: Request)
    requires Lawful(tc) && CollisionFree(digest, universe)
    requires Covers(universe, BuildOf(dev)) && Covers(universe, BuildOf(release))
    requires IsEpoch(dev.epoch) && release.epoch == dev.epoch && Fits(dev.inputs) && Fits(release.inputs)
    requires dev.cacheable && dev.wroteIr && release.cacheable && IrPart(release.inputs) == IrPart(dev.inputs)
    requires !dev.inputs.intent.Release? && DebugRelease(tc, release.inputs)
    requires StoresProgram(tc, dev.inputs, dev.unhashed)
    ensures var disk := Build(tc, digest, map[], dev).0;
      Build(tc, digest, disk, release) == (disk, None)
  {
    var disk := Build(tc, digest, map[], dev).0;
    var p := tc.lower(dev.inputs.entry, dev.inputs.modules).value;
    var e := FullCompile(tc, dev.inputs, dev.unhashed).value;
    PipelineStores(tc, digest, map[], dev, p, e);
    ReleaseMissesProject(tc, digest, universe, dev, release);
    ReleaseRefusesDebug(tc, digest, disk, release);
  }

  /** The intent is hashed, so the release misses what the development build stored. */
  lemma {:induction false} ReleaseMissesProject<P(!new), E(!new)>(
      tc: Toolchain<P, E>, digest: Bytes -> string, universe: iset<Bytes>, dev: Request, release: Request)
    requires Lawful(tc) && CollisionFree(digest, universe)
    requires Covers(universe, BuildOf(dev)) && Covers(universe, BuildOf(release))
    requires IsEpoch(dev.epoch) && release.epoch == dev.epoch && Fits(dev.inputs) && Fits(release.inputs)
    requires dev.cacheable && !dev.inputs.intent.Release? && release.inputs.intent.Release?
    ensures TryLoad(tc, Build(tc, digest, map[], dev).0, release.epoch, ProjectKey(digest, release.inputs)) == None
  {
    var disk' := Build(tc, digest, map[], dev).0;
    if disk' != map[] {
      var e := BuildWrites(tc, map[], dev, ProjectKey(digest, dev.inputs), IrKey(digest, dev.inputs));
      WroteElsewhere(tc, digest, universe, map[], dev, e, disk', release.inputs);
    }
  }

  lemma {:induction false} WroteElsewhere<P(!new), E(!new)>(
      tc: Toolchain<P, E>, digest: Bytes -> string, universe: iset<Bytes>, disk: Disk, r: Request, e: E, disk': Disk,
      i: Inputs)
    requires Lawful(tc) && CollisionFree(digest, universe) && Covers(universe, BuildOf(r)) && IsEpoch(r.epoch)
    requires Fits(r.inputs) && Fits(i) && ProjectStream(i) in universe && i != r.inputs
    requires Wrote(tc, disk, r, ProjectKey(digest, r.inputs), IrKey(digest, r.inputs), e, disk')
    ensures TryLoad(tc, disk', r.epoch, ProjectKey(digest, i)) == TryLoad(tc, disk, r.epoch, ProjectKey(digest, i))
  {
    var world: World<P, E> := (epoch: string) => tc;
    var stored := Store(tc, disk, r.epoch, ProjectKey(digest, r.inputs), e, r.wroteProject);
    StoreExactly(world, digest, universe, disk, r, e, r.epoch, i);
    if disk' != stored {
      var p := tc.lower(r.inputs.entry, r.inputs.modules).value;
      StoreIrExactly(world, digest, universe, stored, r, p, r.epoch, i);
    }
  }
}
