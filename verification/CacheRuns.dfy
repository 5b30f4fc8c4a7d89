/**
 * Whole runs of the build cache, for any compilers.
 *
 * The history of a run says what the cache holds: which build's project each
 * project address has, and which program addresses have a program. A run is
 * transparent exactly when what its builds find there does no harm.
 */
module CacheRuns {
  import opened Prelude
  import opened Framing
  import opened Keys
  import opened BuildCache

  // ---- what the history of a run leaves in the cache ----

  /** Which compiles, by epoch and inputs, leave an entry the cache can hold. */
  type Storing = (string, Inputs, Unhashed) -> bool

  ghost function ProjectAddress(digest: Bytes -> string, epoch: string, i: Inputs): Address {
    Address(epoch, EntryFileName(ProjectKey(digest, i)))
  }

  ghost function ProgramAddress(digest: Bytes -> string, epoch: string, j: IrInputs): Address {
    Address(epoch, IrEntryFileName(digest(IrStream(j))))
  }

  /** The unhashed inputs of the build whose project the cache holds for `i`: it missed, stored, and nothing lost it. */
  ghost function HeldProject(
      projects: Storing, digest: Bytes -> string, done: seq<Event>, epoch: string, i: Inputs): (h: Option<Unhashed>)
    ensures h.Some? ==> projects(epoch, i, h.value)
  {
    if done == [] then None
    else
      var before := HeldProject(projects, digest, done[..|done| - 1], epoch, i);
      match done[|done| - 1]
      case BuildOf(r) =>
        if before.None? && r.cacheable && r.wroteProject && r.epoch == epoch && r.inputs == i &&
           projects(epoch, i, r.unhashed)
        then Some(r.unhashed) else before
      case ev => if ev.at == ProjectAddress(digest, epoch, i) then None else before
  }

  /** Whether the cache holds a program for `j`: some build missed the project tier, stored one, and nothing lost it. */
  ghost predicate HeldProgram(
      projects: Storing, programs: Storing, digest: Bytes -> string, done: seq<Event>, epoch: string, j: IrInputs)
  {
    done != [] &&
    var earlier := done[..|done| - 1];
    match done[|done| - 1]
    case BuildOf(r) =>
      || HeldProgram(projects, programs, digest, earlier, epoch, j)
      || (&& r.cacheable && r.wroteIr && r.epoch == epoch && IrPart(r.inputs) == j
          && HeldProject(projects, digest, earlier, epoch, r.inputs).None? && programs(epoch, r.inputs, r.unhashed))
    case ev => ev.at != ProgramAddress(digest, epoch, j) && HeldProgram(projects, programs, digest, earlier, epoch, j)
  }

  lemma {:induction false} LastEvent(done: seq<Event>, ev: Event)
    ensures done + [ev] != [] && (done + [ev])[|done|] == ev && (done + [ev])[..|done|] == done
  {
  }

  /** A program held was stored by some build. */
  lemma {:induction false} ProgramHeldBy(
      projects: Storing, programs: Storing, digest: Bytes -> string, done: seq<Event>, epoch: string, j: IrInputs)
      returns (i: Inputs, u: Unhashed)
    requires HeldProgram(projects, programs, digest, done, epoch, j)
    ensures IrPart(i) == j && programs(epoch, i, u)
  {
    var earlier := done[..|done| - 1];
    if HeldProgram(projects, programs, digest, earlier, epoch, j) {
      i, u := ProgramHeldBy(projects, programs, digest, earlier, epoch, j);
    } else {
      i, u := done[|done| - 1].request.inputs, done[|done| - 1].request.unhashed;
    }
  }

  // ---- what a build may find ----

  /** The compile leaves a project the cache can hold. */
  ghost predicate StoresProject<P, E>(tc: Toolchain<P, E>, i: Inputs, u: Unhashed) {
    FullCompile(tc, i, u).Some? && Fitting(tc.encodeProject(FullCompile(tc, i, u).value))
  }

  /** The compile leaves a program the cache can hold. */
  ghost predicate StoresProgram<P, E>(tc: Toolchain<P, E>, i: Inputs, u: Unhashed) {
    && Fits(i) && FullCompile(tc, i, u).Some?
    && Fitting(tc.encodeIr(tc.lower(i.entry, i.modules).value))
  }

  ghost function ProjectsOf<P, E>(world: World<P, E>): Storing {
    (epoch, i, u) => StoresProject(world(epoch), i, u)
  }

  ghost function ProgramsOf<P, E>(world: World<P, E>): Storing {
    (epoch, i, u) => StoresProgram(world(epoch), i, u)
  }

  /** On the program of this request the IR tier answers as the pipeline does, or not at all. */
  ghost predicate FastAgreesAt<P, E>(tc: Toolchain<P, E>, r: Request) {
    match tc.lower(r.inputs.entry, r.inputs.modules)
    case None => true
    case Some(p) => FastPath(tc, p, r.inputs, r.unhashed) in {None, Some(FullCompile(tc, r.inputs, r.unhashed))}
  }

  /**
   * What this build finds does no harm: a project it is served is its own, and
   * only where it finds none but a program must the IR tier agree.
   */
  ghost predicate HarmlessAt<P, E>(world: World<P, E>, digest: Bytes -> string, done: seq<Event>, r: Request) {
    match HeldProject(ProjectsOf(world), digest, done, r.epoch, r.inputs)
    case Some(u) => FullCompile(world(r.epoch), r.inputs, u) == FullCompile(world(r.epoch), r.inputs, r.unhashed)
    case None =>
      HeldProgram(ProjectsOf(world), ProgramsOf(world), digest, done, r.epoch, IrPart(r.inputs)) ==>
        FastAgreesAt(world(r.epoch), r)
  }

  ghost predicate Harmless<P, E>(world: World<P, E>, digest: Bytes -> string, done: seq<Event>, todo: seq<Event>)
    decreases todo
  {
    todo == [] ||
    (&& (todo[0].BuildOf? && todo[0].request.cacheable ==> HarmlessAt(world, digest, done, todo[0].request))
     && Harmless(world, digest, done + [todo[0]], todo[1..]))
  }

  // ---- the invariant ----

  /** The project of `i` that the history says the cache holds. */
  ghost function ProjectOf<P, E>(
      world: World<P, E>, digest: Bytes -> string, done: seq<Event>, epoch: string, i: Inputs): Option<E> {
    match HeldProject(ProjectsOf(world), digest, done, epoch, i)
    case None => None
    case Some(u) => FullCompile(world(epoch), i, u)
  }

  /** The program of `i` that the history says the cache holds. */
  ghost function ProgramOf<P, E>(
      world: World<P, E>, digest: Bytes -> string, done: seq<Event>, epoch: string, i: Inputs): Option<P> {
    if HeldProgram(ProjectsOf(world), ProgramsOf(world), digest, done, epoch, IrPart(i))
    then world(epoch).lower(i.entry, i.modules) else None
  }

  /** Both tiers load for `i` exactly what the history says. */
  ghost predicate SoundAt<P, E>(
      world: World<P, E>, digest: Bytes -> string, universe: iset<Bytes>, done: seq<Event>, disk: Disk, epoch: string,
      i: Inputs) {
    && (ProjectStream(i) in universe ==>
          TryLoad(world(epoch), disk, epoch, ProjectKey(digest, i)) == ProjectOf(world, digest, done, epoch, i))
    && (IrStream(IrPart(i)) in universe ==>
          TryLoadIr(world(epoch), disk, epoch, IrKey(digest, i)) == ProgramOf(world, digest, done, epoch, i))
  }

  /** The disk holds what the history of the run says, no more and no less. */
  ghost predicate Sound<P(!new), E(!new)>(
      world: World<P, E>, digest: Bytes -> string, universe: iset<Bytes>, done: seq<Event>, disk: Disk) {
    forall epoch, i :: IsEpoch(epoch) && Fits(i) ==> SoundAt(world, digest, universe, done, disk, epoch, i)
  }

  /** Storing a project changes what one key of the universe loads, exactly when the write lands and fits. */
  lemma {:induction false} StoreExactly<P(!new), E(!new)>(
      world: World<P, E>, digest: Bytes -> string, universe: iset<Bytes>, disk: Disk, r: Request, e: E, epoch: string,
      i: Inputs)
    requires LawfulWorld(world) && CollisionFree(digest, universe) && IsEpoch(r.epoch) && IsEpoch(epoch)
    requires Fits(r.inputs) && Fits(i) && ProjectStream(r.inputs) in universe
    ensures var tc := world(r.epoch);
      var disk' := Store(tc, disk, r.epoch, ProjectKey(digest, r.inputs), e, r.wroteProject);
      && (ProjectStream(i) in universe ==>
            TryLoad(world(epoch), disk', epoch, ProjectKey(digest, i)) ==
            if epoch == r.epoch && i == r.inputs && r.wroteProject && Fitting(tc.encodeProject(e)) then Some(e)
            else TryLoad(world(epoch), disk, epoch, ProjectKey(digest, i)))
      && TryLoadIr(world(epoch), disk', epoch, IrKey(digest, i)) ==
           TryLoadIr(world(epoch), disk, epoch, IrKey(digest, i))
  {
    var tc, key := world(r.epoch), ProjectKey(digest, r.inputs);
    StoreEffect(tc, disk, r.epoch, key, e, r.wroteProject, world(epoch), epoch, ProjectKey(digest, i));
    StoreEffect(tc, disk, r.epoch, key, e, r.wroteProject, world(epoch), epoch, IrKey(digest, i));
    StoreLands(tc, disk, r.epoch, key, e);
    if ProjectStream(i) in universe && ProjectKey(digest, i) == key {
      ProjectStreamInjective(i, r.inputs);
    }
  }

  /** Storing a program changes what the keys of one program load, exactly when the write lands and fits. */
  lemma {:induction false} StoreIrExactly<P(!new), E(!new)>(
      world: World<P, E>, digest: Bytes -> string, universe: iset<Bytes>, disk: Disk, r: Request, p: P, epoch: string,
      i: Inputs)
    requires LawfulWorld(world) && CollisionFree(digest, universe) && IsEpoch(r.epoch) && IsEpoch(epoch)
    requires Fits(r.inputs) && Fits(i) && IrStream(IrPart(r.inputs)) in universe
    ensures var tc := world(r.epoch);
      var disk' := StoreIr(tc, disk, r.epoch, IrKey(digest, r.inputs), p, r.wroteIr);
      && (IrStream(IrPart(i)) in universe ==>
            TryLoadIr(world(epoch), disk', epoch, IrKey(digest, i)) ==
            if epoch == r.epoch && IrPart(i) == IrPart(r.inputs) && r.wroteIr && Fitting(tc.encodeIr(p)) then Some(p)
            else TryLoadIr(world(epoch), disk, epoch, IrKey(digest, i)))
      && TryLoad(world(epoch), disk', epoch, ProjectKey(digest, i)) ==
           TryLoad(world(epoch), disk, epoch, ProjectKey(digest, i))
  {
    var tc, key := world(r.epoch), IrKey(digest, r.inputs);
    StoreIrEffect(tc, disk, r.epoch, key, p, r.wroteIr, world(epoch), epoch, IrKey(digest, i));
    StoreIrEffect(tc, disk, r.epoch, key, p, r.wroteIr, world(epoch), epoch, ProjectKey(digest, i));
    StoreIrLands(tc, disk, r.epoch, key, p);
    if IrStream(IrPart(i)) in universe && IrKey(digest, i) == key {
      IrStreamInjective(IrPart(i), IrPart(r.inputs));
    }
  }

  // ---- one build ----

  /** A build answers as an uncached compile exactly when the entry it uses does. */
  lemma {:induction false} AnswersAsCompile<P(!new), E(!new)>(
      tc: Toolchain<P, E>, disk: Disk, r: Request, key: string, irKey: string)
    ensures var compiled := FullCompile(tc, r.inputs, r.unhashed);
      BuildWith(tc, disk, r, key, irKey).1 == compiled <==>
      (r.cacheable ==>
         match TryLoad(tc, disk, r.epoch, key)
         case Some(e) => compiled == Some(e)
         case None =>
           match TryLoadIr(tc, disk, r.epoch, irKey)
           case Some(p) => FastPath(tc, p, r.inputs, r.unhashed) in {None, Some(compiled)}
           case None => true)
  {
  }

  /** On a sound disk a build is offered what the history says. */
  lemma {:induction false} WhatIsFound<P(!new), E(!new)>(
      world: World<P, E>, digest: Bytes -> string, universe: iset<Bytes>, done: seq<Event>, disk: Disk, r: Request)
    requires Sound(world, digest, universe, done, disk)
    requires ValidEvent(world, BuildOf(r)) && Covers(universe, BuildOf(r))
    ensures TryLoad(world(r.epoch), disk, r.epoch, ProjectKey(digest, r.inputs)) ==
      ProjectOf(world, digest, done, r.epoch, r.inputs)
    ensures TryLoadIr(world(r.epoch), disk, r.epoch, IrKey(digest, r.inputs)) ==
      ProgramOf(world, digest, done, r.epoch, r.inputs)
  {
    assert SoundAt(world, digest, universe, done, disk, r.epoch, r.inputs);
  }

  /** On a sound disk a build answers as an uncached compile exactly when what it finds is harmless. */
  lemma {:induction false} BuildIsUnobservableExactly<P(!new), E(!new)>(
      world: World<P, E>, digest: Bytes -> string, universe: iset<Bytes>, done: seq<Event>, disk: Disk, r: Request)
    requires Sound(world, digest, universe, done, disk)
    requires ValidEvent(world, BuildOf(r)) && Covers(universe, BuildOf(r))
    ensures Unobservable(world, digest, disk, BuildOf(r)) <==> (r.cacheable ==> HarmlessAt(world, digest, done, r))
  {
    AnswersAsCompile(world(r.epoch), disk, r, ProjectKey(digest, r.inputs), IrKey(digest, r.inputs));
    WhatIsFound(world, digest, universe, done, disk, r);
  }

  /** What an unobservable build stores: nothing, its project, or its project and its program. */
  datatype Stored = Nothing | ProjectOnly | Both

  ghost function WhatIsStored<P, E>(tc: Toolchain<P, E>, disk: Disk, r: Request, key: string, irKey: string): Stored {
    if !r.cacheable || TryLoad(tc, disk, r.epoch, key).Some? || FullCompile(tc, r.inputs, r.unhashed).None? then Nothing
    else match TryLoadIr(tc, disk, r.epoch, irKey)
         case None => Both
         case Some(p) => if FastPath(tc, p, r.inputs, r.unhashed).None? then Both else ProjectOnly
  }

  lemma {:induction false} WhatABuildStores<P(!new), E(!new)>(
      tc: Toolchain<P, E>, disk: Disk, r: Request, key: string, irKey: string)
    requires BuildWith(tc, disk, r, key, irKey).1 == FullCompile(tc, r.inputs, r.unhashed)
    ensures var disk' := BuildWith(tc, disk, r, key, irKey).0;
      var compiled := FullCompile(tc, r.inputs, r.unhashed);
      match WhatIsStored(tc, disk, r, key, irKey)
      case Nothing => disk' == disk
      case ProjectOnly => disk' == Store(tc, disk, r.epoch, key, compiled.value, r.wroteProject)
      case Both =>
        disk' == StoreIr(tc, Store(tc, disk, r.epoch, key, compiled.value, r.wroteProject), r.epoch, irKey,
                         tc.lower(r.inputs.entry, r.inputs.modules).value, r.wroteIr)
  {
  }

  /** What each key loads after an unobservable build. */
  lemma {:induction false} BuildEffect<P(!new), E(!new)>(
      world: World<P, E>, digest: Bytes -> string, universe: iset<Bytes>, disk: Disk, r: Request, epoch: string,
      i: Inputs)
    requires LawfulWorld(world) && CollisionFree(digest, universe)
    requires ValidEvent(world, BuildOf(r)) && Covers(universe, BuildOf(r))
    requires Unobservable(world, digest, disk, BuildOf(r))
    requires IsEpoch(epoch) && Fits(i)
    ensures var tc, disk' := world(r.epoch), After(world, digest, disk, BuildOf(r));
      var what := WhatIsStored(tc, disk, r, ProjectKey(digest, r.inputs), IrKey(digest, r.inputs));
      && (ProjectStream(i) in universe ==>
            TryLoad(world(epoch), disk', epoch, ProjectKey(digest, i)) ==
            if what != Nothing && epoch == r.epoch && i == r.inputs && r.wroteProject
               && StoresProject(tc, r.inputs, r.unhashed)
            then FullCompile(tc, r.inputs, r.unhashed)
            else TryLoad(world(epoch), disk, epoch, ProjectKey(digest, i)))
      && (IrStream(IrPart(i)) in universe ==>
            TryLoadIr(world(epoch), disk', epoch, IrKey(digest, i)) ==
            if what == Both && epoch == r.epoch && IrPart(i) == IrPart(r.inputs) && r.wroteIr
               && StoresProgram(tc, r.inputs, r.unhashed)
            then tc.lower(r.inputs.entry, r.inputs.modules)
            else TryLoadIr(world(epoch), disk, epoch, IrKey(digest, i)))
  {
    var tc, key, irKey := world(r.epoch), ProjectKey(digest, r.inputs), IrKey(digest, r.inputs);
    var compiled := FullCompile(tc, r.inputs, r.unhashed);
    WhatABuildStores(tc, disk, r, key, irKey);
    if WhatIsStored(tc, disk, r, key, irKey) != Nothing {
      var stored := Store(tc, disk, r.epoch, key, compiled.value, r.wroteProject);
      StoreExactly(world, digest, universe, disk, r, compiled.value, epoch, i);
      StoreIrExactly(world, digest, universe, stored, r, tc.lower(r.inputs.entry, r.inputs.modules).value, epoch, i);
    }
  }

  /** What an unobservable build stores, by the history alone. */
  lemma {:induction false} StoredByHistory<P(!new), E(!new)>(
      world: World<P, E>, digest: Bytes -> string, universe: iset<Bytes>, done: seq<Event>, disk: Disk, r: Request)
    requires Sound(world, digest, universe, done, disk)
    requires ValidEvent(world, BuildOf(r)) && Covers(universe, BuildOf(r))
    ensures var what := WhatIsStored(world(r.epoch), disk, r, ProjectKey(digest, r.inputs), IrKey(digest, r.inputs));
      && (what != Nothing <==>
            r.cacheable && HeldProject(ProjectsOf(world), digest, done, r.epoch, r.inputs).None?
            && FullCompile(world(r.epoch), r.inputs, r.unhashed).Some?)
      && (what == ProjectOnly ==>
            HeldProgram(ProjectsOf(world), ProgramsOf(world), digest, done, r.epoch, IrPart(r.inputs)))
  {
    WhatIsFound(world, digest, universe, done, disk, r);
  }

  /** The history with one more build. */
  lemma {:induction false} HistoryGrows<P(!new), E(!new)>(
      world: World<P, E>, digest: Bytes -> string, done: seq<Event>, r: Request, epoch: string, i: Inputs)
    ensures var missed := r.cacheable && HeldProject(ProjectsOf(world), digest, done, r.epoch, r.inputs).None?;
      && ProjectOf(world, digest, done + [BuildOf(r)], epoch, i) ==
           (if missed && epoch == r.epoch && i == r.inputs && r.wroteProject
               && StoresProject(world(r.epoch), r.inputs, r.unhashed)
            then FullCompile(world(r.epoch), r.inputs, r.unhashed)
            else ProjectOf(world, digest, done, epoch, i))
      && ProgramOf(world, digest, done + [BuildOf(r)], epoch, i) ==
           (if missed && epoch == r.epoch && IrPart(i) == IrPart(r.inputs) && r.wroteIr
               && StoresProgram(world(r.epoch), r.inputs, r.unhashed)
            then world(r.epoch).lower(r.inputs.entry, r.inputs.modules)
            else ProgramOf(world, digest, done, epoch, i))
  {
    LastEvent(done, BuildOf(r));
  }

  /** An unobservable build leaves the disk sound. */
  lemma {:induction false} BuildKeepsSound<P(!new), E(!new)>(
      world: World<P, E>, digest: Bytes -> string, universe: iset<Bytes>, done: seq<Event>, disk: Disk, r: Request)
    requires LawfulWorld(world) && CollisionFree(digest, universe) && Sound(world, digest, universe, done, disk)
    requires ValidEvent(world, BuildOf(r)) && Covers(universe, BuildOf(r))
    requires Unobservable(world, digest, disk, BuildOf(r))
    ensures Sound(world, digest, universe, done + [BuildOf(r)], After(world, digest, disk, BuildOf(r)))
  {
    StoredByHistory(world, digest, universe, done, disk, r);
    forall epoch, i | IsEpoch(epoch) && Fits(i)
      ensures SoundAt(world, digest, universe, done + [BuildOf(r)], After(world, digest, disk, BuildOf(r)), epoch, i)
    {
      assert SoundAt(world, digest, universe, done, disk, epoch, i);
      BuildEffect(world, digest, universe, disk, r, epoch, i);
      HistoryGrows(world, digest, done, r, epoch, i);
    }
  }

  // ---- losses ----

  /** A loss turns the lookup of the lost address into a miss and leaves every other as it was. */
  lemma {:induction false} LossEffect<P(!new), E(!new)>(
      world: World<P, E>, digest: Bytes -> string, disk: Disk, ev: Event, epoch: string, key: string)
    requires !ev.BuildOf? && ValidEvent(world, ev)
    ensures var disk' := After(world, digest, disk, ev);
      && TryLoad(world(epoch), disk', epoch, key) ==
           (if ev.at == Address(epoch, EntryFileName(key)) then None else TryLoad(world(epoch), disk, epoch, key))
      && TryLoadIr(world(epoch), disk', epoch, key) ==
           (if ev.at == Address(epoch, IrEntryFileName(key)) then None else TryLoadIr(world(epoch), disk, epoch, key))
  {
  }

  /** Losing or damaging an entry leaves the disk sound. */
  lemma {:induction false} LossKeepsSound<P(!new), E(!new)>(
      world: World<P, E>, digest: Bytes -> string, universe: iset<Bytes>, done: seq<Event>, disk: Disk, ev: Event)
    requires !ev.BuildOf? && ValidEvent(world, ev) && Sound(world, digest, universe, done, disk)
    ensures Sound(world, digest, universe, done + [ev], After(world, digest, disk, ev))
  {
    LastEvent(done, ev);
    forall epoch, i | IsEpoch(epoch) && Fits(i)
      ensures SoundAt(world, digest, universe, done + [ev], After(world, digest, disk, ev), epoch, i)
    {
      assert SoundAt(world, digest, universe, done, disk, epoch, i);
      LossEffect(world, digest, disk, ev, epoch, ProjectKey(digest, i));
      LossEffect(world, digest, disk, ev, epoch, IrKey(digest, i));
    }
  }

  // ---- runs ----

  /** From a sound disk the rest of a run is transparent exactly when its builds find nothing harmful. */
  lemma {:induction false} RunTransparentExactly<P(!new), E(!new)>(
      world: World<P, E>, digest: Bytes -> string, universe: iset<Bytes>, done: seq<Event>, disk: Disk,
      todo: seq<Event>)
    requires LawfulWorld(world) && CollisionFree(digest, universe) && Sound(world, digest, universe, done, disk)
    requires ValidRun(world, todo) && forall k :: 0 <= k < |todo| ==> Covers(universe, todo[k])
    ensures Transparent(world, digest, disk, todo) <==> Harmless(world, digest, done, todo)
    decreases todo
  {
    if todo != [] {
      var ev := todo[0];
      if ev.BuildOf? {
        BuildIsUnobservableExactly(world, digest, universe, done, disk, ev.request);
        if Unobservable(world, digest, disk, ev) {
          BuildKeepsSound(world, digest, universe, done, disk, ev.request);
        }
      } else {
        LossKeepsSound(world, digest, universe, done, disk, ev);
      }
      if Unobservable(world, digest, disk, ev) {
        RunTransparentExactly(world, digest, universe, done + [ev], After(world, digest, disk, ev), todo[1..]);
      }
    }
  }

  // ---- runs from an empty cache ----

  /** The digest tells apart the streams the run itself hashes. */
  ghost predicate SeparatesRun(digest: Bytes -> string, run: seq<Event>) {
    exists universe :: Separates(digest, universe, run)
  }

  ghost predicate Separates(digest: Bytes -> string, universe: iset<Bytes>, run: seq<Event>) {
    CollisionFree(digest, universe) && forall k :: 0 <= k < |run| ==> Covers(universe, run[k])
  }

  lemma {:induction false} EmptyIsSound<P(!new), E(!new)>(
      world: World<P, E>, digest: Bytes -> string, universe: iset<Bytes>)
    ensures Sound(world, digest, universe, [], map[])
  {
    forall epoch, i | IsEpoch(epoch) && Fits(i) ensures SoundAt(world, digest, universe, [], map[], epoch, i) {}
  }

  /**
   * For any lawful compilers and any run, the cache is unobservable exactly when
   * every build that finds a project finds its own, and every build that finds
   * only a program has an IR tier that agrees on it.
   */
  lemma {:induction false} FreshRunTransparentExactly<P(!new), E(!new)>(
      world: World<P, E>, digest: Bytes -> string, run: seq<Event>)
    requires LawfulWorld(world) && ValidRun(world, run) && SeparatesRun(digest, run)
    ensures Transparent(world, digest, map[], run) <==> Harmless(world, digest, [], run)
  {
    var universe :| Separates(digest, universe, run);
    EmptyIsSound(world, digest, universe);
    RunTransparentExactly(world, digest, universe, [], map[], run);
  }

  /** Building twice what the cache can hold is transparent, whatever the IR tier would answer. */
  lemma {:induction false} WarmRebuildIsHidden<P(!new), E(!new)>(
      world: World<P, E>, digest: Bytes -> string, r: Request)
    requires LawfulWorld(world) && ValidEvent(world, BuildOf(r)) && SeparatesRun(digest, [BuildOf(r)] + [BuildOf(r)])
    requires r.cacheable && r.wroteProject && StoresProject(world(r.epoch), r.inputs, r.unhashed)
    ensures Transparent(world, digest, map[], [BuildOf(r)] + [BuildOf(r)])
  {
    var once := [BuildOf(r)];
    FreshRunTransparentExactly(world, digest, once + once);
    LastEvent([], BuildOf(r));
    assert HeldProject(ProjectsOf(world), digest, once, r.epoch, r.inputs) == Some(r.unhashed);
    HarmlessTwice(world, digest, r);
  }

  lemma {:induction false} HarmlessTwice<P(!new), E(!new)>(world: World<P, E>, digest: Bytes -> string, r: Request)
    requires r.cacheable ==>
      HarmlessAt(world, digest, [], r) && HarmlessAt(world, digest, [BuildOf(r)], r)
    ensures Harmless(world, digest, [], [BuildOf(r)] + [BuildOf(r)])
  {
    var once := [BuildOf(r)];
    assert [] + once == once && (once + once)[1..] == once && once[1..] == [];
    assert Harmless(world, digest, once + once, []);
    assert Harmless(world, digest, once, once);
  }
}
