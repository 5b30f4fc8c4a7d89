/**
 * Which runs of builds hide the two-tier cache under every compiler, under
 * every compiler whose projects fit the cache, and under every compiler whose
 * IR tier agrees with its pipeline.
 */
module CacheExactness {
  import opened Prelude
  import opened Framing
  import opened Keys
  import opened BuildCache
  import opened CacheRuns

  // ---- the conditions on a run ----

  /** Every entry fits the cache, or none does. */
  ghost function All(fit: bool): Storing { (epoch, i, u) => fit }

  /**
   * Whenever a build finds a project an earlier one stored under its own hashed
   * inputs, the two carry the same unhashed inputs.
   */
  ghost predicate Consistent(digest: Bytes -> string, done: seq<Event>, todo: seq<Event>)
    decreases todo
  {
    todo == [] ||
    (&& (todo[0].BuildOf? && todo[0].request.cacheable ==>
           HeldProject(All(true), digest, done, todo[0].request.epoch, todo[0].request.inputs)
           in {None, Some(todo[0].request.unhashed)})
     && Consistent(digest, done + [todo[0]], todo[1..]))
  }

  /** This build finds no project but a program, so it reaches the IR tier's emit. */
  ghost predicate ReachesIr(
      projects: Storing, programs: Storing, digest: Bytes -> string, done: seq<Event>, r: Request) {
    && HeldProject(projects, digest, done, r.epoch, r.inputs).None?
    && HeldProgram(projects, programs, digest, done, r.epoch, IrPart(r.inputs))
  }

  /** No build of the run reaches the IR tier's emit, when every program fits the cache and every or no project does. */
  ghost predicate Unreached(fit: bool, digest: Bytes -> string, done: seq<Event>, todo: seq<Event>)
    decreases todo
  {
    todo == [] ||
    (&& (todo[0].BuildOf? && todo[0].request.cacheable ==>
           !ReachesIr(All(fit), All(true), digest, done, todo[0].request))
     && Unreached(fit, digest, done + [todo[0]], todo[1..]))
  }

  /** On the requests of the run, the IR tier answers as the pipeline does, or not at all. */
  ghost predicate FastAgreesOn<P(!new), E(!new)>(world: World<P, E>, run: seq<Event>) {
    forall k :: 0 <= k < |run| && run[k].BuildOf? ==> FastAgreesAt(world(run[k].request.epoch), run[k].request)
  }

  ghost predicate Fitted(projects: Storing, run: seq<Event>) {
    forall k :: 0 <= k < |run| && run[k].BuildOf? && run[k].request.cacheable ==>
      projects(run[k].request.epoch, run[k].request.inputs, run[k].request.unhashed)
  }

  /** Every build of the run that may use the cache compiles to a project the cache can hold. */
  ghost predicate ProjectsFit<P(!new), E(!new)>(world: World<P, E>, run: seq<Event>) {
    Fitted(ProjectsOf(world), run)
  }

  /** Well-formed requests: an epoch name and inputs the key can frame. */
  ghost predicate ValidRequests(run: seq<Event>) {
    forall k :: 0 <= k < |run| && run[k].BuildOf? ==> IsEpoch(run[k].request.epoch) && Fits(run[k].request.inputs)
  }

  /** Bytes the cache can hold and no damage of the run leaves behind. */
  ghost predicate Spare(run: seq<Event>, bytes: Bytes) {
    |bytes| <= ENTRY_CAP && forall k :: 0 <= k < |run| && run[k].Damage? ==> run[k].bytes != bytes
  }

  // ---- histories under different compilers ----

  /** Where every build's project fits, the history is the one in which all do. */
  lemma {:induction false} FittedHistory(
      projects: Storing, digest: Bytes -> string, done: seq<Event>, epoch: string, i: Inputs)
    requires Fitted(projects, done)
    ensures HeldProject(projects, digest, done, epoch, i) == HeldProject(All(true), digest, done, epoch, i)
  {
    if done != [] { FittedHistory(projects, digest, done[..|done| - 1], epoch, i); }
  }

  lemma {:induction false} NoneHeld(digest: Bytes -> string, done: seq<Event>, epoch: string, i: Inputs)
    ensures HeldProject(All(false), digest, done, epoch, i) == None
  {
  }

  /** Programs pile up most where builds hit the project tier least. */
  lemma {:induction false} FewerHitsMorePrograms(
      projects: Storing, programs: Storing, fit: bool, digest: Bytes -> string, done: seq<Event>, epoch: string,
      j: IrInputs)
    requires fit ==> Fitted(projects, done)
    requires HeldProgram(projects, programs, digest, done, epoch, j)
    ensures HeldProgram(All(fit), All(true), digest, done, epoch, j)
  {
    var earlier := done[..|done| - 1];
    if HeldProgram(projects, programs, digest, earlier, epoch, j) {
      FewerHitsMorePrograms(projects, programs, fit, digest, earlier, epoch, j);
    } else {
      var r := done[|done| - 1].request;
      NoneHeld(digest, earlier, r.epoch, r.inputs);
      if fit { FittedHistory(projects, digest, earlier, r.epoch, r.inputs); }
    }
  }

  /** A project held is also held where every project fits, with the same unhashed inputs. */
  ghost predicate Covered(projects: Storing, digest: Bytes -> string, done: seq<Event>) {
    forall epoch, i :: HeldProject(projects, digest, done, epoch, i)
      in {None, HeldProject(All(true), digest, done, epoch, i)}
  }

  lemma {:induction false} ConsistentKeepsCovered(
      projects: Storing, digest: Bytes -> string, done: seq<Event>, todo: seq<Event>)
    requires todo != [] && Consistent(digest, done, todo) && Covered(projects, digest, done)
    ensures Covered(projects, digest, done + [todo[0]])
  {
    LastEvent(done, todo[0]);
  }

  // ---- the conditions are enough ----

  lemma {:induction false} ConsistentIsHarmless<P(!new), E(!new)>(
      world: World<P, E>, fit: bool, digest: Bytes -> string, done: seq<Event>, todo: seq<Event>)
    requires Consistent(digest, done, todo) && Covered(ProjectsOf(world), digest, done)
    requires
      || FastAgreesOn(world, todo)
      || ((fit ==> ProjectsFit(world, done + todo)) && Unreached(fit, digest, done, todo))
    ensures Harmless(world, digest, done, todo)
    decreases todo
  {
    if todo != [] {
      var ev := todo[0];
      if ev.BuildOf? && ev.request.cacheable {
        ConsistentIsHarmlessAt(world, fit, digest, done, todo);
      }
      assert done + [ev] + todo[1..] == done + todo;
      assert forall k :: 0 <= k < |todo[1..]| ==> todo[1..][k] == todo[k + 1];
      ConsistentKeepsCovered(ProjectsOf(world), digest, done, todo);
      ConsistentIsHarmless(world, fit, digest, done + [ev], todo[1..]);
    }
  }

  lemma {:induction false} ConsistentIsHarmlessAt<P(!new), E(!new)>(
      world: World<P, E>, fit: bool, digest: Bytes -> string, done: seq<Event>, todo: seq<Event>)
    requires todo != [] && todo[0].BuildOf? && todo[0].request.cacheable
    requires Consistent(digest, done, todo) && Covered(ProjectsOf(world), digest, done)
    requires
      || FastAgreesOn(world, todo)
      || ((fit ==> ProjectsFit(world, done + todo)) && Unreached(fit, digest, done, todo))
    ensures HarmlessAt(world, digest, done, todo[0].request)
  {
    var r := todo[0].request;
    if !FastAgreesOn(world, todo) && ReachesIr(ProjectsOf(world), ProgramsOf(world), digest, done, r) {
      if fit {
        assert forall k :: 0 <= k < |done| ==> (done + todo)[k] == done[k];
        FittedHistory(ProjectsOf(world), digest, done, r.epoch, r.inputs);
      }
      NoneHeld(digest, done, r.epoch, r.inputs);
      FewerHitsMorePrograms(ProjectsOf(world), ProgramsOf(world), fit, digest, done, r.epoch, IrPart(r.inputs));
      assert false;
    }
  }

  /**
   * A consistent run is transparent wherever the IR tier agrees on its own
   * requests, or its projects fit and no build reaches the IR tier's emit, or
   * none would reach it even if no project fitted.
   */
  lemma {:induction false} ConsistentIsTransparent<P(!new), E(!new)>(
      world: World<P, E>, digest: Bytes -> string, run: seq<Event>)
    requires LawfulWorld(world) && ValidRun(world, run) && SeparatesRun(digest, run)
    requires Consistent(digest, [], run)
    requires
      || FastAgreesOn(world, run)
      || Unreached(false, digest, [], run)
      || (ProjectsFit(world, run) && Unreached(true, digest, [], run))
    ensures Transparent(world, digest, map[], run)
  {
    assert [] + run == run;
    ConsistentIsHarmless(world, !Unreached(false, digest, [], run), digest, [], run);
    FreshRunTransparentExactly(world, digest, run);
  }

  // ---- the conditions are needed ----

  /** A compiler that emits one project for the unhashed inputs `u`, another for all others, and caches no program. */
  ghost function SensitiveToolchain<P(!new), E(!new)>(p: P, e0: E, e1: E, u: Unhashed, m0: Bytes, m1: Bytes)
    : Toolchain<P, E>
  {
    Toolchain(
      (entry, modules) => Some(p),
      (program, i, v) => Some(if v == u then e0 else e1),
      (program, i, v) => Some(if v == u then e0 else e1),
      program => false,
      e => if e == e0 then Some(m0) else if e == e1 then Some(m1) else None,
      bytes => if bytes == m0 then Some(e0) else if bytes == m1 then Some(e1) else None,
      program => None,
      bytes => None)
  }

  /** A compiler whose IR tier emits another project than its pipeline; `fits` says whether it can cache projects. */
  ghost function SplitToolchain<P(!new), E(!new)>(p: P, e0: E, e1: E, fits: bool, m0: Bytes, m1: Bytes)
    : Toolchain<P, E>
  {
    Toolchain(
      (entry, modules) => Some(p),
      (program, i, v) => Some(e0),
      (program, i, v) => Some(e1),
      program => false,
      e => if !fits then None else if e == e0 then Some(m0) else if e == e1 then Some(m1) else None,
      bytes => if bytes == m0 then Some(e0) else if bytes == m1 then Some(e1) else None,
      program => if program == p then Some(m0) else None,
      bytes => if bytes == m0 then Some(p) else None)
  }

  ghost function SensitiveWorld<P(!new), E(!new)>(p: P, e0: E, e1: E, u: Unhashed, m0: Bytes, m1: Bytes)
    : World<P, E>
  {
    (epoch: string) => SensitiveToolchain(p, e0, e1, u, m0, m1)
  }

  ghost function SplitWorld<P(!new), E(!new)>(p: P, e0: E, e1: E, fits: bool, m0: Bytes, m1: Bytes): World<P, E> {
    (epoch: string) => SplitToolchain(p, e0, e1, fits, m0, m1)
  }

  /** The sensitive compilers are lawful, agree with themselves, and fit the run. */
  lemma {:induction false} SensitiveFitsRun<P(!new), E(!new)>(
      run: seq<Event>, p: P, e0: E, e1: E, u: Unhashed, m0: Bytes, m1: Bytes)
    requires ValidRequests(run) && m0 != m1 && Spare(run, m0) && Spare(run, m1)
    ensures var world := SensitiveWorld(p, e0, e1, u, m0, m1);
      LawfulWorld(world) && ValidRun(world, run) && FastAgreesOn(world, run) && ProjectsFit(world, run)
  {
  }

  /** So are the split ones, but that their IR tier never agrees. */
  lemma {:induction false} SplitFitsRun<P(!new), E(!new)>(
      run: seq<Event>, p: P, e0: E, e1: E, fits: bool, m0: Bytes, m1: Bytes)
    requires ValidRequests(run) && m0 != m1 && Spare(run, m0) && Spare(run, m1)
    ensures var world := SplitWorld(p, e0, e1, fits, m0, m1);
      LawfulWorld(world) && ValidRun(world, run) && (fits ==> ProjectsFit(world, run))
  {
  }

  lemma {:induction false} SensitiveStores<P(!new), E(!new)>(p: P, e0: E, e1: E, u: Unhashed, m0: Bytes, m1: Bytes)
    requires |m0| <= ENTRY_CAP && |m1| <= ENTRY_CAP
    ensures forall epoch, i, v :: ProjectsOf(SensitiveWorld(p, e0, e1, u, m0, m1))(epoch, i, v)
  {
    var world := SensitiveWorld(p, e0, e1, u, m0, m1);
    forall epoch, i, v ensures ProjectsOf(world)(epoch, i, v) { assert StoresProject(world(epoch), i, v); }
  }

  /** If what a run finds harms no sensitive compiler, the run is consistent. */
  lemma {:induction false} SensitiveForcesConsistency<P(!new), E(!new)>(
      p: P, e0: E, e1: E, m0: Bytes, m1: Bytes, digest: Bytes -> string, done: seq<Event>, todo: seq<Event>)
    requires e0 != e1 && m0 != m1 && |m0| <= ENTRY_CAP && |m1| <= ENTRY_CAP
    requires forall u :: Harmless(SensitiveWorld(p, e0, e1, u, m0, m1), digest, done, todo)
    ensures Consistent(digest, done, todo)
    decreases todo
  {
    if todo != [] {
      forall u ensures Harmless(SensitiveWorld(p, e0, e1, u, m0, m1), digest, done + [todo[0]], todo[1..]) {
        assert Harmless(SensitiveWorld(p, e0, e1, u, m0, m1), digest, done, todo);
      }
      SensitiveForcesConsistency(p, e0, e1, m0, m1, digest, done + [todo[0]], todo[1..]);
      if todo[0].BuildOf? && todo[0].request.cacheable {
        var r := todo[0].request;
        var held := HeldProject(All(true), digest, done, r.epoch, r.inputs);
        if held.Some? {
          var world := SensitiveWorld(p, e0, e1, held.value, m0, m1);
          SensitiveStores(p, e0, e1, held.value, m0, m1);
          FittedHistory(ProjectsOf(world), digest, done, r.epoch, r.inputs);
          assert Harmless(world, digest, done, todo);
        }
      }
    }
  }

  lemma {:induction false} SplitStores<P(!new), E(!new)>(p: P, e0: E, e1: E, fits: bool, m0: Bytes, m1: Bytes)
    requires |m0| <= ENTRY_CAP
    ensures var world := SplitWorld(p, e0, e1, fits, m0, m1);
      forall epoch, i, v ::
        (ProjectsOf(world)(epoch, i, v) <==> fits) && (ProgramsOf(world)(epoch, i, v) <==> Fits(i))
  {
    var world := SplitWorld(p, e0, e1, fits, m0, m1);
    forall epoch, i, v
      ensures (ProjectsOf(world)(epoch, i, v) <==> fits) && (ProgramsOf(world)(epoch, i, v) <==> Fits(i))
    {
      assert StoresProject(world(epoch), i, v) <==> fits;
      assert StoresProgram(world(epoch), i, v) <==> Fits(i);
    }
  }

  /** In a split world every program fits, and every project or none. */
  lemma {:induction false} SplitHistory<P(!new), E(!new)>(
      p: P, e0: E, e1: E, fits: bool, m0: Bytes, m1: Bytes, digest: Bytes -> string, done: seq<Event>, epoch: string,
      i: Inputs, j: IrInputs)
    requires ValidRequests(done) && |m0| <= ENTRY_CAP
    ensures var world := SplitWorld(p, e0, e1, fits, m0, m1);
      && HeldProject(ProjectsOf(world), digest, done, epoch, i) == HeldProject(All(fits), digest, done, epoch, i)
      && (HeldProgram(ProjectsOf(world), ProgramsOf(world), digest, done, epoch, j) <==>
          HeldProgram(All(fits), All(true), digest, done, epoch, j))
  {
    SplitStores(p, e0, e1, fits, m0, m1);
    if done != [] {
      var earlier, last := done[..|done| - 1], done[|done| - 1];
      SplitHistory(p, e0, e1, fits, m0, m1, digest, earlier, epoch, i, j);
      if last.BuildOf? {
        SplitHistory(p, e0, e1, fits, m0, m1, digest, earlier, epoch, last.request.inputs, j);
      }
    }
  }

  /** If what a run finds does not harm the split compiler, no build reaches the IR tier's emit. */
  lemma {:induction false} SplitForcesUnreached<P(!new), E(!new)>(
      p: P, e0: E, e1: E, fits: bool, m0: Bytes, m1: Bytes, digest: Bytes -> string, done: seq<Event>,
      todo: seq<Event>)
    requires e0 != e1 && |m0| <= ENTRY_CAP && ValidRequests(done) && ValidRequests(todo)
    requires Harmless(SplitWorld(p, e0, e1, fits, m0, m1), digest, done, todo)
    ensures Unreached(fits, digest, done, todo)
    decreases todo
  {
    if todo != [] {
      if todo[0].BuildOf? && todo[0].request.cacheable {
        var r := todo[0].request;
        SplitHistory(p, e0, e1, fits, m0, m1, digest, done, r.epoch, r.inputs, IrPart(r.inputs));
      }
      assert forall k :: 0 <= k < |todo[1..]| ==> todo[1..][k] == todo[k + 1];
      SplitForcesUnreached(p, e0, e1, fits, m0, m1, digest, done + [todo[0]], todo[1..]);
    }
  }

  // ---- which runs hide the cache ----

  /** If every sensitive compiler hides the cache, the run is consistent. */
  lemma {:induction false} HidingNeedsConsistency<P(!new), E(!new)>(
      digest: Bytes -> string, run: seq<Event>, p: P, e0: E, e1: E, m0: Bytes, m1: Bytes)
    requires SeparatesRun(digest, run) && ValidRequests(run)
    requires e0 != e1 && m0 != m1 && Spare(run, m0) && Spare(run, m1)
    requires forall u :: Transparent(SensitiveWorld(p, e0, e1, u, m0, m1), digest, map[], run)
    ensures Consistent(digest, [], run)
  {
    forall u ensures Harmless(SensitiveWorld(p, e0, e1, u, m0, m1), digest, [], run) {
      SensitiveFitsRun(run, p, e0, e1, u, m0, m1);
      assert Transparent(SensitiveWorld(p, e0, e1, u, m0, m1), digest, map[], run);
      FreshRunTransparentExactly(SensitiveWorld(p, e0, e1, u, m0, m1), digest, run);
    }
    SensitiveForcesConsistency(p, e0, e1, m0, m1, digest, [], run);
  }

  /** If a split compiler hides the cache, no build reaches the IR tier's emit. */
  lemma {:induction false} HidingNeedsUnreached<P(!new), E(!new)>(
      digest: Bytes -> string, run: seq<Event>, p: P, e0: E, e1: E, fits: bool, m0: Bytes, m1: Bytes)
    requires SeparatesRun(digest, run) && ValidRequests(run)
    requires e0 != e1 && m0 != m1 && Spare(run, m0) && Spare(run, m1)
    requires Transparent(SplitWorld(p, e0, e1, fits, m0, m1), digest, map[], run)
    ensures Unreached(fits, digest, [], run)
  {
    SplitFitsRun(run, p, e0, e1, fits, m0, m1);
    FreshRunTransparentExactly(SplitWorld(p, e0, e1, fits, m0, m1), digest, run);
    SplitForcesUnreached(p, e0, e1, fits, m0, m1, digest, [], run);
  }

  /**
   * Under every compiler whose IR tier agrees with its pipeline on the run's own
   * requests, the run is transparent exactly when it is consistent.
   */
  lemma {:induction false} ConsistentExactly<P(!new), E(!new)>(
      digest: Bytes -> string, run: seq<Event>, p: P, e0: E, e1: E, m0: Bytes, m1: Bytes)
    requires SeparatesRun(digest, run) && ValidRequests(run)
    requires e0 != e1 && m0 != m1 && Spare(run, m0) && Spare(run, m1)
    ensures Consistent(digest, [], run) <==>
      forall world: World<P, E> :: LawfulWorld(world) && ValidRun(world, run) && FastAgreesOn(world, run) ==>
        Transparent(world, digest, map[], run)
  {
    if Consistent(digest, [], run) {
      forall world: World<P, E> | LawfulWorld(world) && ValidRun(world, run) && FastAgreesOn(world, run)
        ensures Transparent(world, digest, map[], run)
      {
        ConsistentIsTransparent(world, digest, run);
      }
    }
    if forall world: World<P, E> :: LawfulWorld(world) && ValidRun(world, run) && FastAgreesOn(world, run) ==>
         Transparent(world, digest, map[], run) {
      forall u ensures Transparent(SensitiveWorld(p, e0, e1, u, m0, m1), digest, map[], run) {
        SensitiveFitsRun(run, p, e0, e1, u, m0, m1);
      }
      HidingNeedsConsistency(digest, run, p, e0, e1, m0, m1);
    }
  }

  /**
   * Under every compiler whose projects all fit the cache, the run is transparent
   * exactly when it is consistent and no build reaches the IR tier's emit.
   */
  lemma {:induction false} HiddenExactly<P(!new), E(!new)>(
      digest: Bytes -> string, run: seq<Event>, p: P, e0: E, e1: E, m0: Bytes, m1: Bytes)
    requires SeparatesRun(digest, run) && ValidRequests(run)
    requires e0 != e1 && m0 != m1 && Spare(run, m0) && Spare(run, m1)
    ensures Consistent(digest, [], run) && Unreached(true, digest, [], run) <==>
      forall world: World<P, E> :: LawfulWorld(world) && ValidRun(world, run) && ProjectsFit(world, run) ==>
        Transparent(world, digest, map[], run)
  {
    if Consistent(digest, [], run) && Unreached(true, digest, [], run) {
      forall world: World<P, E> | LawfulWorld(world) && ValidRun(world, run) && ProjectsFit(world, run)
        ensures Transparent(world, digest, map[], run)
      {
        ConsistentIsTransparent(world, digest, run);
      }
    }
    if forall world: World<P, E> :: LawfulWorld(world) && ValidRun(world, run) && ProjectsFit(world, run) ==>
         Transparent(world, digest, map[], run) {
      forall u ensures Transparent(SensitiveWorld(p, e0, e1, u, m0, m1), digest, map[], run) {
        SensitiveFitsRun(run, p, e0, e1, u, m0, m1);
      }
      HidingNeedsConsistency(digest, run, p, e0, e1, m0, m1);
      SplitFitsRun(run, p, e0, e1, true, m0, m1);
      HidingNeedsUnreached(digest, run, p, e0, e1, true, m0, m1);
    }
  }

  /**
   * Under every compiler at all, exactly when it is consistent and no build would
   * reach the IR tier's emit even if no project fitted the cache.
   */
  lemma {:induction false} HiddenFromAllExactly<P(!new), E(!new)>(
      digest: Bytes -> string, run: seq<Event>, p: P, e0: E, e1: E, m0: Bytes, m1: Bytes)
    requires SeparatesRun(digest, run) && ValidRequests(run)
    requires e0 != e1 && m0 != m1 && Spare(run, m0) && Spare(run, m1)
    ensures Consistent(digest, [], run) && Unreached(false, digest, [], run) <==>
      forall world: World<P, E> :: LawfulWorld(world) && ValidRun(world, run) ==> Transparent(world, digest, map[], run)
  {
    if Consistent(digest, [], run) && Unreached(false, digest, [], run) {
      forall world: World<P, E> | LawfulWorld(world) && ValidRun(world, run)
        ensures Transparent(world, digest, map[], run)
      {
        ConsistentIsTransparent(world, digest, run);
      }
    }
    if forall world: World<P, E> :: LawfulWorld(world) && ValidRun(world, run) ==>
         Transparent(world, digest, map[], run) {
      ConsistentExactly(digest, run, p, e0, e1, m0, m1);
      SplitFitsRun(run, p, e0, e1, false, m0, m1);
      HidingNeedsUnreached(digest, run, p, e0, e1, false, m0, m1);
    }
  }
}
