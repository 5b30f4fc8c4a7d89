/**
 * Which compilers hide the build cache in every run, and how any other is
 * caught in two or three events.
 */
module CacheCompilers {
  import opened Prelude
  import opened Framing
  import opened Keys
  import opened BuildCache
  import opened CacheRuns

  /** A cacheable project does not depend on the inputs the project key leaves out. */
  ghost predicate Insensitive<P(!new), E(!new)>(tc: Toolchain<P, E>) {
    forall i, u, u' ::
      Fits(i) && FullCompile(tc, i, u).Some? && Fitting(tc.encodeProject(FullCompile(tc, i, u).value)) ==>
        FullCompile(tc, i, u') == FullCompile(tc, i, u)
  }

  /** The program `p` may sit in the IR tier under the address of `j`. */
  ghost predicate Lowered<P, E>(tc: Toolchain<P, E>, j: IrInputs, p: P) {
    && tc.lower(j.entry, j.modules) == Some(p) && Fitting(tc.encodeIr(p))
    && exists i, u :: Fits(i) && IrPart(i) == j && FullCompile(tc, i, u).Some?
  }

  ghost predicate Disagrees<P, E>(tc: Toolchain<P, E>, i: Inputs, u: Unhashed, p: P) {
    && Fits(i) && Lowered(tc, IrPart(i), p)
    && FastPath(tc, p, i, u) != None && FastPath(tc, p, i, u) != Some(FullCompile(tc, i, u))
  }

  /** On a program the IR tier can hold, the fast path answers as the pipeline does or not at all. */
  ghost predicate FastAgrees<P(!new), E(!new)>(tc: Toolchain<P, E>) {
    forall i, u, p :: !Disagrees(tc, i, u, p)
  }

  ghost predicate Agreeing<P(!new), E(!new)>(tc: Toolchain<P, E>) {
    Insensitive(tc) && FastAgrees(tc)
  }

  ghost predicate AgreeingWorld<P(!new), E(!new)>(world: World<P, E>) {
    forall epoch :: IsEpoch(epoch) ==> Agreeing(world(epoch))
  }

  ghost predicate NeverCollides(digest: Bytes -> string) {
    CollisionFree(digest, iset s: Bytes | IsHex(digest(s)))
  }

  // ---- agreement is enough ----

  lemma {:induction false} AgreeingIsHarmlessAt<P(!new), E(!new)>(
      world: World<P, E>, digest: Bytes -> string, done: seq<Event>, r: Request)
    requires Agreeing(world(r.epoch)) && Fits(r.inputs)
    ensures HarmlessAt(world, digest, done, r)
  {
    var tc, j := world(r.epoch), IrPart(r.inputs);
    if HeldProgram(ProjectsOf(world), ProgramsOf(world), digest, done, r.epoch, j) {
      var i, u := ProgramHeldBy(ProjectsOf(world), ProgramsOf(world), digest, done, r.epoch, j);
      var p := tc.lower(i.entry, i.modules).value;
      assert Fits(i) && IrPart(i) == j && FullCompile(tc, i, u).Some?;
      assert Lowered(tc, j, p);
      assert !Disagrees(tc, r.inputs, r.unhashed, p);
    }
  }

  lemma {:induction false} AgreeingIsHarmless<P(!new), E(!new)>(
      world: World<P, E>, digest: Bytes -> string, done: seq<Event>, todo: seq<Event>)
    requires AgreeingWorld(world) && ValidRun(world, todo)
    ensures Harmless(world, digest, done, todo)
    decreases todo
  {
    if todo != [] {
      if todo[0].BuildOf? {
        AgreeingIsHarmlessAt(world, digest, done, todo[0].request);
      }
      AgreeingIsHarmless(world, digest, done + [todo[0]], todo[1..]);
    }
  }

  lemma {:induction false} NeverCollidesSeparates(digest: Bytes -> string, run: seq<Event>)
    requires NeverCollides(digest)
    ensures SeparatesRun(digest, run)
  {
    var universe := iset s: Bytes | IsHex(digest(s));
    assert Separates(digest, universe, run);
  }

  lemma {:induction false} AgreementIsEnough<P(!new), E(!new)>(
      world: World<P, E>, digest: Bytes -> string, run: seq<Event>)
    requires LawfulWorld(world) && AgreeingWorld(world) && NeverCollides(digest) && ValidRun(world, run)
    ensures Transparent(world, digest, map[], run)
  {
    AgreeingIsHarmless(world, digest, [], run);
    NeverCollidesSeparates(digest, run);
    FreshRunTransparentExactly(world, digest, run);
  }

  // ---- agreement is needed ----

  /** A build that finds neither entry compiles, and then serves what it stored. */
  lemma {:induction false} MissStores<P(!new), E(!new)>(
      tc: Toolchain<P, E>, digest: Bytes -> string, disk: Disk, r: Request, e: E)
    requires Lawful(tc) && HexDigest(digest) && IsEpoch(r.epoch) && r.cacheable
    requires FullCompile(tc, r.inputs, r.unhashed) == Some(e)
    requires TryLoad(tc, disk, r.epoch, ProjectKey(digest, r.inputs)).None?
    requires TryLoadIr(tc, disk, r.epoch, IrKey(digest, r.inputs)).None?
    ensures var disk' := Build(tc, digest, disk, r).0;
      var p := tc.lower(r.inputs.entry, r.inputs.modules).value;
      && (r.wroteProject && Fitting(tc.encodeProject(e)) ==>
            TryLoad(tc, disk', r.epoch, ProjectKey(digest, r.inputs)) == Some(e))
      && (r.wroteIr && Fitting(tc.encodeIr(p)) ==> TryLoadIr(tc, disk', r.epoch, IrKey(digest, r.inputs)) == Some(p))
  {
    var key, irKey := ProjectKey(digest, r.inputs), IrKey(digest, r.inputs);
    var p := tc.lower(r.inputs.entry, r.inputs.modules).value;
    var stored := Store(tc, disk, r.epoch, key, e, r.wroteProject);
    StoreLands(tc, disk, r.epoch, key, e);
    StoreIrLands(tc, stored, r.epoch, irKey, p);
    StoreIrEffect(tc, stored, r.epoch, irKey, p, r.wroteIr, tc, r.epoch, key);
  }

  /** An emission that reads an unhashed input is caught serving a stale project by two builds. */
  lemma {:induction false} SensitiveIsObserved<P(!new), E(!new)>(
      world: World<P, E>, digest: Bytes -> string, epoch: string, i: Inputs, u: Unhashed, u': Unhashed)
    requires LawfulWorld(world) && HexDigest(digest) && IsEpoch(epoch)
    requires FullCompile(world(epoch), i, u).Some?
    requires Fitting(world(epoch).encodeProject(FullCompile(world(epoch), i, u).value))
    requires FullCompile(world(epoch), i, u') != FullCompile(world(epoch), i, u)
    ensures !Transparent(world, digest, map[], TwoBuilds(epoch, i, u, u'))
  {
    var run := TwoBuilds(epoch, i, u, u');
    MissStores(world(epoch), digest, map[], run[0].request, FullCompile(world(epoch), i, u).value);
    var disk := After(world, digest, map[], run[0]);
    assert !Unobservable(world, digest, disk, run[1]);
    assert run[1..] == [run[1]];
    assert !Transparent(world, digest, disk, [run[1]]);
  }

  /** The same inputs built twice, with different unhashed inputs. */
  ghost function TwoBuilds(epoch: string, i: Inputs, u: Unhashed, u': Unhashed): seq<Event> {
    [BuildOf(Request(epoch, i, u, true, true, true)), BuildOf(Request(epoch, i, u', true, true, true))]
  }

  /** Build, lose the project entry, build again. */
  ghost function LossyRun(
      digest: Bytes -> string, epoch: string, i0: Inputs, u0: Unhashed, i: Inputs, u: Unhashed): seq<Event> {
    [BuildOf(Request(epoch, i0, u0, true, true, true)),
     Delete(Address(epoch, EntryFileName(ProjectKey(digest, i)))),
     BuildOf(Request(epoch, i, u, true, true, true))]
  }

  /** Losing the project entry loses no program. */
  lemma {:induction false} ProgramOutlivesProject<P(!new), E(!new)>(
      tc: Toolchain<P, E>, disk: Disk, epoch: string, key: string, irKey: string)
    requires IsHex(key) && IsHex(irKey)
    ensures TryLoad(tc, disk - {Address(epoch, EntryFileName(key))}, epoch, key) == None
    ensures TryLoadIr(tc, disk - {Address(epoch, EntryFileName(key))}, epoch, irKey) ==
      TryLoadIr(tc, disk, epoch, irKey)
  {
    FileNamesJointlyInjective(key, irKey);
  }

  /** A fast path that answers differently is caught once its project entry is gone. */
  lemma {:induction false} DisagreeingFastPathIsObserved<P(!new), E(!new)>(
      world: World<P, E>, digest: Bytes -> string, epoch: string, i: Inputs, u: Unhashed, p: P, i0: Inputs,
      u0: Unhashed)
    requires LawfulWorld(world) && HexDigest(digest) && IsEpoch(epoch)
    requires IrPart(i0) == IrPart(i) && FullCompile(world(epoch), i0, u0).Some?
    requires world(epoch).lower(i.entry, i.modules) == Some(p) && Fitting(world(epoch).encodeIr(p))
    requires FastPath(world(epoch), p, i, u) !in {None, Some(FullCompile(world(epoch), i, u))}
    ensures !Transparent(world, digest, map[], LossyRun(digest, epoch, i0, u0, i, u))
  {
    var run := LossyRun(digest, epoch, i0, u0, i, u);
    var tc, key, irKey := world(epoch), ProjectKey(digest, i), IrKey(digest, i);
    MissStores(tc, digest, map[], run[0].request, FullCompile(tc, i0, u0).value);
    var disk := After(world, digest, map[], run[0]);
    ProgramOutlivesProject(tc, disk, epoch, key, irKey);
    FastAnswers(tc, After(world, digest, disk, run[1]), run[2].request, key, irKey, p);
    LastExposes(world, digest, run);
  }

  /** A build that finds only a program answers with the fast path, when that answers. */
  lemma {:induction false} FastAnswers<P(!new), E(!new)>(
      tc: Toolchain<P, E>, disk: Disk, r: Request, key: string, irKey: string, p: P)
    requires r.cacheable && TryLoad(tc, disk, r.epoch, key).None? && TryLoadIr(tc, disk, r.epoch, irKey) == Some(p)
    requires FastPath(tc, p, r.inputs, r.unhashed).Some?
    ensures Some(BuildWith(tc, disk, r, key, irKey).1) == FastPath(tc, p, r.inputs, r.unhashed)
  {
  }

  lemma {:induction false} LastExposes<P(!new), E(!new)>(world: World<P, E>, digest: Bytes -> string, run: seq<Event>)
    requires |run| == 3
    requires var disk := After(world, digest, After(world, digest, map[], run[0]), run[1]);
      !Unobservable(world, digest, disk, run[2])
    ensures !Transparent(world, digest, map[], run)
  {
    var disk1 := After(world, digest, map[], run[0]);
    assert !Transparent(world, digest, After(world, digest, disk1, run[1]), run[1..][1..]);
    assert !Transparent(world, digest, disk1, run[1..]);
  }

  lemma {:induction false} SensitivityIsObserved<P(!new), E(!new)>(
      world: World<P, E>, digest: Bytes -> string, epoch: string)
      returns (run: seq<Event>)
    requires LawfulWorld(world) && HexDigest(digest) && IsEpoch(epoch) && !Insensitive(world(epoch))
    ensures ValidRun(world, run) && !Transparent(world, digest, map[], run)
  {
    var tc := world(epoch);
    var i, u, u' :| Fits(i) && FullCompile(tc, i, u).Some? && Fitting(tc.encodeProject(FullCompile(tc, i, u).value))
                    && FullCompile(tc, i, u') != FullCompile(tc, i, u);
    SensitiveIsObserved(world, digest, epoch, i, u, u');
    run := TwoBuilds(epoch, i, u, u');
  }

  lemma {:induction false} WhoStored<P(!new), E(!new)>(tc: Toolchain<P, E>, j: IrInputs, p: P)
      returns (i: Inputs, u: Unhashed)
    requires Lowered(tc, j, p)
    ensures Fits(i) && IrPart(i) == j && FullCompile(tc, i, u).Some?
  {
    i, u :| Fits(i) && IrPart(i) == j && FullCompile(tc, i, u).Some?;
  }

  lemma {:induction false} DisagreementIsObserved<P(!new), E(!new)>(
      world: World<P, E>, digest: Bytes -> string, epoch: string)
      returns (run: seq<Event>)
    requires LawfulWorld(world) && HexDigest(digest) && IsEpoch(epoch) && !FastAgrees(world(epoch))
    ensures ValidRun(world, run) && !Transparent(world, digest, map[], run)
  {
    var tc := world(epoch);
    var i, u, p :| Disagrees(tc, i, u, p);
    var i0, u0 := WhoStored(tc, IrPart(i), p);
    DisagreeingFastPathIsObserved(world, digest, epoch, i, u, p, i0, u0);
    run := LossyRun(digest, epoch, i0, u0, i, u);
  }

  /**
   * The cache is unobservable over every run exactly when, in every compiler,
   * cacheable emission ignores the unhashed inputs and the IR fast path emits
   * what the pipeline emits.
   */
  lemma {:induction false} TransparencyExactly<P(!new), E(!new)>(world: World<P, E>, digest: Bytes -> string)
    requires LawfulWorld(world) && NeverCollides(digest)
    ensures AgreeingWorld(world) <==> forall run :: ValidRun(world, run) ==> Transparent(world, digest, map[], run)
  {
    if AgreeingWorld(world) {
      forall run | ValidRun(world, run) ensures Transparent(world, digest, map[], run) {
        AgreementIsEnough(world, digest, run);
      }
    } else {
      var epoch :| IsEpoch(epoch) && !Agreeing(world(epoch));
      if Insensitive(world(epoch)) {
        var run := DisagreementIsObserved(world, digest, epoch);
      } else {
        var run := SensitivityIsObserved(world, digest, epoch);
      }
    }
  }

  // ---- two ways this compiler is caught ----

  /** Where emission reads the package name, renaming the package between two builds serves the old name. */
  lemma {:induction false} RenameServesOldName<P(!new), E(!new)>(
      world: World<P, E>, digest: Bytes -> string, epoch: string, i: Inputs, u: Unhashed, name: Bytes)
    requires LawfulWorld(world) && HexDigest(digest) && IsEpoch(epoch)
    requires FullCompile(world(epoch), i, u).Some?
    requires Fitting(world(epoch).encodeProject(FullCompile(world(epoch), i, u).value))
    requires FullCompile(world(epoch), i, u.(cargoName := name)) != FullCompile(world(epoch), i, u)
    ensures var run := TwoBuilds(epoch, i, u, u.(cargoName := name));
      var disk := After(world, digest, map[], run[0]);
      && !Transparent(world, digest, map[], run)
      && Build(world(epoch), digest, disk, run[1].request).1 == FullCompile(world(epoch), i, u)
  {
    var run := TwoBuilds(epoch, i, u, u.(cargoName := name));
    MissStores(world(epoch), digest, map[], run[0].request, FullCompile(world(epoch), i, u).value);
    SensitiveIsObserved(world, digest, epoch, i, u, u.(cargoName := name));
  }

  /**
   * Where the pipeline ignores the desktop window and the IR tier's emit is the
   * pipeline's without one but not with one, a window shows once the IR tier is hit.
   */
  lemma {:induction false} WindowOnlyOnFastPath<P(!new), E(!new)>(
      world: World<P, E>, digest: Bytes -> string, epoch: string, i: Inputs, u: Unhashed, p: P)
    requires LawfulWorld(world) && HexDigest(digest) && IsEpoch(epoch)
    requires world(epoch).lower(i.entry, i.modules) == Some(p) && Fitting(world(epoch).encodeIr(p))
    requires FullCompile(world(epoch), i, u).Some?
    requires FullCompile(world(epoch), i.(window := None), u) == FullCompile(world(epoch), i, u)
    requires FastPath(world(epoch), p, i.(window := None), u) == Some(FullCompile(world(epoch), i.(window := None), u))
    requires FastPath(world(epoch), p, i, u) !in {None, FastPath(world(epoch), p, i.(window := None), u)}
    ensures !Transparent(world, digest, map[], LossyRun(digest, epoch, i, u, i, u))
  {
    DisagreeingFastPathIsObserved(world, digest, epoch, i, u, p, i, u);
  }
}
