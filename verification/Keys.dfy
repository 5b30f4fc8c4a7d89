/**
 * The content address of a build: which bytes the two cache tiers hash, and
 * why equal addresses mean equal inputs.
 */
module Keys {
  import opened Prelude
  import opened Orders
  import opened Framing

  datatype Target = Native | WasmClient | WasmWasi
  datatype Intent = Development | Release
  datatype Driver = Sqlite | Postgres
  datatype Window = Window(title: Bytes, width: int, height: int)

  /** A module path: its segments. */
  type Path = seq<Bytes>

  /** One in-scope module: its source text, and whether the driver injected it as standard library. */
  datatype Module = Module(text: Bytes, injected: bool)

  /** Every input `compute_project_key` hashes. */
  datatype Inputs = Inputs(
    target: Target,
    hotAppearance: bool,
    webviewHost: bool,
    window: Option<Window>,
    intent: Intent,
    debugger: bool,
    entry: Path,
    driver: Driver,
    publicEnv: seq<Bytes>,
    modules: map<Path, Module>)

  /** The narrower inputs `compute_ir_key` hashes. */
  datatype IrInputs = IrInputs(target: Target, entry: Path, modules: map<Path, Module>)

  function IrPart(i: Inputs): IrInputs {
    IrInputs(i.target, i.entry, i.modules)
  }

  /** The modules of a `path -> (file, text)` map, each tagged by membership in the injected set. */
  function TaggedModules(sources: map<Path, (Bytes, Bytes)>, injected: set<Path>): map<Path, Module> {
    map p | p in sources :: Module(sources[p].1, p in injected)
  }

  // ---- values a 64-bit process can hold ----

  ghost predicate IsI64(v: int) {
    -0x8000_0000_0000_0000 <= v < 0x8000_0000_0000_0000
  }

  ghost predicate FitsWindow(w: Window) {
    Addressable(w.title) && IsI64(w.width) && IsI64(w.height)
  }

  ghost predicate FitsModules(modules: map<Path, Module>) {
    && |modules| <= U64_MAX
    && forall p :: p in modules ==> AddressableList(p) && Addressable(modules[p].text)
  }

  ghost predicate Fits(i: Inputs) {
    && (i.window.Some? ==> FitsWindow(i.window.value))
    && AddressableList(i.entry) && AddressableList(i.publicEnv) && FitsModules(i.modules)
  }

  ghost predicate FitsIr(i: IrInputs) {
    AddressableList(i.entry) && FitsModules(i.modules)
  }

  // ---- the byte streams ----

  function Ascii(s: string): (r: Bytes)
    ensures |r| == |s|
  {
    seq(|s|, i requires 0 <= i < |s| => s[i] as int % 256)
  }

  const KEY_TAG: Bytes := Ascii("ipec-build-cache-key-v2")
  const IR_KEY_TAG: Bytes := Ascii("ipec-build-cache-ir-key-v1")
  const TREE_TAG: Bytes := Ascii("ipe-source-tree-v1")
  const EPOCH_TAG: Bytes := Ascii("ipec-build-cache-epoch-v1")

  /** The debug rendering of a target. */
  function TargetName(t: Target): Bytes {
    match t
    case Native => Ascii("Native")
    case WasmClient => Ascii("WasmClient")
    case WasmWasi => Ascii("WasmWasi")
  }

  function Flag(b: bool): Bytes {
    [if b then 1 else 0]
  }

  /** `i64::to_le_bytes`: the two's-complement bytes, least significant first. */
  function I64Bytes(v: int): Bytes {
    Le64(v % TWO64)
  }

  function WindowThen(w: Option<Window>, rest: Bytes): Bytes {
    match w
    case None => [0] + rest
    case Some(w) => [1] + FrameThen(w.title, I64Bytes(w.width) + (I64Bytes(w.height) + rest))
  }

  function IntentByte(i: Intent): Bytes {
    [if i.Development? then 0 else 1]
  }

  function DriverByte(d: Driver): Bytes {
    [if d.Sqlite? then 0 else 1]
  }

  predicate ByteLe(a: byte, b: byte) { a <= b }
  predicate BytesLe(a: Bytes, b: Bytes) { LexLe(ByteLe, a, b) }
  predicate PathLe(a: Path, b: Path) { LexLe(BytesLe, a, b) }

  lemma {:induction false} BytesTotalOrder()
    ensures TotalOrder(BytesLe)
  {
    forall a: Bytes ensures BytesLe(a, a) { LexLeReflexive(ByteLe, a); }
    forall a: Bytes, b: Bytes
      ensures (BytesLe(a, b) || BytesLe(b, a)) && (BytesLe(a, b) && BytesLe(b, a) ==> a == b)
    { LexLeTotal(ByteLe, a, b); }
    forall a: Bytes, b: Bytes, c: Bytes | BytesLe(a, b) && BytesLe(b, c) ensures BytesLe(a, c)
    { LexLeTransitive(ByteLe, a, b, c); }
  }

  lemma {:induction false} PathTotalOrder()
    ensures TotalOrder(PathLe)
  {
    BytesTotalOrder();
    forall a: Path ensures PathLe(a, a) { LexLeReflexive(BytesLe, a); }
    forall a: Path, b: Path
      ensures (PathLe(a, b) || PathLe(b, a)) && (PathLe(a, b) && PathLe(b, a) ==> a == b)
    { LexLeTotal(BytesLe, a, b); }
    forall a: Path, b: Path, c: Path | PathLe(a, b) && PathLe(b, c) ensures PathLe(a, c)
    { LexLeTransitive(BytesLe, a, b, c); }
  }

  ghost predicate IsLeast(p: Path, keys: set<Path>) {
    p in keys && forall q :: q in keys ==> PathLe(p, q)
  }

  lemma {:induction false} LeastExists(keys: set<Path>)
    requires keys != {}
    ensures exists p :: IsLeast(p, keys)
    decreases keys
  {
    PathTotalOrder();
    var q :| q in keys;
    if keys == {q} {
      assert IsLeast(q, keys);
    } else {
      assert keys - {q} != {};
      LeastExists(keys - {q});
      var m :| IsLeast(m, keys - {q});
      assert IsLeast(if PathLe(q, m) then q else m, keys);
    }
  }

  ghost function Least(keys: set<Path>): (p: Path)
    requires keys != {}
    ensures IsLeast(p, keys)
  {
    LeastExists(keys);
    var p :| IsLeast(p, keys);
    p
  }

  /** The keys of an ordered map, in its iteration order. */
  ghost function Ascending(keys: set<Path>): (r: seq<Path>)
    ensures |r| == |keys|
    ensures forall p :: p in r <==> p in keys
    decreases keys
  {
    if keys == {} then [] else
      var p := Least(keys);
      [p] + Ascending(keys - {p})
  }

  /** The modules in iteration order, each as its path, its origin byte and its text. */
  function ModulesThen(paths: seq<Path>, modules: map<Path, Module>, rest: Bytes): Bytes
    requires forall p :: p in paths ==> p in modules
  {
    if paths == [] then rest
    else
      var m := modules[paths[0]];
      ListThen(paths[0], Flag(m.injected) + FrameThen(m.text, ModulesThen(paths[1..], modules, rest)))
  }

  ghost function SourcesThen(modules: map<Path, Module>, rest: Bytes): Bytes {
    Le64(Saturate(|modules|)) + ModulesThen(Ascending(modules.Keys), modules, rest)
  }

  function FlagsThen(
      hotAppearance: bool, webviewHost: bool, window: Option<Window>, intent: Intent, debugger: bool, rest: Bytes)
    : Bytes
  {
    Flag(hotAppearance) + (Flag(webviewHost) + WindowThen(window, IntentByte(intent) + (Flag(debugger) + rest)))
  }

  /** From the entry path on. */
  ghost function BodyOf(i: Inputs): Bytes {
    ListThen(i.entry, DriverByte(i.driver) + ListThen(i.publicEnv, SourcesThen(i.modules, [])))
  }

  /** The bytes `compute_project_key` hashes. */
  ghost function ProjectStream(i: Inputs): Bytes {
    FrameThen(KEY_TAG, FrameThen(TargetName(i.target),
      FlagsThen(i.hotAppearance, i.webviewHost, i.window, i.intent, i.debugger, BodyOf(i))))
  }

  /** The bytes `compute_ir_key` hashes. */
  ghost function IrStream(i: IrInputs): Bytes {
    FrameThen(IR_KEY_TAG, FrameThen(TargetName(i.target), ListThen(i.entry, SourcesThen(i.modules, []))))
  }

  /** The bytes the version epoch hashes: the compiler's and the toolchain's own digests. */
  function EpochStream(compiler: Bytes, toolchain: Bytes): Bytes {
    FrameThen(EPOCH_TAG, FrameThen(compiler, FrameThen(toolchain, [])))
  }

  // ---- unique readability ----

  lemma {:induction false} TargetNameInjective(a: Target, b: Target)
    requires TargetName(a) == TargetName(b)
    ensures a == b
  {
    assert |TargetName(Native)| == 6 && |TargetName(WasmClient)| == 10 && |TargetName(WasmWasi)| == 8;
  }

  lemma {:induction false} I64Cancel(v: int, w: int, r: Bytes, s: Bytes)
    requires IsI64(v) && IsI64(w)
    requires I64Bytes(v) + r == I64Bytes(w) + s
    ensures v == w && r == s
  {
    Le64Cancel(v % TWO64, w % TWO64, r, s);
  }

  lemma {:induction false} WindowCancel(a: Option<Window>, b: Option<Window>, r: Bytes, s: Bytes)
    requires (a.Some? ==> FitsWindow(a.value)) && (b.Some? ==> FitsWindow(b.value))
    requires WindowThen(a, r) == WindowThen(b, s)
    ensures a == b && r == s
  {
    var x, y := WindowThen(a, r), WindowThen(b, s);
    assert x[0] == (if a.Some? then 1 else 0) && y[0] == (if b.Some? then 1 else 0);
    if a.Some? {
      var v, w := a.value, b.value;
      FixedCancel([1], [1], FrameThen(v.title, I64Bytes(v.width) + (I64Bytes(v.height) + r)),
                  FrameThen(w.title, I64Bytes(w.width) + (I64Bytes(w.height) + s)));
      FrameCancel(v.title, w.title, I64Bytes(v.width) + (I64Bytes(v.height) + r),
                  I64Bytes(w.width) + (I64Bytes(w.height) + s));
      I64Cancel(v.width, w.width, I64Bytes(v.height) + r, I64Bytes(w.height) + s);
      I64Cancel(v.height, w.height, r, s);
    } else {
      FixedCancel([0], [0], r, s);
    }
  }

  lemma {:induction false} ModulesCancel(
      ps: seq<Path>, ms: map<Path, Module>, qs: seq<Path>, ns: map<Path, Module>, r: Bytes, s: Bytes)
    requires |ps| == |qs| && FitsModules(ms) && FitsModules(ns)
    requires (forall p :: p in ps ==> p in ms) && (forall q :: q in qs ==> q in ns)
    requires ModulesThen(ps, ms, r) == ModulesThen(qs, ns, s)
    ensures ps == qs && r == s && forall p :: p in ps ==> ms[p] == ns[p]
  {
    if ps != [] {
      var m, n := ms[ps[0]], ns[qs[0]];
      var r', s' := ModulesThen(ps[1..], ms, r), ModulesThen(qs[1..], ns, s);
      ListCancel(ps[0], qs[0], Flag(m.injected) + FrameThen(m.text, r'), Flag(n.injected) + FrameThen(n.text, s'));
      FixedCancel(Flag(m.injected), Flag(n.injected), FrameThen(m.text, r'), FrameThen(n.text, s'));
      FrameCancel(m.text, n.text, r', s');
      ModulesCancel(ps[1..], ms, qs[1..], ns, r, s);
      assert ps == [ps[0]] + ps[1..] && qs == [qs[0]] + qs[1..];
    }
  }

  lemma {:induction false} SourcesCancel(ms: map<Path, Module>, ns: map<Path, Module>, r: Bytes, s: Bytes)
    requires FitsModules(ms) && FitsModules(ns)
    requires SourcesThen(ms, r) == SourcesThen(ns, s)
    ensures ms == ns && r == s
  {
    var ps, qs := Ascending(ms.Keys), Ascending(ns.Keys);
    Le64Cancel(|ms|, |ns|, ModulesThen(ps, ms, r), ModulesThen(qs, ns, s));
    ModulesCancel(ps, ms, qs, ns, r, s);
    forall p ensures p in ms <==> p in ns {
      assert p in ms <==> p in ps;
      assert p in ns <==> p in qs;
    }
  }

  lemma {:induction false} FlagsCancel(a: Inputs, b: Inputs, r: Bytes, s: Bytes)
    requires Fits(a) && Fits(b)
    requires FlagsThen(a.hotAppearance, a.webviewHost, a.window, a.intent, a.debugger, r)
          == FlagsThen(b.hotAppearance, b.webviewHost, b.window, b.intent, b.debugger, s)
    ensures a.hotAppearance == b.hotAppearance && a.webviewHost == b.webviewHost && a.window == b.window
    ensures a.intent == b.intent && a.debugger == b.debugger && r == s
  {
    var a3, b3 := IntentByte(a.intent) + (Flag(a.debugger) + r), IntentByte(b.intent) + (Flag(b.debugger) + s);
    var a2, b2 := WindowThen(a.window, a3), WindowThen(b.window, b3);
    FixedCancel(Flag(a.hotAppearance), Flag(b.hotAppearance), Flag(a.webviewHost) + a2, Flag(b.webviewHost) + b2);
    FixedCancel(Flag(a.webviewHost), Flag(b.webviewHost), a2, b2);
    WindowCancel(a.window, b.window, a3, b3);
    FixedCancel(IntentByte(a.intent), IntentByte(b.intent), Flag(a.debugger) + r, Flag(b.debugger) + s);
    FixedCancel(Flag(a.debugger), Flag(b.debugger), r, s);
  }

  lemma {:induction false} BodyCancel(a: Inputs, b: Inputs)
    requires Fits(a) && Fits(b) && BodyOf(a) == BodyOf(b)
    ensures a.entry == b.entry && a.driver == b.driver && a.publicEnv == b.publicEnv && a.modules == b.modules
  {
    var a2, b2 := SourcesThen(a.modules, []), SourcesThen(b.modules, []);
    var a1, b1 := ListThen(a.publicEnv, a2), ListThen(b.publicEnv, b2);
    ListCancel(a.entry, b.entry, DriverByte(a.driver) + a1, DriverByte(b.driver) + b1);
    FixedCancel(DriverByte(a.driver), DriverByte(b.driver), a1, b1);
    ListCancel(a.publicEnv, b.publicEnv, a2, b2);
    SourcesCancel(a.modules, b.modules, [], []);
  }

  lemma {:induction false} HeaderCancel(tag: Bytes, a: Target, b: Target, r: Bytes, s: Bytes)
    requires Addressable(tag)
    requires FrameThen(tag, FrameThen(TargetName(a), r)) == FrameThen(tag, FrameThen(TargetName(b), s))
    ensures a == b && r == s
  {
    FrameCancel(tag, tag, FrameThen(TargetName(a), r), FrameThen(TargetName(b), s));
    FrameCancel(TargetName(a), TargetName(b), r, s);
    TargetNameInjective(a, b);
  }

  /** Equal project-key streams mean equal inputs, field by field. */
  lemma {:induction false} ProjectStreamInjective(a: Inputs, b: Inputs)
    requires Fits(a) && Fits(b)
    requires ProjectStream(a) == ProjectStream(b)
    ensures a == b
  {
    HeaderCancel(KEY_TAG, a.target, b.target,
                 FlagsThen(a.hotAppearance, a.webviewHost, a.window, a.intent, a.debugger, BodyOf(a)),
                 FlagsThen(b.hotAppearance, b.webviewHost, b.window, b.intent, b.debugger, BodyOf(b)));
    FlagsCancel(a, b, BodyOf(a), BodyOf(b));
    BodyCancel(a, b);
  }

  /** Equal IR-key streams mean the same target, entry and modules. */
  lemma {:induction false} IrStreamInjective(a: IrInputs, b: IrInputs)
    requires FitsIr(a) && FitsIr(b)
    requires IrStream(a) == IrStream(b)
    ensures a == b
  {
    var a2, b2 := SourcesThen(a.modules, []), SourcesThen(b.modules, []);
    var a1, b1 := ListThen(a.entry, a2), ListThen(b.entry, b2);
    HeaderCancel(IR_KEY_TAG, a.target, b.target, a1, b1);
    ListCancel(a.entry, b.entry, a2, b2);
    SourcesCancel(a.modules, b.modules, [], []);
  }

  /** A project hit address determines the IR hit address. */
  lemma {:induction false} ProjectStreamDeterminesIrStream(a: Inputs, b: Inputs)
    requires Fits(a) && Fits(b) && ProjectStream(a) == ProjectStream(b)
    ensures IrStream(IrPart(a)) == IrStream(IrPart(b))
  {
    ProjectStreamInjective(a, b);
  }

  /** Streams framed under tags of different lengths never coincide, whatever follows. */
  lemma {:induction false} TagsSeparate(tag: Bytes, other: Bytes, r: Bytes, s: Bytes)
    requires Addressable(tag) && Addressable(other) && |tag| != |other|
    ensures FrameThen(tag, r) != FrameThen(other, s)
  {
    if FrameThen(tag, r) == FrameThen(other, s) { FrameCancel(tag, other, r, s); }
  }

  /** The four hash domains of the cache are disjoint, for all inputs of each. */
  lemma {:induction false} DomainsDisjoint(i: Inputs, j: IrInputs, compiler: Bytes, toolchain: Bytes, tree: Bytes)
    ensures ProjectStream(i) != IrStream(j)
    ensures ProjectStream(i) != EpochStream(compiler, toolchain)
    ensures IrStream(j) != EpochStream(compiler, toolchain)
    ensures FrameThen(TREE_TAG, tree) !in {ProjectStream(i), IrStream(j), EpochStream(compiler, toolchain)}
  {
    var p :| ProjectStream(i) == FrameThen(KEY_TAG, p);
    var q :| IrStream(j) == FrameThen(IR_KEY_TAG, q);
    var e :| EpochStream(compiler, toolchain) == FrameThen(EPOCH_TAG, e);
    TagsSeparate(KEY_TAG, IR_KEY_TAG, p, q);
    TagsSeparate(KEY_TAG, EPOCH_TAG, p, e);
    TagsSeparate(IR_KEY_TAG, EPOCH_TAG, q, e);
    TagsSeparate(TREE_TAG, KEY_TAG, tree, p);
    TagsSeparate(TREE_TAG, IR_KEY_TAG, tree, q);
    TagsSeparate(TREE_TAG, EPOCH_TAG, tree, e);
  }

  /** A different compiler or toolchain digest is a different epoch stream. */
  lemma {:induction false} EpochStreamInjective(c: Bytes, t: Bytes, c': Bytes, t': Bytes)
    requires Addressable(c) && Addressable(t) && Addressable(c') && Addressable(t')
    requires EpochStream(c, t) == EpochStream(c', t')
    ensures c == c' && t == t'
  {
    FrameCancel(EPOCH_TAG, EPOCH_TAG, FrameThen(c, FrameThen(t, [])), FrameThen(c', FrameThen(t', [])));
    FrameCancel(c, c', FrameThen(t, []), FrameThen(t', []));
    FrameCancel(t, t', [], []);
  }

  // ---- the hashing loops ----

  /** One module's path, origin byte and text. */
  method UpdateModule(h: Hasher, path: Path, injected: bool, text: Bytes, ghost left: Bytes)
    modifies h
    ensures h.stream + left == old(h.stream) + ListThen(path, Flag(injected) + FrameThen(text, left))
  {
    h.UpdateList(path, Flag(injected) + FrameThen(text, left));
    h.Update(Flag(injected), FrameThen(text, left));
    h.UpdateLenPrefixed(text, left);
  }

  lemma {:induction false} AscendingStep(todo: set<Path>, p: Path, modules: map<Path, Module>)
    requires IsLeast(p, todo) && todo <= modules.Keys
    ensures ModulesThen(Ascending(todo), modules, []) ==
      ListThen(p, Flag(modules[p].injected) +
        FrameThen(modules[p].text, ModulesThen(Ascending(todo - {p}), modules, [])))
  {
    PathTotalOrder();
    assert p == Least(todo);
    assert ([p] + Ascending(todo - {p}))[1..] == Ascending(todo - {p});
  }

  /** Feed the sorted modules to the hasher, as both key functions do. */
  method UpdateSources(h: Hasher, sources: map<Path, (Bytes, Bytes)>, injected: set<Path>)
    modifies h
    ensures h.stream == old(h.stream) + SourcesThen(TaggedModules(sources, injected), [])
  {
    ghost var modules := TaggedModules(sources, injected);
    assert modules.Keys == sources.Keys;
    assert |modules| == |modules.Keys| == |sources.Keys| == |sources|;
    h.Update(Le64(Saturate(|sources|)), ModulesThen(Ascending(sources.Keys), modules, []));
    var todo := sources.Keys;
    while todo != {}
      invariant todo <= sources.Keys
      invariant h.stream + ModulesThen(Ascending(todo), modules, []) == old(h.stream) + SourcesThen(modules, [])
      decreases todo
    {
      LeastExists(todo);
      var p :| p in todo && forall q :: q in todo ==> PathLe(p, q);
      AscendingStep(todo, p, modules);
      UpdateModule(h, p, p in injected, sources[p].1, ModulesThen(Ascending(todo - {p}), modules, []));
      todo := todo - {p};
    }
    assert h.stream + [] == h.stream;
  }

  method UpdateWindow(h: Hasher, window: Option<Window>, ghost left: Bytes)
    modifies h
    ensures h.stream + left == old(h.stream) + WindowThen(window, left)
  {
    match window
    case None =>
      h.Update([0], left);
    case Some(w) =>
      h.Update([1], FrameThen(w.title, I64Bytes(w.width) + (I64Bytes(w.height) + left)));
      h.UpdateLenPrefixed(w.title, I64Bytes(w.width) + (I64Bytes(w.height) + left));
      h.Update(I64Bytes(w.width), I64Bytes(w.height) + left);
      h.Update(I64Bytes(w.height), left);
  }

  /** The emit-shape flags, between the target and the entry path. */
  method UpdateFlags(
      h: Hasher, hotAppearance: bool, webviewHost: bool, window: Option<Window>, intent: Intent, debugger: bool,
      ghost left: Bytes)
    modifies h
    ensures h.stream + left == old(h.stream) + FlagsThen(hotAppearance, webviewHost, window, intent, debugger, left)
  {
    ghost var tail := IntentByte(intent) + (Flag(debugger) + left);
    h.Update(Flag(hotAppearance), Flag(webviewHost) + WindowThen(window, tail));
    h.Update(Flag(webviewHost), WindowThen(window, tail));
    UpdateWindow(h, window, tail);
    h.Update(IntentByte(intent), Flag(debugger) + left);
    h.Update(Flag(debugger), left);
  }

  /** The domain tag and the target, which open both keys. */
  method UpdateHeader(h: Hasher, tag: Bytes, target: Target, ghost left: Bytes)
    modifies h
    ensures h.stream + left == old(h.stream) + FrameThen(tag, FrameThen(TargetName(target), left))
  {
    h.UpdateLenPrefixed(tag, FrameThen(TargetName(target), left));
    h.UpdateLenPrefixed(TargetName(target), left);
  }

  /** `compute_project_key`: one pass over the inputs into a fresh hasher. */
  method ComputeProjectKey(
      sources: map<Path, (Bytes, Bytes)>, injected: set<Path>, entry: Path, driver: Driver, target: Target,
      publicEnv: seq<Bytes>, intent: Intent, debugger: bool, hotAppearance: bool, webviewHost: bool,
      window: Option<Window>, hexDigest: Bytes -> string) returns (key: string)
    ensures key == hexDigest(ProjectStream(Inputs(target, hotAppearance, webviewHost, window, intent, debugger,
                                                  entry, driver, publicEnv, TaggedModules(sources, injected))))
  {
    var h := new Hasher();
    ghost var left3 := SourcesThen(TaggedModules(sources, injected), []);
    ghost var left2 := DriverByte(driver) + ListThen(publicEnv, left3);
    ghost var left1 := FlagsThen(hotAppearance, webviewHost, window, intent, debugger, ListThen(entry, left2));
    ghost var all := FrameThen(KEY_TAG, FrameThen(TargetName(target), left1));
    assert h.stream + all == all;
    UpdateHeader(h, KEY_TAG, target, left1);
    UpdateFlags(h, hotAppearance, webviewHost, window, intent, debugger, ListThen(entry, left2));
    h.UpdateList(entry, left2);
    h.Update(DriverByte(driver), ListThen(publicEnv, left3));
    h.UpdateList(publicEnv, left3);
    UpdateSources(h, sources, injected);
    key := hexDigest(h.stream);
  }

  /** `compute_ir_key`: the same pass without the emit-only inputs. */
  method ComputeIrKey(
      sources: map<Path, (Bytes, Bytes)>, injected: set<Path>, entry: Path, target: Target,
      hexDigest: Bytes -> string) returns (key: string)
    ensures key == hexDigest(IrStream(IrInputs(target, entry, TaggedModules(sources, injected))))
  {
    var h := new Hasher();
    ghost var left := SourcesThen(TaggedModules(sources, injected), []);
    ghost var all := FrameThen(IR_KEY_TAG, FrameThen(TargetName(target), ListThen(entry, left)));
    assert h.stream + all == all;
    UpdateHeader(h, IR_KEY_TAG, target, ListThen(entry, left));
    h.UpdateList(entry, left);
    UpdateSources(h, sources, injected);
    key := hexDigest(h.stream);
  }

  // ---- entry file names ----

  predicate IsHex(key: string) {
    forall i :: 0 <= i < |key| ==> '0' <= key[i] <= '9' || 'a' <= key[i] <= 'f'
  }

  function EntryFileName(key: string): string { key + ".json" }
  function IrEntryFileName(key: string): string { key + ".ir.json" }

  /** No two entries of either tier share a file name. */
  lemma {:induction false} FileNamesJointlyInjective(k: string, l: string)
    requires IsHex(k) && IsHex(l)
    ensures EntryFileName(k) == EntryFileName(l) ==> k == l
    ensures IrEntryFileName(k) == IrEntryFileName(l) ==> k == l
    ensures EntryFileName(k) != IrEntryFileName(l)
  {
    if EntryFileName(k) == EntryFileName(l) {
      assert k == EntryFileName(k)[..|k|] == EntryFileName(l)[..|l|] == l;
    }
    if IrEntryFileName(k) == IrEntryFileName(l) {
      assert k == IrEntryFileName(k)[..|k|] == IrEntryFileName(l)[..|l|] == l;
    }
    if |k| == |l| + 3 {
      assert EntryFileName(k)[|l|] == k[|l|] && IrEntryFileName(l)[|l|] == '.';
    }
  }
}
