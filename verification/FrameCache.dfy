/** The kernel frame cache: frames keyed by address and symbol table generation. */
module FrameCache {
  import opened Words
  import opened Options
  import opened Kallsyms
  import opened Symbolizer

  datatype KernelFrame = KernelFrame(mapping: Option<nat>, address: Word, name: string)

  type Key = (Word, Word)
  type Cache = map<Key, KernelFrame>

  datatype Snapshot = Snapshot(bpf: Option<BpfTable>, modules: Option<ModuleTable>)
  {
    function BpfGeneration(): Word { GenerationOf(bpf, BPF_GENERATION) }
    function KernelGeneration(): Word { GenerationOf(modules, MODULE_GENERATION) }
  }

  datatype Resolution =
    | Unresolved
    | InBpf(name: string, offset: Word, generation: Word)
    | InModule(kmod: Module, generation: Word)

  // ----- Uncached resolution -----

  function InTable(t: Option<BpfTable>, a: Word): Option<(string, Word)> { Lookup(Symbols(t), a) }

  function Modules(t: Option<ModuleTable>): seq<Module> { if t.None? then [] else t.value.content }

  function Resolve(s: Snapshot, a: Word): Resolution {
    var b, m := InTable(s.bpf, a), ModuleAt(Modules(s.modules), a);
    if b.Some? then InBpf(b.value.0, b.value.1, s.BpfGeneration())
    else if m.Some? then InModule(m.value, s.KernelGeneration())
    else Unresolved
  }

  function BpfFrame(name: string, offset: Word): KernelFrame { KernelFrame(None, offset, name) }

  function ModuleFrame(m: Module, a: Word): KernelFrame {
    var sym := SymbolAt(m, a);
    KernelFrame(m.mapping, Wrap(a - 1 - m.start), if sym.Some? then sym.value.0 else "")
  }

  /** The frame of a resolution, and whether it may be cached. */
  function Symbolize(a: Word, r: Resolution): (KernelFrame, bool) {
    match r
    case InBpf(name, offset, _) => (BpfFrame(name, offset), true)
    case InModule(m, _) => (ModuleFrame(m, a), m.mapping.Some?)
    case Unresolved => (KernelFrame(None, Wrap(a - 1), ""), false)
  }

  function Fresh(s: Snapshot, a: Word): KernelFrame { Symbolize(a, Resolve(s, a)).0 }

  /** Symbols and modules in the order and at the distances that make lookups scans. */
  ghost predicate Tidy(s: Snapshot) {
    var ss, ms := Symbols(s.bpf), Modules(s.modules);
    NonOverlapping(ss) && Clean(ss) && Descending(ms) && forall i, j | 0 <= i < j < |ms| :: ms[j].end <= ms[i].start
  }

  /** Resolution by what covers the address: a BPF symbol first, then a module. */
  lemma ResolveMeans(s: Snapshot, a: Word)
    requires Tidy(s)
    ensures Resolve(s, a).InBpf? <==> exists x :: x in Symbols(s.bpf) && x.Covers(a)
    ensures Resolve(s, a).InBpf? ==>
              exists x :: x in Symbols(s.bpf) && x.Covers(a) && x.name == Resolve(s, a).name
                && x.address + Resolve(s, a).offset == a
    ensures Resolve(s, a).InModule? ==> Resolve(s, a).kmod in Modules(s.modules) && Resolve(s, a).kmod.Covers(a)
    ensures Resolve(s, a).Unresolved? ==> forall m | m in Modules(s.modules) :: !m.Covers(a)
  {
    hide Lookup, ModuleAt, NonOverlapping, Clean, Descending;
    LookupIsScan(Symbols(s.bpf));
    assert InTable(s.bpf, a) == Kallsyms.Scan(Symbols(s.bpf), a);
    ModuleAtIsScan(Modules(s.modules), a);
  }

  /** Every module's symbols by falling offset. */
  ghost predicate Ordered(s: Snapshot) { forall m | m in Modules(s.modules) :: Falling(m.symbols) }

  /** The name of the symbol nearest below the address, and none in a stub or below every symbol. */
  ghost predicate Nearest(m: Module, a: Word, name: string) {
    var o := Offset(m, a);
    if m.stub || forall x | x in m.symbols :: x.0 > o then name == ""
    else exists x :: x in m.symbols && x.0 <= o && x.1 == name && forall q | q in m.symbols && q.0 <= o :: q.0 <= x.0
  }

  lemma SymbolNearest(m: Module, a: Word)
    requires Falling(m.symbols)
    ensures Nearest(m, a, ModuleFrame(m, a).name)
  {
    hide Offset;
    SymbolAtMeans(m, a);
  }

  lemma Apart(ms: seq<Module>, i: nat, j: nat)
    requires (forall i, j | 0 <= i < j < |ms| :: ms[j].end <= ms[i].start) && i < |ms| && j < |ms|
    ensures i < j ==> ms[j].end <= ms[i].start
  {}

  lemma OneModule(ms: seq<Module>, m: Module, a: Word)
    requires Descending(ms) && (forall i, j | 0 <= i < j < |ms| :: ms[j].end <= ms[i].start) && m in ms && m.Covers(a)
    ensures ModuleAt(ms, a) == Some(m)
  {
    hide ModuleAt, Descending;
    ModuleAtIsScan(ms, a);
    var n := ModuleScan(ms, a).value;
    var i :| 0 <= i < |ms| && ms[i] == m;
    var j :| 0 <= j < |ms| && ms[j] == n;
    Apart(ms, i, j);
    Apart(ms, j, i);
  }

  lemma OneSymbol(ss: seq<Symbol>, x: Symbol, a: Word)
    requires NonOverlapping(ss) && Clean(ss) && x in ss && x.Covers(a)
    ensures Lookup(ss, a) == Some((x.name, a - x.address))
  {
    hide Lookup, Scan, NonOverlapping, Clean;
    LookupIsScan(ss);
    var k :| 0 <= k < |ss| && ss[k] == x;
    ScanIs(ss, k, a);
  }

  /** The frame of an address, by what covers it: a BPF symbol's name and the offset in it; else the
      module's mapping, the byte before the address relative to the module, and the nearest symbol's
      name; else the byte before the address and nothing more. */
  lemma FreshMeans(s: Snapshot, a: Word)
    requires Tidy(s) && Ordered(s)
    ensures forall x | x in Symbols(s.bpf) && x.Covers(a) :: Fresh(s, a) == KernelFrame(None, a - x.address, x.name)
    ensures (forall x | x in Symbols(s.bpf) :: !x.Covers(a)) ==>
              forall m | m in Modules(s.modules) && m.Covers(a) ::
                var f := Fresh(s, a);
                f.mapping == m.mapping && Wrap(f.address + m.start + 1) == a && Nearest(m, a, f.name)
    ensures (forall x | x in Symbols(s.bpf) :: !x.Covers(a)) && (forall m | m in Modules(s.modules) :: !m.Covers(a)) ==>
              var f := Fresh(s, a); f.mapping == None && f.name == "" && Wrap(f.address + 1) == a
  {
    hide Lookup, ModuleAt, NonOverlapping, Clean, Descending, Nearest, ModuleFrame, Falling, Wrap;
    ResolveMeans(s, a);
    forall x | x in Symbols(s.bpf) && x.Covers(a) ensures Fresh(s, a) == KernelFrame(None, a - x.address, x.name) {
      OneSymbol(Symbols(s.bpf), x, a);
    }
    forall m | m in Modules(s.modules) && m.Covers(a)
      ensures ModuleAt(Modules(s.modules), a) == Some(m) && Nearest(m, a, ModuleFrame(m, a).name)
    {
      OneModule(Modules(s.modules), m, a);
      SymbolNearest(m, a);
    }
    forall m: Module { ModuleFrameIs(m, a); }
    Before(a);
  }

  lemma ModuleFrameIs(m: Module, a: Word)
    ensures ModuleFrame(m, a).mapping == m.mapping && Wrap(ModuleFrame(m, a).address + m.start + 1) == a
  {
    hide SymbolAt;
  }

  lemma Before(a: Word)
    ensures Wrap(Wrap(a - 1) + 1) == a
  {}

  // ----- Through the cache -----

  predicate Hit(c: Cache, s: Snapshot, a: Word) {
    (a, s.KernelGeneration()) in c || (a, s.BpfGeneration()) in c
  }

  function Answer(c: Cache, s: Snapshot, a: Word): KernelFrame {
    if (a, s.KernelGeneration()) in c then c[(a, s.KernelGeneration())]
    else if (a, s.BpfGeneration()) in c then c[(a, s.BpfGeneration())]
    else Fresh(s, a)
  }

  /** What the cache holds afterwards, when making room evicts the keys gone. */
  function Remember(c: Cache, s: Snapshot, a: Word, gone: set<Key>): Cache {
    var r := Resolve(s, a);
    if Hit(c, s, a) || r.Unresolved? || !Symbolize(a, r).1 then c
    else (c - gone)[(a, r.generation) := Symbolize(a, r).0]
  }

  ghost predicate InProgram(s: Snapshot, a: Word) { exists x :: x in Symbols(s.bpf) && x.Covers(a) }

  ghost predicate InMapped(s: Snapshot, a: Word) {
    exists m :: m in Modules(s.modules) && m.Covers(a) && m.mapping.Some?
  }

  /** What is cached under the kernel's generation is answered, and else what is under the BPF one. */
  lemma CachedAnswers(c: Cache, s: Snapshot, a: Word, f: KernelFrame)
    ensures Answer(c[(a, s.KernelGeneration()) := f], s, a) == f
    ensures (a, s.KernelGeneration()) !in c && s.KernelGeneration() != s.BpfGeneration() ==>
              Answer(c[(a, s.BpfGeneration()) := f], s, a) == f
  {
    hide Fresh;
  }

  /** An address of a BPF program or of a module with a mapping is found in the cache the next time, with
      the frame it got this time; what else is resolved leaves the cache as it was. */
  lemma CachedNext(c: Cache, s: Snapshot, a: Word, gone: set<Key>)
    requires Tidy(s)
    ensures InProgram(s, a) || InMapped(s, a) ==>
              Hit(Remember(c, s, a, gone), s, a) && Answer(Remember(c, s, a, gone), s, a) == Answer(c, s, a)
    ensures !InProgram(s, a) && !InMapped(s, a) ==> Remember(c, s, a, gone) == c
  {
    hide Tidy, ModuleFrame, BpfFrame, ModuleAt;
    ResolveMeans(s, a);
    if m :| m in Modules(s.modules) && m.Covers(a) && m.mapping.Some? {
      assert ModuleAt(Modules(s.modules), a) == Some(m) by { TidyModule(s, m, a); }
    }
    hide InTable, ModuleAt;
  }

  lemma TidyModule(s: Snapshot, m: Module, a: Word)
    requires Tidy(s) && m in Modules(s.modules) && m.Covers(a)
    ensures ModuleAt(Modules(s.modules), a) == Some(m)
  {
    hide Descending, NonOverlapping, Clean, ModuleAt;
    OneModule(Modules(s.modules), m, a);
  }

  // ----- Cached frames come from the revision their key names -----

  type BpfTables = seq<Option<BpfTable>>
  type ModuleTables = seq<Option<ModuleTable>>

  predicate BpfMade(t: Option<BpfTable>, k: Key, f: KernelFrame) {
    && t.Some? && t.value.generation == k.1
    && var b := InTable(t, k.0); b.Some? && f == BpfFrame(b.value.0, b.value.1)
  }

  predicate ModuleMade(t: Option<ModuleTable>, k: Key, f: KernelFrame) {
    && t.Some? && t.value.generation == k.1
    && var m := ModuleAt(t.value.content, k.0); m.Some? && m.value.mapping.Some? && f == ModuleFrame(m.value, k.0)
  }

  ghost predicate Justified(bs: BpfTables, ms: ModuleTables, k: Key, f: KernelFrame) {
    (exists t | t in bs :: BpfMade(t, k, f)) || (exists t | t in ms :: ModuleMade(t, k, f))
  }

  ghost predicate Consistent(bs: BpfTables, ms: ModuleTables, c: Cache) {
    forall k | k in c :: Justified(bs, ms, k, c[k])
  }

  /** Both tables' histories, of at most 2^63 revisions. */
  ghost predicate Histories(bs: BpfTables, ms: ModuleTables) {
    && IsHistory(bs, BPF_GENERATION) && |bs| <= 0x8000_0000_0000_0000
    && IsHistory(ms, MODULE_GENERATION) && |ms| <= 0x8000_0000_0000_0000
  }

  ghost predicate Taken(s: Snapshot, bs: BpfTables, ms: ModuleTables) { s.bpf in bs && s.modules in ms }

  lemma Named<T(!new)>(h: seq<Option<Table<T>>>, base: Word, t: Option<Table<T>>, u: Option<Table<T>>)
    requires IsHistory(h, base) && |h| <= 0x8000_0000_0000_0000 && t in h && u in h
    ensures GenerationOf(t, base) % 2 == base % 2
    ensures GenerationOf(t, base) == GenerationOf(u, base) ==> t == u
  {
    hide IsHistory;
    var i :| 0 <= i < |h| && h[i] == t;
    var j :| 0 <= j < |h| && h[j] == u;
    GenerationNames(h, base, i, i);
    if i <= j { GenerationsIncrease(h, base, i, j); } else { GenerationsIncrease(h, base, j, i); }
  }

  lemma BpfHit(bs: BpfTables, ms: ModuleTables, c: Cache, s: Snapshot, a: Word)
    requires Histories(bs, ms) && Consistent(bs, ms, c) && Taken(s, bs, ms) && (a, s.BpfGeneration()) in c
    ensures BpfMade(s.bpf, (a, s.BpfGeneration()), c[(a, s.BpfGeneration())])
  {
    hide IsHistory, InTable, ModuleFrame, BpfFrame, ModuleAt;
    var k := (a, s.BpfGeneration());
    assert Justified(bs, ms, k, c[k]);
    Named(bs, BPF_GENERATION, s.bpf, s.bpf);
    if t :| t in ms && ModuleMade(t, k, c[k]) {
      Named(ms, MODULE_GENERATION, t, t);
      assert false;
    }
    var t :| t in bs && BpfMade(t, k, c[k]);
    Named(bs, BPF_GENERATION, t, s.bpf);
  }

  lemma KernelHit(bs: BpfTables, ms: ModuleTables, c: Cache, s: Snapshot, a: Word)
    requires Histories(bs, ms) && Consistent(bs, ms, c) && Taken(s, bs, ms) && (a, s.KernelGeneration()) in c
    ensures ModuleMade(s.modules, (a, s.KernelGeneration()), c[(a, s.KernelGeneration())])
  {
    hide IsHistory, InTable, ModuleFrame, BpfFrame, ModuleAt;
    var k := (a, s.KernelGeneration());
    assert Justified(bs, ms, k, c[k]);
    Named(ms, MODULE_GENERATION, s.modules, s.modules);
    if t :| t in bs && BpfMade(t, k, c[k]) {
      Named(bs, BPF_GENERATION, t, t);
      assert false;
    }
    var t :| t in ms && ModuleMade(t, k, c[k]);
    Named(ms, MODULE_GENERATION, t, s.modules);
  }

  // ----- Cached answers are fresh ones -----

  /** Both a BPF symbol and a module with a mapping cover the address. */
  predicate Overlap(s: Snapshot, a: Word) {
    var m := ModuleAt(Modules(s.modules), a);
    InTable(s.bpf, a).Some? && m.Some? && m.value.mapping.Some?
  }

  lemma AnswerFresh(bs: BpfTables, ms: ModuleTables, c: Cache, s: Snapshot, a: Word)
    requires Histories(bs, ms) && Consistent(bs, ms, c) && Taken(s, bs, ms) && !Overlap(s, a)
    ensures Answer(c, s, a) == Fresh(s, a)
  {
    hide Histories, Consistent, InTable, ModuleAt, ModuleFrame;
    if (a, s.KernelGeneration()) in c {
      KernelHit(bs, ms, c, s, a);
    } else if (a, s.BpfGeneration()) in c {
      BpfHit(bs, ms, c, s, a);
    }
  }

  /** The one cache that answers an overlapped address from its module. */
  lemma OverlapStale(bs: BpfTables, ms: ModuleTables, s: Snapshot, a: Word) returns (c: Cache)
    requires Taken(s, bs, ms) && Overlap(s, a)
    ensures Consistent(bs, ms, c) && Answer(c, s, a) != Fresh(s, a)
  {
    hide InTable, ModuleAt;
    var k := (a, s.KernelGeneration());
    var f := ModuleFrame(ModuleAt(Modules(s.modules), a).value, a);
    c := map[k := f];
    NonEmptyModules(s.modules, a);
    assert ModuleMade(s.modules, k, f);
  }

  /** Every consistent cache answers an address as uncached resolution does exactly when no BPF
      symbol and module with a mapping overlap there. */
  lemma CacheTransparent(bs: BpfTables, ms: ModuleTables, s: Snapshot, a: Word)
    requires Histories(bs, ms) && Taken(s, bs, ms)
    ensures (forall c | Consistent(bs, ms, c) :: Answer(c, s, a) == Fresh(s, a)) <==> !Overlap(s, a)
  {
    hide Histories, Consistent, Answer, Fresh, Overlap, Taken;
    if Overlap(s, a) {
      var c := OverlapStale(bs, ms, s, a);
      assert Answer(c, s, a) != Fresh(s, a);
    } else {
      forall c | Consistent(bs, ms, c) ensures Answer(c, s, a) == Fresh(s, a) { AnswerFresh(bs, ms, c, s, a); }
    }
  }

  lemma RememberConsistent(bs: BpfTables, ms: ModuleTables, c: Cache, s: Snapshot, a: Word, gone: set<Key>)
    requires Consistent(bs, ms, c) && Taken(s, bs, ms)
    ensures Consistent(bs, ms, Remember(c, s, a, gone))
  {
    hide InTable, ModuleAt, ModuleFrame;
    var r, c' := Resolve(s, a), Remember(c, s, a, gone);
    forall k | k in c' ensures Justified(bs, ms, k, c'[k]) {
      if k in c && c'[k] == c[k] {
        assert Justified(bs, ms, k, c[k]);
      } else if r.InBpf? {
        assert BpfMade(s.bpf, k, c'[k]) by { NonEmpty(s.bpf, a); }
      } else {
        assert ModuleMade(s.modules, k, c'[k]) by { NonEmptyModules(s.modules, a); }
      }
    }
  }

  lemma NonEmpty(t: Option<BpfTable>, a: Word)
    ensures InTable(t, a).Some? ==> t.Some?
  {}

  lemma NonEmptyModules(t: Option<ModuleTable>, a: Word)
    ensures ModuleAt(Modules(t), a).Some? ==> t.Some?
  {}

  // ----- Runs -----

  datatype State = State(bpf: BpfTables, modules: ModuleTables, cache: Cache)

  /** A table change, an eviction, or one frame resolved against a snapshot of revisions i and j. */
  datatype Event =
    | Bpf(op: Op)
    | Reload(kmods: seq<Module>)
    | Evict(keys: set<Key>)
    | Frame(address: Word, i: nat, j: nat, gone: set<Key>)

  const START := State([None], [None], map[])

  function SnapshotOf(st: State, i: nat, j: nat): Snapshot
    requires i < |st.bpf| && j < |st.modules|
  {
    Snapshot(st.bpf[i], st.modules[j])
  }

  function Step(st: State, e: Event): State
    requires st.bpf != [] && st.modules != []
  {
    match e
    case Bpf(op) => st.(bpf := st.bpf + [Apply(st.bpf[|st.bpf| - 1], op)])
    case Reload(kmods) =>
      var generation := GenerationOf(st.modules[|st.modules| - 1], MODULE_GENERATION);
      st.(modules := st.modules + [Some(Table(kmods, Next(generation)))])
    case Evict(keys) => st.(cache := st.cache - keys)
    case Frame(a, i, j, gone) =>
      if i < |st.bpf| && j < |st.modules| then st.(cache := Remember(st.cache, SnapshotOf(st, i, j), a, gone)) else st
  }

  function Run(es: seq<Event>): (st: State)
    ensures 0 < |st.bpf| <= |es| + 1 && 0 < |st.modules| <= |es| + 1
  {
    if es == [] then START else Step(Run(es[..|es| - 1]), es[|es| - 1])
  }

  ghost predicate Inv(st: State) {
    IsHistory(st.bpf, BPF_GENERATION) && IsHistory(st.modules, MODULE_GENERATION)
      && Consistent(st.bpf, st.modules, st.cache)
  }

  lemma ConsistentLater(bs: BpfTables, ms: ModuleTables, c: Cache, bs': BpfTables, ms': ModuleTables)
    requires Consistent(bs, ms, c) && (forall t | t in bs :: t in bs') && (forall t | t in ms :: t in ms')
    ensures Consistent(bs', ms', c)
  {
    hide BpfMade, ModuleMade;
    forall k | k in c ensures Justified(bs', ms', k, c[k]) { assert Justified(bs, ms, k, c[k]); }
  }

  lemma StepInv(st: State, e: Event)
    requires Inv(st)
    ensures Inv(Step(st, e))
  {
    hide Consistent, Next, Remember;
    var st' := Step(st, e);
    match e
    case Bpf(op) =>
      ConsistentLater(st.bpf, st.modules, st.cache, st'.bpf, st'.modules);
      ApplyRevises(st.bpf[|st.bpf| - 1], op);
    case Reload(kmods) => ConsistentLater(st.bpf, st.modules, st.cache, st'.bpf, st'.modules);
    case Evict(keys) => FewerConsistent(st.bpf, st.modules, st.cache, st.cache - keys);
    case Frame(a, i, j, gone) =>
      if i < |st.bpf| && j < |st.modules| {
        RememberConsistent(st.bpf, st.modules, st.cache, SnapshotOf(st, i, j), a, gone);
      }
  }

  lemma ApplyRevises(t: Option<BpfTable>, op: Op)
    ensures Revises(t, Apply(t, op), BPF_GENERATION)
  {
    hide Present, Position, Next, Added, Removed;
  }

  lemma FewerConsistent(bs: BpfTables, ms: ModuleTables, c: Cache, d: Cache)
    requires Consistent(bs, ms, c) && forall k | k in d :: k in c && d[k] == c[k]
    ensures Consistent(bs, ms, d)
  {
    hide Justified;
  }

  lemma {:induction false} RunInv(es: seq<Event>)
    ensures Inv(Run(es))
    decreases |es|
  {
    hide Step;
    if es != [] {
      hide Inv;
      RunInv(es[..|es| - 1]);
      StepInv(Run(es[..|es| - 1]), es[|es| - 1]);
    }
  }

  /** After every run of fewer than 2^63 events, resolving through the cache gives the frame of
      uncached resolution, for a snapshot of any revisions there have been, wherever BPF and
      module ranges do not overlap. */
  lemma RunTransparent(es: seq<Event>, i: nat, j: nat, a: Word)
    requires |es| < 0x8000_0000_0000_0000 && i < |Run(es).bpf| && j < |Run(es).modules|
    requires !Overlap(SnapshotOf(Run(es), i, j), a)
    ensures var st := Run(es); Answer(st.cache, SnapshotOf(st, i, j), a) == Fresh(SnapshotOf(st, i, j), a)
  {
    hide Run, Answer, Fresh, Overlap, IsHistory, Consistent;
    RunInv(es);
    var st := Run(es);
    AnswerFresh(st.bpf, st.modules, st.cache, SnapshotOf(st, i, j), a);
  }

  /** A module frame cached before a BPF symbol is added over it is what the cache keeps answering. */
  lemma AddedOverModule(m: Module, s: Symbol, a: Word)
    requires m.Covers(a) && m.mapping.Some? && s.Covers(a) && s.address + s.size < 0x1_0000_0000_0000_0000
    ensures var st := Run([Reload([m]), Frame(a, 0, 1, {}), Bpf(Add(s))]);
            |st.bpf| == 2 && |st.modules| == 2
              && Answer(st.cache, SnapshotOf(st, 1, 1), a) != Fresh(SnapshotOf(st, 1, 1), a)
  {
    var e0, e1, e2 := Reload([m]), Frame(a, 0, 1, {}), Bpf(Add(s));
    CachedFromModule(m, a);
    hide Run, ModuleFrame, Wrap;
    assert Run([e0, e1, e2]) == Step(Run([e0, e1]), e2) by {
      assert [e0, e1] + [e2] == [e0, e1, e2];
      RunOnce([e0, e1], e2);
    }
    assert Apply(None, Add(s)) == Some(Table([s], Next(1))) by { FirstAdded(s); }
    OnlySymbol(s, a);
    hide Lookup, Apply;
    var snap := Snapshot(Some(Table([s], Next(1))), Some(Table([m], 2)));
    assert ModuleFrame(m, a).mapping.Some? by { MappedFrame(m, a); }
    assert Fresh(snap, a).mapping.None?;
  }

  lemma RunOnce(es: seq<Event>, e: Event)
    ensures Run(es + [e]) == Step(Run(es), e)
  {
    assert (es + [e])[..|es|] == es;
  }

  lemma MappedFrame(m: Module, a: Word)
    ensures ModuleFrame(m, a).mapping == m.mapping
  {}

  lemma FirstAdded(s: Symbol)
    ensures Apply(None, Add(s)) == Some(Table([s], Next(1)))
  {
    hide Next;
    assert Position([], s.address) == 0;
    assert [][..0] + [s] + [][0..] == [s];
  }

  lemma CachedFromModule(m: Module, a: Word)
    requires m.Covers(a) && m.mapping.Some?
    ensures Run([Reload([m]), Frame(a, 0, 1, {})]) ==
            State([None], [None, Some(Table([m], 2))], map[(a, 2) := ModuleFrame(m, a)])
  {
    hide ModuleFrame;
    var e0, e1 := Reload([m]), Frame(a, 0, 1, {});
    assert [e0, e1][..1] == [e0] && [e0][..0] == [];
    assert Run([e0]) == State([None], [None, Some(Table([m], 2))], map[]);
    assert Lookup([], a) == None;
    assert Resolve(Snapshot(None, Some(Table([m], 2))), a) == InModule(m, 2);
    assert Remember(map[], Snapshot(None, Some(Table([m], 2))), a, {}) == map[(a, 2) := ModuleFrame(m, a)];
  }

  lemma OnlySymbol(s: Symbol, a: Word)
    requires s.Covers(a) && s.address + s.size < 0x1_0000_0000_0000_0000
    ensures Lookup([s], a).Some?
  {
    FitsWrap(s.address + s.size);
  }

  // ----- The cache as an object -----

  function RememberAll(c: Cache, s: Snapshot, addrs: seq<Word>, gone: nat -> set<Key>): Cache {
    if addrs == [] then c else
    Remember(RememberAll(c, s, addrs[..|addrs| - 1], gone), s, addrs[|addrs| - 1], gone(|addrs| - 1))
  }

  /** Whether resolving the address adds a frame to the cache. */
  predicate Adds(c: Cache, s: Snapshot, a: Word) {
    var r := Resolve(s, a);
    !Hit(c, s, a) && !r.Unresolved? && Symbolize(a, r).1
  }

  function HitCount(c: Cache, s: Snapshot, addrs: seq<Word>, gone: nat -> set<Key>): nat {
    if addrs == [] then 0 else
    var before := addrs[..|addrs| - 1];
    HitCount(c, s, before, gone) + if Hit(RememberAll(c, s, before, gone), s, addrs[|addrs| - 1]) then 1 else 0
  }

  function MissCount(c: Cache, s: Snapshot, addrs: seq<Word>, gone: nat -> set<Key>): nat {
    if addrs == [] then 0 else
    var before := addrs[..|addrs| - 1];
    MissCount(c, s, before, gone) + if Adds(RememberAll(c, s, before, gone), s, addrs[|addrs| - 1]) then 1 else 0
  }

  /** A frame is added exactly for an address of a BPF program or of a module with a mapping that is not
      cached yet. */
  lemma AddsIff(c: Cache, s: Snapshot, a: Word)
    requires Tidy(s)
    ensures Adds(c, s, a) <==> !Hit(c, s, a) && (InProgram(s, a) || InMapped(s, a))
  {
    hide Tidy, ModuleFrame, BpfFrame, ModuleAt, Hit;
    ResolveMeans(s, a);
    if m :| m in Modules(s.modules) && m.Covers(a) && m.mapping.Some? {
      assert ModuleAt(Modules(s.modules), a) == Some(m) by { TidyModule(s, m, a); }
    }
  }

  ghost function Hits(c: Cache, s: Snapshot, addrs: seq<Word>, gone: nat -> set<Key>): set<nat> {
    set i: nat | i < |addrs| && Hit(RememberAll(c, s, addrs[..i], gone), s, addrs[i])
  }

  ghost function Misses(c: Cache, s: Snapshot, addrs: seq<Word>, gone: nat -> set<Key>): set<nat> {
    set i: nat | i < |addrs| && Adds(RememberAll(c, s, addrs[..i], gone), s, addrs[i])
  }

  lemma HitsMore(c: Cache, s: Snapshot, addrs: seq<Word>, gone: nat -> set<Key>)
    requires addrs != []
    ensures var n := |addrs| - 1;
            Hits(c, s, addrs, gone) ==
            Hits(c, s, addrs[..n], gone) + if Hit(RememberAll(c, s, addrs[..n], gone), s, addrs[n]) then {n} else {}
  {
    hide Hit, RememberAll;
    var n := |addrs| - 1;
    forall i: nat | i < n ensures addrs[..n][..i] == addrs[..i] {}
  }

  lemma MissesMore(c: Cache, s: Snapshot, addrs: seq<Word>, gone: nat -> set<Key>)
    requires addrs != []
    ensures var n := |addrs| - 1;
            Misses(c, s, addrs, gone) ==
            Misses(c, s, addrs[..n], gone) + if Adds(RememberAll(c, s, addrs[..n], gone), s, addrs[n]) then {n} else {}
  {
    hide Adds, RememberAll;
    var n := |addrs| - 1;
    forall i: nat | i < n ensures addrs[..n][..i] == addrs[..i] {}
  }

  /** The counts are of the addresses found and of those added, each against the cache the ones before
      it left. */
  lemma {:induction false} CountsAre(c: Cache, s: Snapshot, addrs: seq<Word>, gone: nat -> set<Key>)
    ensures HitCount(c, s, addrs, gone) == |Hits(c, s, addrs, gone)|
    ensures MissCount(c, s, addrs, gone) == |Misses(c, s, addrs, gone)|
    decreases |addrs|
  {
    hide Hit, Adds, RememberAll;
    if addrs != [] {
      var n := |addrs| - 1;
      CountsAre(c, s, addrs[..n], gone);
      HitsMore(c, s, addrs, gone);
      MissesMore(c, s, addrs, gone);
      assert n !in Hits(c, s, addrs[..n], gone) && n !in Misses(c, s, addrs[..n], gone);
      hide Hits, Misses;
    }
  }

  class KernelFrameCache {
    var cache: Cache

    constructor ()
      ensures cache == map[]
    {
      cache := map[];
    }

    /** Appends the frame of every address, as uncached resolution gives it unless BPF and module
        ranges overlap at the address. */
    method AppendKernelFrames(addrs: seq<Word>, s: Snapshot, gone: nat -> set<Key>, ghost bs: BpfTables,
                              ghost ms: ModuleTables)
      returns (frames: seq<KernelFrame>, hits: nat, misses: nat)
      requires Histories(bs, ms) && Taken(s, bs, ms) && Consistent(bs, ms, cache)
      modifies this
      ensures Consistent(bs, ms, cache) && cache == RememberAll(old(cache), s, addrs, gone)
      ensures |frames| == |addrs|
      ensures hits == HitCount(old(cache), s, addrs, gone) && misses == MissCount(old(cache), s, addrs, gone)
      ensures forall k | 0 <= k < |addrs| && !Overlap(s, addrs[k]) :: frames[k] == Fresh(s, addrs[k])
    {
      hide Histories, Consistent, Overlap, Taken, Answer, Remember, Fresh, Hit, Adds;
      frames, hits, misses := [], 0, 0;
      for i := 0 to |addrs|
        invariant Consistent(bs, ms, cache) && cache == RememberAll(old(cache), s, addrs[..i], gone)
        invariant |frames| == i
        invariant hits == HitCount(old(cache), s, addrs[..i], gone)
                  && misses == MissCount(old(cache), s, addrs[..i], gone)
        invariant forall k | 0 <= k < i && !Overlap(s, addrs[k]) :: frames[k] == Fresh(s, addrs[k])
      {
        var a := addrs[i];
        assert addrs[..i + 1][..i] == addrs[..i];
        RememberConsistent(bs, ms, cache, s, a, gone(i));
        if !Overlap(s, a) { AnswerFresh(bs, ms, cache, s, a); }
        var frame := Probe(a, s, gone(i));
        if frame.0 { hits := hits + 1; } else if frame.1 { misses := misses + 1; }
        frames := frames + [frame.2];
      }
      assert addrs[..|addrs|] == addrs;
    }

    /** One address: whether the cache had it, whether it was added, and the frame. */
    method Probe(a: Word, s: Snapshot, gone: set<Key>) returns (r: (bool, bool, KernelFrame))
      modifies this
      ensures r.2 == Answer(old(cache), s, a) && cache == Remember(old(cache), s, a, gone)
      ensures r.0 == Hit(old(cache), s, a) && r.1 == Adds(old(cache), s, a) && !(r.0 && r.1)
    {
      hide Resolve, Symbolize;
      var kernelKey, bpfKey := (a, s.KernelGeneration()), (a, s.BpfGeneration());
      if kernelKey in cache { return (true, false, cache[kernelKey]); }
      if bpfKey in cache { return (true, false, cache[bpfKey]); }
      var resolution := Resolve(s, a);
      var (frame, cacheable) := Symbolize(a, resolution);
      if !resolution.Unresolved? && cacheable {
        cache := (cache - gone)[(a, resolution.generation) := frame];
      }
      return (false, !resolution.Unresolved? && cacheable, frame);
    }
  }
}
