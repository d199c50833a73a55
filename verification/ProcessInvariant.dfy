/** What every step of the process manager keeps, and so what holds after every run. */
module ProcessInvariant {
  import opened Words
  import opened Options
  import opened Lpm
  import opened ProcessModel
  import opened ProcessTable

  predicate Live(m: Manager, pid: PID) { pid in m.infos && pid !in m.exits }

  predicate Syncing(w: World, pid: PID) { w.sync.Some? && w.sync.value.pid == pid }

  /** The mappings whose prefixes may be in the table for a live pid. */
  function InTable(w: World, pid: PID): seq<Mapping>
    requires pid in w.m.infos
  {
    if !Syncing(w, pid) then w.m.infos[pid] else
    match w.sync.value.phase
    case Reading => w.m.infos[pid]
    case Pruned => w.sync.value.kept
    case Installed => w.sync.value.kept + w.sync.value.adds
  }

  function LiveTable(w: World): map<PID, seq<Mapping>> {
    map pid | pid in w.m.infos && pid !in w.m.exits :: InTable(w, pid)
  }

  // ----- The parts of the invariant -----

  /** The bookkeeping of a maps read in progress. */
  ghost predicate SyncOk(s: Sync) {
    SyncGood(s) && SyncStale(s) && SyncFiles(s)
  }

  ghost predicate SyncGood(s: Sync) {
    GoodMaps(s.prior) && GoodMaps(s.kept + s.adds) && multiset(s.mappings) == multiset(s.kept + s.adds)
  }

  /** Every earlier mapping is either kept or stale. */
  ghost predicate SyncStale(s: Sync) {
    && (forall m | m in s.kept :: m in s.prior && m.vaddr !in s.keys)
    && (forall m | m in s.prior :: m.vaddr in s.keys || m in s.kept)
  }

  predicate SyncFiles(s: Sync) {
    && Files(s.prior) == Files(Filter(s.prior, s.keys)) + Files(s.kept)
    && Files(s.mappings) == Files(s.kept) + Files(s.adds)
  }

  ghost predicate MapsInv(w: World) {
    && (forall pid | pid in w.m.exits :: pid in w.m.infos)
    && (forall pid | pid in w.m.infos :: GoodMaps(w.m.infos[pid]))
    && (w.sync.Some? ==>
          var s := w.sync.value; Live(w.m, s.pid) && s.prior == w.m.infos[s.pid] && SyncOk(s))
  }

  ghost predicate TableInv(w: World) {
    TableOk(w.m.table, LiveTable(w)) && w.m.size == |w.m.table|
  }

  // ----- Sequences of mappings -----

  lemma {:induction false} FilterElements(ms: seq<Mapping>, keys: set<Word>, m: Mapping)
    ensures m in Filter(ms, keys) <==> m in ms && m.vaddr in keys
    decreases |ms|
  {
    if ms != [] {
      FilterElements(ms[..|ms| - 1], keys, m);
      assert m in ms <==> m in ms[..|ms| - 1] || m == ms[|ms| - 1];
    }
  }

  lemma {:induction false} FilterAll(ms: seq<Mapping>, keys: set<Word>)
    requires forall m | m in ms :: m.vaddr in keys
    ensures Filter(ms, keys) == ms
    decreases |ms|
  {
    if ms != [] {
      FilterAll(ms[..|ms| - 1], keys);
      assert ms == ms[..|ms| - 1] + [ms[|ms| - 1]];
    }
  }

  lemma FilesAppend(ms: seq<Mapping>, m: Mapping)
    ensures Files(ms + [m]) == Files(ms) + multiset{m.frame.file}
  {
    assert (ms + [m])[..|ms|] == ms;
  }

  lemma SameStart(ms: seq<Mapping>, m: Mapping, n: Mapping)
    requires GoodMaps(ms) && m in ms && n in ms && m.vaddr == n.vaddr
    ensures m == n
  {
    assert m != n ==> Apart(m, n);
  }

  lemma GoodPrefix(ms: seq<Mapping>)
    requires GoodMaps(ms) && ms != []
    ensures GoodMaps(ms[..|ms| - 1]) && ms[|ms| - 1] !in ms[..|ms| - 1]
  {
    var init, last := ms[..|ms| - 1], ms[|ms| - 1];
    assert [] + (init + [last]) == ms;
    GoodInit([], init, last);
    assert [] + init == init;
    assert last in init ==> Apart(last, last);
  }

  lemma {:induction false} FilterWithout(ms: seq<Mapping>, keys: set<Word>, v: Word)
    requires forall m | m in ms :: m.vaddr != v
    ensures Filter(ms, keys - {v}) == Filter(ms, keys)
    decreases |ms|
  {
    if ms != [] { FilterWithout(ms[..|ms| - 1], keys, v); }
  }

  /** Taking one start address out of the stale keys releases exactly its mapping. */
  lemma {:induction false} FilterRemove(ms: seq<Mapping>, keys: set<Word>, m: Mapping)
    requires GoodMaps(ms) && m in ms && m.vaddr in keys
    ensures Files(Filter(ms, keys)) == Files(Filter(ms, keys - {m.vaddr})) + multiset{m.frame.file}
    decreases |ms|
  {
    hide GoodMaps, Files;
    var init, last := ms[..|ms| - 1], ms[|ms| - 1];
    GoodPrefix(ms);
    FilesAppend(Filter(init, keys), last);
    FilesAppend(Filter(init, keys - {m.vaddr}), last);
    if m == last {
      forall n | n in init ensures n.vaddr != m.vaddr {
        if n.vaddr == m.vaddr { SameStart(ms, n, m); }
      }
      FilterWithout(init, keys, m.vaddr);
    } else {
      if last.vaddr == m.vaddr { SameStart(ms, m, last); }
      FilterRemove(init, keys, m);
    }
  }

  lemma {:induction false} AllReleasable(ms: seq<Mapping>)
    requires forall m | m in ms :: ValidMapping(m)
    ensures Releasable(ms) == ms
    decreases |ms|
  {
    if ms != [] {
      AllReleasable(ms[..|ms| - 1]);
      EndIsPlain(ms[|ms| - 1]);
      assert ms == ms[..|ms| - 1] + [ms[|ms| - 1]];
    }
  }

  lemma SortedStep(ms: seq<Mapping>)
    requires ms != []
    ensures Sorted(ms) == InsertMapping(Sorted(ms[..|ms| - 1]), ms[|ms| - 1])
    ensures Files(ms) == Files(ms[..|ms| - 1]) + multiset{ms[|ms| - 1].frame.file}
  {
    hide InsertMapping;
  }

  lemma BagStep(ms: seq<Mapping>)
    requires ms != []
    ensures multiset(ms) == multiset(ms[..|ms| - 1]) + multiset{ms[|ms| - 1]}
  {
    assert ms == ms[..|ms| - 1] + [ms[|ms| - 1]];
  }

  lemma NoneSorted()
    ensures Sorted([]) == []
  {}

  lemma {:induction false} SortKeeps(ms: seq<Mapping>)
    ensures multiset(Sorted(ms)) == multiset(ms) && Files(Sorted(ms)) == Files(ms)
    decreases |ms|
  {
    hide InsertMapping, Sorted, Files;
    if ms == [] {
      NoneSorted();
    } else {
      SortedStep(ms);
      BagStep(ms);
      SortKeeps(ms[..|ms| - 1]);
      InsertPermutes(Sorted(ms[..|ms| - 1]), ms[|ms| - 1]);
      InsertFiles(Sorted(ms[..|ms| - 1]), ms[|ms| - 1]);
    }
  }

  lemma {:induction false} InsertPermutes(ms: seq<Mapping>, m: Mapping)
    ensures multiset(InsertMapping(ms, m)) == multiset(ms) + multiset{m}
    decreases |ms|
  {
    hide Before;
    if ms != [] && !Before(ms[|ms| - 1], m) {
      InsertPermutes(ms[..|ms| - 1], m);
      assert ms == ms[..|ms| - 1] + [ms[|ms| - 1]];
    }
  }

  lemma {:induction false} InsertFiles(ms: seq<Mapping>, m: Mapping)
    ensures Files(InsertMapping(ms, m)) == Files(ms) + multiset{m.frame.file}
    decreases |ms|
  {
    hide Before;
    if ms == [] || Before(ms[|ms| - 1], m) {
      FilesAppend(ms, m);
    } else {
      var init, last := ms[..|ms| - 1], ms[|ms| - 1];
      InsertFiles(init, m);
      FilesAppend(InsertMapping(init, m), last);
    }
  }

  lemma GoodPermuted(a: seq<Mapping>, b: seq<Mapping>)
    requires GoodMaps(a) && multiset(a) == multiset(b)
    ensures GoodMaps(b) && forall m :: m in a <==> m in b
  {
    forall m ensures m in a <==> m in b { assert m in multiset(a) <==> m in multiset(b); }
  }

  lemma GoodExtended(ms: seq<Mapping>, m: Mapping)
    requires GoodMaps(ms) && ValidMapping(m) && forall n | n in ms :: Apart(m, n)
    ensures GoodMaps(ms + [m])
  {
    assert m in ms ==> Apart(m, m);
    assert multiset(ms + [m]) == multiset(ms) + multiset{m};
  }

  // ----- Steps keep the maps -----

  lemma AppendToFirst(a: seq<Mapping>, b: seq<Mapping>, m: Mapping)
    ensures multiset((a + [m]) + b) == multiset(a + b + [m])
  {
    assert multiset((a + [m]) + b) == multiset(a) + multiset{m} + multiset(b);
    assert multiset(a + b + [m]) == multiset(a) + multiset(b) + multiset{m};
  }

  lemma AppendBoth(a: seq<Mapping>, b: seq<Mapping>, m: Mapping)
    requires multiset(a) == multiset(b)
    ensures multiset(a + [m]) == multiset(b + [m])
  {
    assert multiset(a + [m]) == multiset(a) + multiset{m};
    assert multiset(b + [m]) == multiset(b) + multiset{m};
  }

  lemma RepeatedIs(s: Sync, raw: RawMapping, m: Mapping)
    requires Repeated(s, raw) == Some(m)
    ensures m in s.prior && m.vaddr == raw.vaddr && m.length == raw.length && m.oid == raw.oid && raw.vaddr in s.keys
  {
    var same := Filter(s.prior, {raw.vaddr});
    assert m == same[|same| - 1];
    FilterElements(s.prior, {raw.vaddr}, m);
  }

  /** A line repeats the earlier mapping of its start address, if that has not changed. */
  lemma FoundByStart(s: Sync, raw: RawMapping, m: Mapping)
    requires GoodMaps(s.prior) && m in s.prior && m.vaddr == raw.vaddr && raw.vaddr in s.keys
    ensures Repeated(s, raw) == if m.length == raw.length && m.oid == raw.oid then Some(m) else None
  {
    hide GoodMaps;
    var same := Filter(s.prior, {raw.vaddr});
    FilterElements(s.prior, {raw.vaddr}, m);
    var n := same[|same| - 1];
    FilterElements(s.prior, {raw.vaddr}, n);
    SameStart(s.prior, m, n);
  }

  function Keep(s: Sync, oid: OID, m: Mapping): Sync {
    s.(keys := s.keys - {m.vaddr}, kept := s.kept + [m], mappings := s.mappings + [m], valid := s.valid + {oid})
  }

  lemma KeepGood(s: Sync, oid: OID, m: Mapping)
    requires SyncGood(s) && GoodMaps(s.kept + s.adds + [m])
    ensures SyncGood(Keep(s, oid, m))
  {
    hide GoodMaps;
    AppendToFirst(s.kept, s.adds, m);
    AppendBoth(s.mappings, s.kept + s.adds, m);
    GoodPermuted(s.kept + s.adds + [m], (s.kept + [m]) + s.adds);
  }

  lemma KeepStale(s: Sync, oid: OID, m: Mapping)
    requires SyncStale(s) && GoodMaps(s.prior) && m in s.prior
    ensures SyncStale(Keep(s, oid, m))
  {
    forall n | n in s.prior ensures n.vaddr in s.keys - {m.vaddr} || n in s.kept + [m] {
      if n.vaddr == m.vaddr { SameStart(s.prior, n, m); }
    }
  }

  lemma KeepFiles(s: Sync, oid: OID, m: Mapping)
    requires SyncFiles(s) && GoodMaps(s.prior) && m in s.prior && m.vaddr in s.keys
    ensures SyncFiles(Keep(s, oid, m))
  {
    hide Files, Filter, GoodMaps;
    FilterRemove(s.prior, s.keys, m);
    FilesAppend(s.kept, m);
    FilesAppend(s.mappings, m);
  }

  lemma DeliverKept(s: Sync, raw: RawMapping, m: Mapping)
    requires SyncOk(s) && Repeated(s, raw) == Some(m) && GoodLine(raw, s.mappings)
    ensures m.vaddr == raw.vaddr && SyncOk(Keep(s, raw.oid, m))
  {
    hide SyncStale, SyncFiles, Repeated, GoodMaps;
    RepeatedIs(s, raw, m);
    GoodValid(s.prior, m);
    Extend(s, m);
    KeepGood(s, raw.oid, m);
    KeepStale(s, raw.oid, m);
    KeepFiles(s, raw.oid, m);
  }

  lemma GoodValid(ms: seq<Mapping>, m: Mapping)
    requires GoodMaps(ms) && m in ms
    ensures ValidMapping(m)
  {}

  /** A mapping at a delivered line is apart from everything taken over so far. */
  lemma Extend(s: Sync, m: Mapping)
    requires SyncOk(s) && ValidMapping(m)
    requires forall n | n in s.mappings :: m.vaddr + m.length <= n.vaddr || n.vaddr + n.length <= m.vaddr
    ensures GoodMaps(s.kept + s.adds + [m])
  {
    GoodPermuted(s.kept + s.adds, s.mappings);
    GoodExtended(s.kept + s.adds, m);
  }

  function Take(s: Sync, oid: OID, m: Mapping): Sync {
    s.(adds := s.adds + [m], mappings := s.mappings + [m], valid := s.valid + {oid})
  }

  lemma TakeGood(s: Sync, oid: OID, m: Mapping)
    requires SyncGood(s) && GoodMaps(s.kept + s.adds + [m])
    ensures SyncGood(Take(s, oid, m))
  {
    hide GoodMaps;
    assert s.kept + (s.adds + [m]) == s.kept + s.adds + [m];
    AppendBoth(s.mappings, s.kept + s.adds, m);
  }

  lemma TakeFiles(s: Sync, oid: OID, m: Mapping)
    requires SyncFiles(s)
    ensures SyncFiles(Take(s, oid, m))
  {
    hide Files, Filter;
    FilesAppend(s.adds, m);
    FilesAppend(s.mappings, m);
  }

  lemma DeliverAdd(s: Sync, raw: RawMapping)
    requires SyncOk(s) && raw.elf.Loaded? && GoodLine(raw, s.mappings)
    ensures SyncOk(Take(s, raw.oid, FreshMapping(raw)))
  {
    hide SyncFiles, GoodMaps;
    var m := FreshMapping(raw);
    Extend(s, m);
    TakeGood(s, raw.oid, m);
    TakeFiles(s, raw.oid, m);
  }

  lemma StartSync(pid: PID, prior: seq<Mapping>, keys: set<Word>)
    requires GoodMaps(prior) && keys == (set m | m in prior :: m.vaddr)
    ensures SyncOk(Sync(pid, prior, keys, [], [], [], {}, Reading))
  {
    FilterAll(prior, keys);
    NoMaps();
    hide GoodMaps, Filter;
  }

  lemma StartOk(w: World, pid: PID)
    requires MapsInv(w) && w.sync.None? && Live(w.m, pid)
    ensures MapsInv(Start(w, pid)) && LiveTable(Start(w, pid)) == LiveTable(w)
  {
    hide GoodMaps, Filter, SyncOk, LiveTable;
    var prior := w.m.infos[pid];
    StartSync(pid, prior, set m | m in prior :: m.vaddr);
    LiveTableSame(w, Start(w, pid));
  }

  lemma NoMaps()
    ensures GoodMaps([]) && GoodMaps([] + []) && Files([]) == multiset{}
  {}

  predicate LineEffect(s: Sync, s': Sync, raw: RawMapping) {
    s' == s || (
      && s.phase.Reading? && raw.needed
      && match Repeated(s, raw)
         case Some(m) => m.vaddr == raw.vaddr ==> s' == Keep(s, raw.oid, m)
         case None => raw.elf.Loaded? && s' == Take(s, raw.oid, FreshMapping(raw)))
  }

  /** What a delivered line can change: references, interpreters, probes and the collected lists. */
  lemma LineFrame(w: World, raw: RawMapping)
    ensures var w' := Step(w, Line(raw));
            && w'.m == w.m.(refs := w'.m.refs, interps := w'.m.interps, probes := w'.m.probes)
            && (w.sync.None? ==> w' == w)
            && (w.sync.Some? ==> w'.sync.Some? && LineEffect(w.sync.value, w'.sync.value, raw))
  {
    hide Repeated, FreshMapping, AttachInterpreter, AttachProbes;
    if w.sync.Some? && raw.elf.Loaded? {
      var w1 := w.(m := w.m.(refs := w.m.refs + multiset{raw.elf.file}));
      AttachFrame(w1, w.sync.value.pid, raw.oid, raw.elf.attach, raw.elf.probes);
    }
  }

  lemma AttachFrame(w: World, pid: PID, oid: OID, a: Attach, probes: set<Attacher>)
    ensures var w1 := AttachInterpreter(w, pid, oid, a);
            var w2 := AttachProbes(w1, pid, probes);
            w2.m == w.m.(interps := w1.m.interps, probes := w2.m.probes) && w2.sync == w.sync
  {
    hide AttachInterpreter, AttachProbes;
    InterpreterFrame(w, pid, oid, a);
    ProbesFrame(AttachInterpreter(w, pid, oid, a), pid, probes);
  }

  lemma InterpreterFrame(w: World, pid: PID, oid: OID, a: Attach)
    ensures var w' := AttachInterpreter(w, pid, oid, a); w'.m == w.m.(interps := w'.m.interps) && w'.sync == w.sync
  {}

  lemma ProbesFrame(w: World, pid: PID, probes: set<Attacher>)
    ensures var w' := AttachProbes(w, pid, probes); w'.m == w.m.(probes := w'.m.probes) && w'.sync == w.sync
  {}

  lemma LiveTableSame(w: World, w': World)
    requires w'.m.infos == w.m.infos && w'.m.exits == w.m.exits
    requires forall pid | Live(w.m, pid) :: InTable(w', pid) == InTable(w, pid)
    ensures LiveTable(w') == LiveTable(w)
  {}

  /** Reading a line leaves the table alone and keeps the bookkeeping right. */
  lemma LineMaps(w: World, raw: RawMapping)
    requires MapsInv(w) && Legal(w, Line(raw))
    ensures MapsInv(Step(w, Line(raw))) && LiveTable(Step(w, Line(raw))) == LiveTable(w)
    ensures Step(w, Line(raw)).m.table == w.m.table && Step(w, Line(raw)).m.size == w.m.size
  {
    hide GoodMaps, SyncOk, Repeated, FreshMapping, Step, GoodLine;
    LineFrame(w, raw);
    var w' := Step(w, Line(raw));
    if w.sync.Some? && w'.sync.value != w.sync.value {
      var s := w.sync.value;
      match Repeated(s, raw)
      case Some(m) => DeliverKept(s, raw, m);
      case None => DeliverAdd(s, raw);
    }
    LiveTableSame(w, w');
  }

  // ----- Steps keep the table -----

  lemma BeginTable(w: World, pid: PID, dummyOk: bool)
    requires MapsInv(w) && TableInv(w)
    ensures var w' := Step(w, Begin(pid, dummyOk)); MapsInv(w') && TableInv(w')
  {
    hide GoodMaps, SyncOk, TableOk;
    if w.sync.None? && pid !in w.m.exits {
      if pid in w.m.infos {
        StartOk(w, pid);
      } else if dummyOk {
        var w1 := Create(w, pid);
        NoMaps();
        assert LiveTable(w1) == LiveTable(w)[pid := []];
        DummyAdded(w.m.table, LiveTable(w), pid);
        StartOk(w1, pid);
      }
    }
  }

  lemma DummyAdded(t: Table, live: map<PID, seq<Mapping>>, pid: PID)
    requires TableOk(t, live) && pid !in live
    ensures TableOk(t[(pid, DUMMY) := Entry(0, 0)], live[pid := []])
    ensures |t[(pid, DUMMY) := Entry(0, 0)]| == |t| + 1
  {
    hide PrefixList;
    var t' := t[(pid, DUMMY) := Entry(0, 0)];
    assert t'.Keys == t.Keys + {(pid, DUMMY)} && (pid, DUMMY) !in t;
    forall k | k in t' ensures k.0 in live[pid := []] && EntryOk(t', k, live[pid := []][k.0]) {
      if k in t { assert EntryOk(t, k, live[k.0]); }
    }
  }

  lemma DummyRewritten(t: Table, live: map<PID, seq<Mapping>>, pid: PID, e: Entry)
    requires TableOk(t, live) && pid in live
    ensures TableOk(t[(pid, DUMMY) := e], live) && |t[(pid, DUMMY) := e]| == |t|
  {
    hide PrefixList;
    var t' := t[(pid, DUMMY) := e];
    assert t'.Keys == t.Keys;
    forall k | k in t' ensures k.0 in live && EntryOk(t', k, live[k.0]) {
      assert EntryOk(t, k, live[k.0]);
    }
  }

  /** What Remove does to the counter when it agrees with the table. */
  lemma RemoveSize(m: Manager, pid: PID, ms: seq<Mapping>, extra: set<(PID, Prefix)>)
    requires m.size == |m.table|
    ensures var m' := Remove(m, pid, ms, extra);
            m'.size == |m'.table| && m'.table == m.table - (Keys(pid, ms) + extra)
            && m'.infos == m.infos && m'.exits == m.exits && m'.interps == m.interps && m'.probes == m.probes
            && m'.tracing == m.tracing
            // the clamp at zero is never needed
            && m.size >= |m.table.Keys * (Keys(pid, ms) + extra)|
  {
    hide Keys;
    RemovedSize(m.table, Keys(pid, ms) + extra);
  }

  /** Retire and Unprobe leave everything but interpreters, probes and history alone. */
  lemma RetireFrame(w: World, pid: PID, valid: set<OID>)
    ensures var w' := Retire(w, pid, valid);
            w'.sync == w.sync && w'.m == w.m.(interps := w'.m.interps) && w'.h == w.h.(detached := w'.h.detached)
    ensures var w' := Unprobe(w, pid);
            w'.sync == w.sync && w'.m == w.m.(probes := w'.m.probes) && w'.h == w.h.(unprobed := w'.h.unprobed)
  {}

  lemma ExitFrame(w: World, pid: PID, t: KTime)
    requires Live(w.m, pid)
    ensures var w' := Exit(w, pid, t);
            var m1 := Remove(w.m.(exits := w.m.exits[pid := t]), pid, w.m.infos[pid], {(pid, DUMMY)});
            w'.sync == w.sync && w'.m == m1.(interps := w'.m.interps, probes := w'.m.probes)
            && w'.h == w.h.(detached := w'.h.detached, unprobed := w'.h.unprobed)
  {
    hide Remove, Retire, Unprobe;
    var w1 := w.(m := Remove(w.m.(exits := w.m.exits[pid := t]), pid, w.m.infos[pid], {(pid, DUMMY)}));
    RetireFrame(w1, pid, {});
    RetireFrame(Retire(w1, pid, {}), pid, {});
  }

  lemma ExitMaps(w: World, pid: PID, t: KTime)
    requires MapsInv(w) && TableInv(w) && w.sync.None?
    ensures MapsInv(Exit(w, pid, t)) && TableInv(Exit(w, pid, t))
  {
    if Live(w.m, pid) {
      hide GoodMaps, TableOk, Remove, Exit, Keys;
      var m0 := w.m.(exits := w.m.exits[pid := t]);
      ExitFrame(w, pid, t);
      RemoveSize(m0, pid, w.m.infos[pid], {(pid, DUMMY)});
      ExitTable(w.m.table, LiveTable(w), pid);
      ExitLive(w, Exit(w, pid, t), pid, t);
    }
  }

  lemma ExitLive(w: World, w': World, pid: PID, t: KTime)
    requires w'.m.infos == w.m.infos && w'.m.exits == w.m.exits[pid := t] && w.sync.None? && w'.sync.None?
    ensures LiveTable(w') == LiveTable(w) - {pid}
  {}

  /** One live pid's entries change, nobody else's. */
  lemma OneLive(w: World, w': World, pid: PID)
    requires Live(w.m, pid) && pid in w'.m.infos && w'.m.exits == w.m.exits
    requires w'.m.infos[pid := []] == w.m.infos[pid := []]
    requires (w.sync.Some? ==> w.sync.value.pid == pid) && (w'.sync.Some? ==> w'.sync.value.pid == pid)
    ensures LiveTable(w') == LiveTable(w)[pid := InTable(w', pid)]
  {
    forall q | q != pid ensures q in w'.m.infos <==> q in w.m.infos {
      assert q in w'.m.infos[pid := []] <==> q in w.m.infos[pid := []];
    }
    forall q | q != pid && q in w.m.infos ensures w'.m.infos[q] == w.m.infos[q] {
      assert w'.m.infos[pid := []][q] == w.m.infos[pid := []][q];
    }
  }

  lemma AbandonMaps(w: World)
    requires MapsInv(w) && TableInv(w) && w.sync.Some? && w.sync.value.phase.Reading?
    ensures MapsInv(Abandon(w)) && TableInv(Abandon(w))
  {
    hide GoodMaps, TableOk, SyncOk;
    LiveTableSame(w, Abandon(w));
  }

  lemma PhaseKept(s: Sync, phase: Phase)
    requires SyncOk(s)
    ensures SyncOk(s.(phase := phase))
  {
    hide GoodMaps, Files, Filter;
  }

  lemma PruneStale(w: World)
    requires MapsInv(w) && TableInv(w) && w.sync.Some? && w.sync.value.phase.Reading?
    ensures var s := w.sync.value;
            var t := w.m.table - Keys(s.pid, Filter(s.prior, s.keys));
            && TableOk(t, LiveTable(w)[s.pid := s.kept])
            && (Complete(w.m.table, s.pid, s.prior) ==> Complete(t, s.pid, s.kept))
  {
    hide GoodMaps, TableOk, Keys, Complete, SyncFiles;
    var s := w.sync.value;
    var stale := Filter(s.prior, s.keys);
    forall m ensures m in stale <==> m in s.prior && m.vaddr in s.keys { FilterElements(s.prior, s.keys, m); }
    PruneTable(w.m.table, LiveTable(w), s.pid, stale, s.kept);
  }

  /** The world after Prune, up to interpreters and history. */
  lemma PruneFrame(w: World, interest: Option<FileID>)
    requires w.sync.Some? && w.sync.value.phase.Reading?
    ensures var s, w' := w.sync.value, Step(w, Prune(interest));
            var m0 := Remove(w.m, s.pid, Filter(s.prior, s.keys), {});
            && w'.sync == Some(s.(phase := Pruned))
            && w'.h == w.h.(detached := w'.h.detached)
            && w'.m == m0.(interps := w'.m.interps,
                           table := if interest.None? then m0.table
                                    else m0.table[(s.pid, DUMMY) := Entry(interest.value, 0)])
  {
    hide Remove, Retire, Filter;
    var s := w.sync.value;
    RetireFrame(w.(m := Remove(w.m, s.pid, Filter(s.prior, s.keys), {})), s.pid, s.valid);
  }

  lemma PruneMaps(w: World, interest: Option<FileID>)
    requires MapsInv(w) && TableInv(w) && w.sync.Some? && w.sync.value.phase.Reading?
    ensures var w' := Step(w, Prune(interest)); MapsInv(w') && TableInv(w')
    ensures Complete(w.m.table, w.sync.value.pid, w.m.infos[w.sync.value.pid]) ==>
              Complete(Step(w, Prune(interest)).m.table, w.sync.value.pid, w.sync.value.kept)
  {
    hide GoodMaps, TableOk, Remove, Keys, Complete, SyncOk, Step, Filter, LiveTable;
    var s, w' := w.sync.value, Step(w, Prune(interest));
    var stale := Filter(s.prior, s.keys);
    PruneFrame(w, interest);
    PruneStale(w);
    PhaseKept(s, Pruned);
    RemoveSize(w.m, s.pid, stale, {});
    assert Keys(s.pid, stale) + {} == Keys(s.pid, stale);
    OneLive(w, w', s.pid);
    if interest.Some? {
      var t := w.m.table - Keys(s.pid, stale);
      LiveHas(w, s.pid);
      DummyRewritten(t, LiveTable(w)[s.pid := s.kept], s.pid, Entry(interest.value, 0));
      DummyComplete(t, s.pid, s.kept, Entry(interest.value, 0));
    }
  }

  lemma LiveHas(w: World, pid: PID)
    ensures Live(w.m, pid) <==> pid in LiveTable(w)
    ensures Live(w.m, pid) ==> LiveTable(w)[pid] == InTable(w, pid)
  {}

  lemma DummyComplete(t: Table, pid: PID, ms: seq<Mapping>, e: Entry)
    ensures Complete(t, pid, ms) ==> Complete(t[(pid, DUMMY) := e], pid, ms)
  {
    hide PrefixList;
  }

  lemma InstallIs(w: World, ok: Prefix -> bool)
    requires w.sync.Some? && w.sync.value.phase.Pruned?
    ensures var s := w.sync.value;
            var r := InstallAll(w.m.table, s.pid, s.adds, ok);
            Step(w, Install(ok)) == w.(m := w.m.(table := r.0, size := w.m.size + r.1),
                                       sync := Some(s.(phase := Installed)))
  {
    hide InstallAll;
  }

  lemma InstallMaps(w: World, ok: Prefix -> bool)
    requires MapsInv(w) && TableInv(w) && w.sync.Some? && w.sync.value.phase.Pruned?
    ensures var w' := Step(w, Install(ok)); MapsInv(w') && TableInv(w')
    ensures Accepts(ok, w.sync.value.adds) && Complete(w.m.table, w.sync.value.pid, w.sync.value.kept) ==>
              Complete(Step(w, Install(ok)).m.table, w.sync.value.pid, w.sync.value.kept + w.sync.value.adds)
  {
    hide GoodMaps, TableOk, Complete, SyncFiles, SyncStale, InstallAll, LiveTable, Step, Accepts;
    var s := w.sync.value;
    InstallIs(w, ok);
    LiveHas(w, s.pid);
    PhaseKept(s, Installed);
    InstallAllTable(w.m.table, LiveTable(w), s.pid, s.adds, ok);
    OneLive(w, Step(w, Install(ok)), s.pid);
  }

  lemma PublishIs(w: World)
    requires w.sync.Some? && w.sync.value.phase.Installed?
    ensures var s := w.sync.value;
            Step(w, Publish) == w.(m := w.m.(infos := w.m.infos[s.pid := Sorted(s.mappings)]), sync := None)
  {
    hide Sorted;
  }

  lemma PublishMaps(w: World)
    requires MapsInv(w) && TableInv(w) && w.sync.Some? && w.sync.value.phase.Installed?
    ensures var w' := Step(w, Publish); MapsInv(w') && TableInv(w')
    ensures Complete(w.m.table, w.sync.value.pid, w.sync.value.kept + w.sync.value.adds) ==>
              Complete(w.m.table, w.sync.value.pid, Sorted(w.sync.value.mappings))
  {
    hide GoodMaps, TableOk, SyncFiles, SyncStale, Sorted, LiveTable, Complete, Files, Step;
    PublishIs(w);
    var s := w.sync.value;
    var all, sorted := s.kept + s.adds, Sorted(s.mappings);
    SortKeeps(s.mappings);
    GoodPermuted(all, sorted);
    LiveHas(w, s.pid);
    SameEntries(w.m.table, LiveTable(w), s.pid, all, sorted);
    OneLive(w, Step(w, Publish), s.pid);
  }

  /** The table depends on which mappings there are, not on their order. */
  lemma SameEntries(t: Table, live: map<PID, seq<Mapping>>, pid: PID, a: seq<Mapping>, b: seq<Mapping>)
    requires TableOk(t, live) && pid in live && live[pid] == a && forall m :: m in a <==> m in b
    ensures TableOk(t, live[pid := b]) && (Complete(t, pid, a) ==> Complete(t, pid, b))
  {
    hide PrefixList;
    forall k | k in t ensures k.0 in live[pid := b] && EntryOk(t, k, live[pid := b][k.0]) {
      assert EntryOk(t, k, live[k.0]);
      if k.0 == pid && k.1 != DUMMY {
        var m :| m in a && k.1 in PrefixList(m) && t[k] == EntryOf(m);
        assert m in b;
      }
    }
  }

  lemma ForgetMaps(w: World, t: KTime)
    requires MapsInv(w) && TableInv(w)
    ensures MapsInv(Forget(w, t)) && TableInv(Forget(w, t))
  {
    hide GoodMaps, TableOk, SyncOk;
    assert LiveTable(Forget(w, t)) == LiveTable(w);
  }

  /** Every step keeps the recorded mappings, the table's entries and the size counter in agreement. */
  lemma StepTable(w: World, e: Event)
    requires MapsInv(w) && TableInv(w) && Legal(w, e)
    ensures MapsInv(Step(w, e)) && TableInv(Step(w, e))
  {
    hide MapsInv, TableInv;
    match e
    case Begin(pid, dummyOk) => BeginTable(w, pid, dummyOk);
    case Line(raw) => LineTable(w, raw);
    case GiveUp => if w.sync.Some? && w.sync.value.phase.Reading? { AbandonMaps(w); }
    case Gone(t) =>
      if w.sync.Some? && w.sync.value.phase.Reading? {
        AbandonMaps(w);
        ExitMaps(Abandon(w), w.sync.value.pid, t);
      }
    case Prune(interest) => if w.sync.Some? && w.sync.value.phase.Reading? { PruneMaps(w, interest); }
    case Install(ok) => if w.sync.Some? && w.sync.value.phase.Pruned? { InstallMaps(w, ok); }
    case Publish => if w.sync.Some? && w.sync.value.phase.Installed? { PublishMaps(w); }
    case Died(pid, t) => if w.sync.None? { ExitMaps(w, pid, t); }
    case ProcessedUntil(t) => ForgetMaps(w, t);
  }

  lemma LineTable(w: World, raw: RawMapping)
    requires MapsInv(w) && TableInv(w) && Legal(w, Line(raw))
    ensures MapsInv(Step(w, Line(raw))) && TableInv(Step(w, Line(raw)))
  {
    hide MapsInv, Step, LiveTable, TableOk;
    LineMaps(w, raw);
  }
}
