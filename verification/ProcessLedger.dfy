/** References to executables: taken minus released is what is recorded, plus what failed reads leaked. */
module ProcessLedger {
  import opened Options
  import opened Lpm
  import opened ProcessModel
  import opened ProcessTable
  import opened ProcessInvariant

  type Bag = multiset<FileID>

  /** The total of all values. */
  ghost function Total(m: map<PID, Bag>): Bag
    decreases |m|
  {
    if m == map[] then multiset{} else
    var k :| k in m;
    assert m.Keys == (m - {k}).Keys + {k};
    m[k] + Total(m - {k})
  }

  lemma {:induction false} TotalSplit(m: map<PID, Bag>, k: PID)
    requires k in m
    ensures Total(m) == m[k] + Total(m - {k})
    decreases |m|
  {
    var j :| j in m && Total(m) == m[j] + Total(m - {j});
    assert m.Keys == (m - {j}).Keys + {j};
    if j != k {
      TotalSplit(m - {j}, k);
      assert m - {j} - {k} == m - {k} - {j};
      assert (m - {k}).Keys == m.Keys - {k};
      assert |m - {k}| < |m| by { assert m.Keys == (m - {k}).Keys + {k}; }
      TotalSplit(m - {k}, j);
    }
  }

  lemma TotalChange(m: map<PID, Bag>, k: PID, x: Bag)
    requires k in m
    ensures Total(m[k := x]) + m[k] == Total(m) + x
  {
    TotalSplit(m, k);
    TotalSplit(m[k := x], k);
    assert m[k := x] - {k} == m - {k};
  }

  lemma TotalNew(m: map<PID, Bag>, k: PID, x: Bag)
    requires k !in m
    ensures Total(m[k := x]) == Total(m) + x
  {
    TotalSplit(m[k := x], k);
    assert m[k := x] - {k} == m;
  }

  // ----- The ledger -----

  /** References held for a pid: a read in progress holds the new ones beside the old. */
  function HeldBy(w: World, pid: PID): Bag
    requires pid in w.m.infos
  {
    if !Syncing(w, pid) then Files(w.m.infos[pid])
    else if w.sync.value.phase.Reading? then Files(w.m.infos[pid]) + Files(w.sync.value.adds)
    else Files(w.sync.value.mappings)
  }

  function Held(w: World): map<PID, Bag> {
    map pid | pid in w.m.infos && pid !in w.m.exits :: HeldBy(w, pid)
  }

  ghost predicate RefsInv(w: World) {
    w.m.refs == Total(Held(w)) + w.h.leaked
  }

  lemma HeldSame(w: World, w': World)
    requires w'.m.infos == w.m.infos && w'.m.exits == w.m.exits
    requires forall pid | Live(w.m, pid) :: HeldBy(w', pid) == HeldBy(w, pid)
    ensures Held(w') == Held(w)
  {}

  /** One live pid's references change, nobody else's. */
  lemma OneHeld(w: World, w': World, pid: PID)
    requires Live(w.m, pid) && pid in w'.m.infos && w'.m.exits == w.m.exits
    requires w'.m.infos[pid := []] == w.m.infos[pid := []]
    requires (w.sync.Some? ==> w.sync.value.pid == pid) && (w'.sync.Some? ==> w'.sync.value.pid == pid)
    ensures Held(w') == Held(w)[pid := HeldBy(w', pid)] && pid in Held(w) && Held(w)[pid] == HeldBy(w, pid)
    ensures Total(Held(w')) + HeldBy(w, pid) == Total(Held(w)) + HeldBy(w', pid)
  {
    hide Held, HeldBy, Total;
    OneChanged(w, w', pid);
    TotalChange(Held(w), pid, HeldBy(w', pid));
  }

  lemma OneChanged(w: World, w': World, pid: PID)
    requires Live(w.m, pid) && pid in w'.m.infos && w'.m.exits == w.m.exits
    requires w'.m.infos[pid := []] == w.m.infos[pid := []]
    requires (w.sync.Some? ==> w.sync.value.pid == pid) && (w'.sync.Some? ==> w'.sync.value.pid == pid)
    ensures Held(w') == Held(w)[pid := HeldBy(w', pid)] && pid in Held(w) && Held(w)[pid] == HeldBy(w, pid)
  {
    hide Files;
    forall q | q != pid ensures q in w'.m.infos <==> q in w.m.infos {
      assert q in w'.m.infos[pid := []] <==> q in w.m.infos[pid := []];
    }
    forall q | q != pid && q in w.m.infos ensures w'.m.infos[q] == w.m.infos[q] {
      assert w'.m.infos[pid := []][q] == w.m.infos[pid := []][q];
    }
  }

  lemma Rebalance(refs: Bag, refs': Bag, total: Bag, total': Bag, leaked: Bag, leaked': Bag, a: Bag, b: Bag)
    requires refs == total + leaked && total' + a == total + b && refs' + a + leaked == refs + b + leaked'
    ensures refs' == total' + leaked'
  {
    forall f: FileID ensures refs'[f] == (total' + leaked')[f] {
      assert (total' + a)[f] == (total + b)[f];
      assert (refs' + a + leaked)[f] == (refs + b + leaked')[f];
    }
  }

  /** One live pid's account changes from a to b and the references follow. */
  lemma OneAccount(w: World, w': World, pid: PID)
    requires RefsInv(w) && Live(w.m, pid) && pid in w'.m.infos && w'.m.exits == w.m.exits
    requires w'.m.infos[pid := []] == w.m.infos[pid := []]
    requires (w.sync.Some? ==> w.sync.value.pid == pid) && (w'.sync.Some? ==> w'.sync.value.pid == pid)
    requires w'.m.refs + HeldBy(w, pid) + w.h.leaked == w.m.refs + HeldBy(w', pid) + w'.h.leaked
    ensures RefsInv(w')
  {
    hide HeldBy, Total, Held;
    OneHeld(w, w', pid);
    Rebalance(w.m.refs, w'.m.refs, Total(Held(w)), Total(Held(w')), w.h.leaked, w'.h.leaked, HeldBy(w, pid),
              HeldBy(w', pid));
  }

  lemma BeginRefs(w: World, pid: PID, dummyOk: bool)
    requires MapsInv(w) && RefsInv(w)
    ensures RefsInv(Step(w, Begin(pid, dummyOk)))
  {
    hide MapsInv, Total, Files;
    NoMaps();
    if w.sync.None? && pid !in w.m.exits {
      if pid in w.m.infos {
        HeldSame(w, Start(w, pid));
      } else if dummyOk {
        var w1 := Create(w, pid);
        assert Held(w1) == Held(w)[pid := multiset{}];
        TotalNew(Held(w), pid, multiset{});
        HeldSame(w1, Start(w1, pid));
      }
    }
  }

  lemma LineRefs(w: World, raw: RawMapping)
    requires MapsInv(w) && RefsInv(w)
    ensures RefsInv(Step(w, Line(raw)))
  {
    hide MapsInv, Total, Files, Step, Repeated, FreshMapping, Held, LineEffect, RefsInv;
    LineFrame(w, raw);
    var w' := Step(w, Line(raw));
    if w.sync.Some? {
      MapsLive(w);
      LineLedger(w, raw);
      var s, s' := w.sync.value, w'.sync.value;
      AddBoth(w'.m.refs, Files(s.adds), w.m.refs, Files(s'.adds), Files(w.m.infos[s.pid]), w.h.leaked);
      OneAccount(w, w', s.pid);
    }
  }

  lemma AddBoth(x: Bag, a: Bag, y: Bag, b: Bag, f: Bag, l: Bag)
    requires x + a == y + b
    ensures x + (f + a) + l == y + (f + b) + l
  {
    assert x + (f + a) + l == (x + a) + f + l;
    assert y + (f + b) + l == (y + b) + f + l;
  }

  lemma MapsLive(w: World)
    requires MapsInv(w) && w.sync.Some?
    ensures Live(w.m, w.sync.value.pid) && w.sync.value.prior == w.m.infos[w.sync.value.pid] && SyncOk(w.sync.value)
  {}

  /** A line adds to the references exactly what it adds to the new mappings. */
  lemma LineLedger(w: World, raw: RawMapping)
    requires w.sync.Some? && (w.sync.value.phase.Reading? ==> w.sync.value.pid in w.m.infos)
    ensures var w' := Step(w, Line(raw));
            && w'.sync.Some? && w'.sync.value.pid == w.sync.value.pid && w'.sync.value.phase == w.sync.value.phase
            && w'.h.leaked == w.h.leaked
            && (!w.sync.value.phase.Reading? ==> w'.m.refs == w.m.refs && w'.sync == w.sync)
            && w'.m.refs + Files(w.sync.value.adds) == w.m.refs + Files(w'.sync.value.adds)
  {
    hide Repeated, AttachInterpreter, AttachProbes, FreshMapping, Files;
    var s := w.sync.value;
    if s.phase.Reading? && raw.needed && Repeated(s, raw).None? && raw.elf.Loaded? {
      var w1 := w.(m := w.m.(refs := w.m.refs + multiset{raw.elf.file}));
      AttachFrame(w1, s.pid, raw.oid, raw.elf.attach, raw.elf.probes);
      AttachLeaks(w1, s.pid, raw.oid, raw.elf.attach, raw.elf.probes);
      FilesAppend(s.adds, FreshMapping(raw));
      FreshFile(raw);
    }
  }

  lemma FreshFile(raw: RawMapping)
    requires raw.elf.Loaded?
    ensures FreshMapping(raw).frame.file == raw.elf.file
  {}

  lemma AttachLeaks(w: World, pid: PID, oid: OID, a: Attach, probes: set<Attacher>)
    ensures AttachProbes(AttachInterpreter(w, pid, oid, a), pid, probes).h.leaked == w.h.leaked
  {}

  lemma AbandonRefs(w: World)
    requires MapsInv(w) && RefsInv(w) && w.sync.Some? && w.sync.value.phase.Reading?
    ensures RefsInv(Abandon(w))
  {
    hide MapsInv, Files, RefsInv;
    MapsLive(w);
    OneAccount(w, Abandon(w), w.sync.value.pid);
  }

  /** What a live pid holds is among the references. */
  lemma HeldIncluded(w: World, pid: PID)
    requires RefsInv(w) && Live(w.m, pid)
    ensures HeldBy(w, pid) <= w.m.refs && w.m.refs == HeldBy(w, pid) + Total(Held(w) - {pid}) + w.h.leaked
  {
    hide HeldBy, Total;
    TotalSplit(Held(w), pid);
  }

  lemma ExitRefs(w: World, pid: PID, t: KTime)
    requires MapsInv(w) && RefsInv(w) && w.sync.None?
    ensures RefsInv(Exit(w, pid, t))
  {
    if Live(w.m, pid) {
      ExitReleases(w, pid);
      hide MapsInv, Total, Files, Exit, Releasable;
      ExitFrame(w, pid, t);
      HeldIncluded(w, pid);
      ExitHeld(w, Exit(w, pid, t), pid, t);
    }
  }

  lemma ExitReleases(w: World, pid: PID)
    requires MapsInv(w) && pid in w.m.infos
    ensures Releasable(w.m.infos[pid]) == w.m.infos[pid]
  {
    assert GoodMaps(w.m.infos[pid]);
    AllReleasable(w.m.infos[pid]);
  }

  lemma ExitHeld(w: World, w': World, pid: PID, t: KTime)
    requires w'.m.infos == w.m.infos && w'.m.exits == w.m.exits[pid := t] && w.sync.None? && w'.sync.None?
    ensures Held(w') == Held(w) - {pid}
  {
    hide Files;
  }

  lemma StaleReleases(s: Sync)
    requires SyncOk(s)
    ensures Releasable(Filter(s.prior, s.keys)) == Filter(s.prior, s.keys)
  {
    var stale := Filter(s.prior, s.keys);
    forall m | m in stale ensures ValidMapping(m) { FilterElements(s.prior, s.keys, m); }
    AllReleasable(stale);
  }

  lemma ReleasePart(refs: Bag, s: Bag, k: Bag, a: Bag)
    requires s <= refs
    ensures (refs - s) + (s + k + a) == refs + (k + a)
  {}

  lemma PruneRefs(w: World, interest: Option<FileID>)
    requires MapsInv(w) && RefsInv(w) && w.sync.Some? && w.sync.value.phase.Reading?
    ensures RefsInv(Step(w, Prune(interest)))
  {
    hide MapsInv, Files, Step, Keys, Releasable, GoodMaps, Filter, RefsInv, SyncGood, SyncStale;
    MapsLive(w);
    var s := w.sync.value;
    var stale, w' := Filter(s.prior, s.keys), Step(w, Prune(interest));
    StaleReleases(s);
    PruneFrame(w, interest);
    HeldIncluded(w, s.pid);
    ReleasePart(w.m.refs, Files(stale), Files(s.kept), Files(s.adds));
    OneAccount(w, w', s.pid);
  }

  lemma InstallRefs(w: World, ok: Prefix -> bool)
    requires MapsInv(w) && RefsInv(w) && w.sync.Some? && w.sync.value.phase.Pruned?
    ensures RefsInv(Step(w, Install(ok)))
  {
    hide MapsInv, Files, InstallAll, RefsInv;
    MapsLive(w);
    OneAccount(w, Step(w, Install(ok)), w.sync.value.pid);
  }

  lemma PublishRefs(w: World)
    requires MapsInv(w) && RefsInv(w) && w.sync.Some? && w.sync.value.phase.Installed?
    ensures RefsInv(Step(w, Publish))
  {
    hide MapsInv, Files, Sorted, RefsInv;
    MapsLive(w);
    SortKeeps(w.sync.value.mappings);
    OneAccount(w, Step(w, Publish), w.sync.value.pid);
  }

  lemma ForgetRefs(w: World, t: KTime)
    requires MapsInv(w) && RefsInv(w)
    ensures RefsInv(Forget(w, t))
  {
    hide Total, Files, SyncOk, GoodMaps;
    assert Held(Forget(w, t)) == Held(w);
  }

  lemma StepRefs(w: World, e: Event)
    requires MapsInv(w) && RefsInv(w)
    ensures RefsInv(Step(w, e))
  {
    hide MapsInv, RefsInv, Exit, Abandon, Forget;
    match e
    case Begin(pid, dummyOk) => BeginRefs(w, pid, dummyOk);
    case Line(raw) => LineRefs(w, raw);
    case GiveUp => if w.sync.Some? && w.sync.value.phase.Reading? { AbandonRefs(w); }
    case Gone(t) =>
      if w.sync.Some? && w.sync.value.phase.Reading? {
        AbandonRefs(w);
        AbandonKeeps(w);
        ExitRefs(Abandon(w), w.sync.value.pid, t);
      }
    case Prune(interest) => if w.sync.Some? && w.sync.value.phase.Reading? { PruneRefs(w, interest); }
    case Install(ok) => if w.sync.Some? && w.sync.value.phase.Pruned? { InstallRefs(w, ok); }
    case Publish => if w.sync.Some? && w.sync.value.phase.Installed? { PublishRefs(w); }
    case Died(pid, t) => if w.sync.None? { ExitRefs(w, pid, t); }
    case ProcessedUntil(t) => ForgetRefs(w, t);
  }

  lemma AbandonKeeps(w: World)
    requires MapsInv(w) && w.sync.Some?
    ensures MapsInv(Abandon(w)) && Abandon(w).sync.None?
  {
    hide GoodMaps, SyncOk, Files;
  }
}
