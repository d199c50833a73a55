/** Lookups in the eBPF table over runs, one process at a time. */
module ProcessLookups {
  import opened Options
  import opened Lpm
  import opened ProcessModel
  import opened ProcessTable
  import opened ProcessInvariant
  import opened ProcessLedger
  import opened ProcessDetach
  import opened ProcessRuns

  /** The mapping should be in the table: recorded, or kept or added by a synchronization under way. */
  ghost predicate Held(w: World, pid: PID, m: Mapping) {
    pid in LiveTable(w) && m in LiveTable(w)[pid]
  }

  /** Nothing of the mapping is missing. */
  ghost predicate Whole(w: World, pid: PID, m: Mapping) { forall p | p in PrefixList(m) :: (pid, p) in w.m.table }

  /** The event installs the mapping. */
  predicate Adds(w: World, e: Event, pid: PID, m: Mapping) {
    e.Install? && Syncing(w, pid) && w.sync.value.phase.Pruned? && m in w.sync.value.adds
  }

  lemma {:induction false} InstallPrefixesKeeps(t: Table, pid: PID, ps: seq<Prefix>, e: Entry, ok: Prefix -> bool)
    ensures forall k | k in t :: k in InstallPrefixes(t, pid, ps, e, ok).0
    decreases |ps|
  {
    if ps != [] && ok(ps[0]) { InstallPrefixesKeeps(t[(pid, ps[0]) := e], pid, ps[1..], e, ok); }
  }

  lemma {:induction false} InstallAllKeeps(t: Table, pid: PID, ms: seq<Mapping>, ok: Prefix -> bool)
    ensures forall k | k in t :: k in InstallAll(t, pid, ms, ok).0
    decreases |ms|
  {
    hide PrefixList;
    if ms != [] {
      InstallAllKeeps(t, pid, ms[..|ms| - 1], ok);
      var t' := InstallAll(t, pid, ms[..|ms| - 1], ok).0;
      InstallPrefixesKeeps(t', pid, PrefixList(ms[|ms| - 1]), EntryOf(ms[|ms| - 1]), ok);
    }
  }

  lemma RemoveDeletes(m: Manager, pid: PID, ms: seq<Mapping>, extra: set<(PID, Prefix)>)
    requires forall k | k in extra :: k.0 == pid
    ensures forall k | k in m.table && k.0 != pid :: k in Remove(m, pid, ms, extra).table
    ensures forall k | k in Remove(m, pid, ms, extra).table :: k in m.table
  {
    hide PrefixList;
  }

  lemma ForgetLive(w: World, t: KTime)
    requires MapsInv(w)
    ensures LiveTable(Forget(w, t)) == LiveTable(w) && Forget(w, t).m.table == w.m.table
  {
    hide GoodMaps, SyncOk;
  }

  // ----- One step, one mapping -----

  /** The mapping was there before, and the step neither adds nor removes the prefix. */
  ghost predicate Untouched(w: World, w': World, pid: PID, m: Mapping, p: Prefix) {
    Held(w, pid, m) && ((pid, p) in w'.m.table <==> (pid, p) in w.m.table)
  }

  lemma HeldValid(w: World, pid: PID, m: Mapping)
    requires MapsInv(w) && Held(w, pid, m)
    ensures ValidMapping(m) && Live(w.m, pid) && m in InTable(w, pid) && GoodMaps(InTable(w, pid))
  {
    hide ValidMapping, SyncStale, SyncFiles;
    LiveHas(w, pid);
    if Syncing(w, pid) { KeptGood(w.sync.value.kept, w.sync.value.adds); }
  }

  lemma KeptGood(a: seq<Mapping>, b: seq<Mapping>)
    requires GoodMaps(a + b)
    ensures GoodMaps(a)
  {
    hide ValidMapping;
    assert multiset(a + b) == multiset(a) + multiset(b);
    forall m ensures multiset(a)[m] <= 1 { assert multiset(a + b)[m] <= 1; }
    assert forall m | m in a :: m in a + b;
  }

  lemma PruneHeld(w: World, interest: Option<FileID>, pid: PID, m: Mapping, p: Prefix)
    requires MapsInv(w) && w.sync.Some? && w.sync.value.phase.Reading? && p in PrefixList(m) && p != DUMMY
    requires Held(Step(w, Prune(interest)), pid, m)
    ensures Untouched(w, Step(w, Prune(interest)), pid, m, p)
  {
    hide PrefixList, Step, Remove, Filter, LiveTable, GoodMaps, SyncFiles;
    var s, w' := w.sync.value, Step(w, Prune(interest));
    var stale := Filter(s.prior, s.keys);
    PruneFrame(w, interest);
    RemoveFrame(w.m, s.pid, stale, {});
    LiveHas(w, s.pid);
    OneLive(w, w', s.pid);
    LiveHas(w', pid);
    RemoveTable(w.m, s.pid, stale, (pid, p));
    if pid == s.pid {
      assert m in s.kept;
      forall n | n in stale ensures p !in PrefixList(n) {
        FilterElements(s.prior, s.keys, n);
        StaleApart(s.prior, m, n, p);
      }
    }
  }

  lemma StaleApart(ms: seq<Mapping>, m: Mapping, n: Mapping, p: Prefix)
    requires GoodMaps(ms) && m in ms && n in ms && m != n && p in PrefixList(m)
    ensures p !in PrefixList(n)
  {
    hide PrefixList, ValidMapping;
    if p in PrefixList(n) { ApartPrefixes(m, n, p); }
  }

  lemma RemoveTable(m: Manager, pid: PID, ms: seq<Mapping>, k: (PID, Prefix))
    ensures k in Remove(m, pid, ms, {}).table <==>
              k in m.table && !(k.0 == pid && exists n | n in ms :: k.1 in PrefixList(n))
  {
    hide PrefixList;
  }

  lemma InstallHeld(w: World, ok: Prefix -> bool, pid: PID, m: Mapping, p: Prefix)
    requires MapsInv(w) && w.sync.Some? && w.sync.value.phase.Pruned? && p in PrefixList(m)
    requires Held(Step(w, Install(ok)), pid, m) && !Adds(w, Install(ok), pid, m)
    ensures Untouched(w, Step(w, Install(ok)), pid, m, p)
  {
    hide PrefixList, Step, InstallAll, LiveTable, GoodMaps, SyncStale, SyncFiles;
    var s, w' := w.sync.value, Step(w, Install(ok));
    InstallIs(w, ok);
    LiveHas(w, s.pid);
    OneLive(w, w', s.pid);
    LiveHas(w', pid);
    InstallAllKeeps(w.m.table, s.pid, s.adds, ok);
    if (pid, p) !in w.m.table {
      forall n | n in s.adds && s.pid == pid ensures p !in PrefixList(n) {
        NotBoth(s, m, n);
        if p in PrefixList(n) { ApartPrefixes(m, n, p); }
      }
      InstallAllOnly(w.m.table, s.pid, s.adds, ok, (pid, p));
    }
  }

  lemma PublishHeld(w: World, pid: PID, m: Mapping, p: Prefix)
    requires MapsInv(w) && w.sync.Some? && w.sync.value.phase.Installed? && Held(Step(w, Publish), pid, m)
    ensures Untouched(w, Step(w, Publish), pid, m, p)
  {
    hide Step, Sorted, LiveTable, GoodMaps, SyncStale, SyncFiles;
    var s, w' := w.sync.value, Step(w, Publish);
    PublishIs(w);
    LiveHas(w, s.pid);
    OneLive(w, w', s.pid);
    LiveHas(w', pid);
    if pid == s.pid {
      SortKeeps(s.mappings);
      assert m in multiset(Sorted(s.mappings));
      assert m in multiset(s.kept + s.adds);
    }
  }

  lemma ExitHeld(w: World, pid: PID, t: KTime, q: PID, m: Mapping, p: Prefix)
    requires MapsInv(w) && w.sync.None? && Held(Exit(w, pid, t), q, m)
    ensures Untouched(w, Exit(w, pid, t), q, m, p)
  {
    hide LiveTable, MapsInv;
    if Live(w.m, pid) { ExitOthers(w, pid, t); }
  }

  /** Exit ends the pid's life and leaves the entries of others alone. */
  lemma ExitOthers(w: World, pid: PID, t: KTime)
    requires w.sync.None? && Live(w.m, pid)
    ensures LiveTable(Exit(w, pid, t)) == LiveTable(w) - {pid}
    ensures forall k: (PID, Prefix) | k.0 != pid :: k in Exit(w, pid, t).m.table <==> k in w.m.table
  {
    hide Exit, Remove, LiveTable;
    ExitFrame(w, pid, t);
    var m0 := w.m.(exits := w.m.exits[pid := t]);
    RemoveDeletes(m0, pid, w.m.infos[pid], {(pid, DUMMY)});
    RemoveFrame(m0, pid, w.m.infos[pid], {(pid, DUMMY)});
    ExitLive(w, Exit(w, pid, t), pid, t);
  }

  lemma BeginHeld(w: World, pid: PID, dummyOk: bool, q: PID, m: Mapping, p: Prefix)
    requires MapsInv(w) && Held(Step(w, Begin(pid, dummyOk)), q, m)
    ensures Untouched(w, Step(w, Begin(pid, dummyOk)), q, m, p)
  {
    hide SyncOk, GoodMaps;
    var w' := Step(w, Begin(pid, dummyOk));
    if w.sync.None? && pid !in w.m.exits {
      if pid in w.m.infos {
        LiveTableSame(w, w');
      } else if dummyOk {
        assert LiveTable(w') == LiveTable(w)[pid := []];
      }
    }
  }

  /** Only an installation of the mapping makes it held or changes which of its prefixes are there. */
  lemma StepHeld(w: World, e: Event, pid: PID, m: Mapping, p: Prefix)
    requires MapsInv(w) && Legal(w, e) && p in PrefixList(m) && p != DUMMY
    requires Held(Step(w, e), pid, m) && !Adds(w, e, pid, m)
    ensures Untouched(w, Step(w, e), pid, m, p)
  {
    hide MapsInv, LiveTable, Exit, PrefixList, Deliver, Remove, InstallAll, Sorted, Legal;
    match e
    case Begin(q, dummyOk) => BeginHeld(w, q, dummyOk, pid, m, p);
    case Line(raw) => LineMaps(w, raw);
    case GiveUp => if w.sync.Some? { AbandonLive(w); }
    case Gone(t) =>
      if w.sync.Some? && w.sync.value.phase.Reading? {
        AbandonLive(w);
        AbandonKeeps(w);
        ExitHeld(Abandon(w), w.sync.value.pid, t, pid, m, p);
      }
    case Prune(interest) =>
      if w.sync.Some? && w.sync.value.phase.Reading? { PruneHeld(w, interest, pid, m, p); }
    case Install(ok) => if w.sync.Some? && w.sync.value.phase.Pruned? { InstallHeld(w, ok, pid, m, p); }
    case Publish => if w.sync.Some? && w.sync.value.phase.Installed? { PublishHeld(w, pid, m, p); }
    case Died(q, t) => if w.sync.None? { ExitHeld(w, q, t, pid, m, p); }
    case ProcessedUntil(t) => ForgetLive(w, t);
  }

  lemma AbandonLive(w: World)
    requires MapsInv(w) && w.sync.Some?
    ensures w.sync.value.phase.Reading? ==> LiveTable(Abandon(w)) == LiveTable(w) && Abandon(w).m.table == w.m.table
  {
    hide GoodMaps, SyncOk;
    if w.sync.value.phase.Reading? { LiveTableSame(w, Abandon(w)); }
  }

  // ----- Installing one mapping -----

  lemma {:induction false} InstalledWhole(t: Table, pid: PID, ps: seq<Prefix>, e: Entry, ok: Prefix -> bool, p: Prefix)
    requires p in ps && (forall q | q in ps :: ok(q))
    ensures (pid, p) in InstallPrefixes(t, pid, ps, e, ok).0
    decreases |ps|
  {
    var t' := t[(pid, ps[0]) := e];
    if p == ps[0] {
      InstallPrefixesKeeps(t', pid, ps[1..], e, ok);
    } else {
      InstalledWhole(t', pid, ps[1..], e, ok, p);
    }
  }

  /** A prefix that is refused is not there, when it was not before. */
  lemma {:induction false} RefusedMissing(t: Table, pid: PID, ps: seq<Prefix>, e: Entry, ok: Prefix -> bool, p: Prefix)
    requires !ok(p) && (pid, p) !in t
    ensures (pid, p) !in InstallPrefixes(t, pid, ps, e, ok).0
    decreases |ps|
  {
    if ps != [] && ok(ps[0]) { RefusedMissing(t[(pid, ps[0]) := e], pid, ps[1..], e, ok, p); }
  }

  lemma {:induction false} AllWhole(t: Table, pid: PID, ms: seq<Mapping>, ok: Prefix -> bool, m: Mapping, p: Prefix)
    requires m in ms && p in PrefixList(m) && Accepts(ok, [m])
    ensures (pid, p) in InstallAll(t, pid, ms, ok).0
    decreases |ms|
  {
    hide PrefixList;
    var init, last := ms[..|ms| - 1], ms[|ms| - 1];
    var t' := InstallAll(t, pid, init, ok).0;
    if m == last {
      assert m in [m];
      InstalledWhole(t', pid, PrefixList(last), EntryOf(last), ok, p);
    } else {
      AllWhole(t, pid, init, ok, m, p);
      InstallPrefixesKeeps(t', pid, PrefixList(last), EntryOf(last), ok);
    }
  }

  lemma {:induction false} AllRefused(t: Table, pid: PID, ms: seq<Mapping>, ok: Prefix -> bool, p: Prefix)
    requires !ok(p) && (pid, p) !in t
    ensures (pid, p) !in InstallAll(t, pid, ms, ok).0
    decreases |ms|
  {
    hide PrefixList;
    if ms != [] {
      AllRefused(t, pid, ms[..|ms| - 1], ok, p);
      var last := ms[|ms| - 1];
      RefusedMissing(InstallAll(t, pid, ms[..|ms| - 1], ok).0, pid, PrefixList(last), EntryOf(last), ok, p);
    }
  }

  /** Nothing of a mapping that is not held is in the table. */
  lemma NotHeldAbsent(w: World, pid: PID, m: Mapping, p: Prefix)
    requires TableInv(w) && Live(w.m, pid) && ValidMapping(m) && p in PrefixList(m)
    requires forall n | n in InTable(w, pid) :: ValidMapping(n) && Apart(m, n)
    ensures (pid, p) !in w.m.table
  {
    hide PrefixList, ValidMapping, LiveTable, Apart;
    LiveHas(w, pid);
    PrefixInside(m, p);
    if (pid, p) in w.m.table {
      assert EntryOk(w.m.table, (pid, p), LiveTable(w)[pid]);
      var n :| n in LiveTable(w)[pid] && p in PrefixList(n);
      ApartPrefixes(m, n, p);
    }
  }

  /** An installed mapping was not held, is held, and is whole exactly when none of its updates is refused. */
  lemma AddsWhole(w: World, e: Event, pid: PID, m: Mapping)
    requires MapsInv(w) && TableInv(w) && Adds(w, e, pid, m)
    ensures !Held(w, pid, m) && Held(Step(w, e), pid, m) && (Whole(Step(w, e), pid, m) <==> Accepts(e.ok, [m]))
  {
    hide PrefixList, Step, InstallAll, LiveTable, GoodMaps, SyncStale, SyncFiles, TableOk, ValidMapping, Apart;
    var s, w', ok := w.sync.value, Step(w, e), e.ok;
    InstallIs(w, ok);
    LiveHas(w, pid);
    OneLive(w, w', pid);
    forall n | n in s.kept ensures n != m && Apart(m, n) && ValidMapping(n) {
      NotBoth(s, n, m);
      ApartSwaps(m, n);
    }
    assert m in s.kept + s.adds && ValidMapping(m) by { ValidAmong(s.kept + s.adds, m); }
    if Accepts(ok, [m]) {
      forall p | p in PrefixList(m) ensures (pid, p) in w'.m.table { AllWhole(w.m.table, pid, s.adds, ok, m, p); }
    } else {
      var p :| p in PrefixList(m) && !ok(p);
      NotHeldAbsent(w, pid, m, p);
      AllRefused(w.m.table, pid, s.adds, ok, p);
    }
  }

  lemma ApartSwaps(m: Mapping, n: Mapping)
    ensures Apart(n, m) ==> Apart(m, n)
  {}

  lemma ValidAmong(ms: seq<Mapping>, m: Mapping)
    requires GoodMaps(ms) && m in ms
    ensures ValidMapping(m)
  {}

  // ----- Over runs -----

  /** The k-th event installs the mapping with an update refused, and it has been held ever since. */
  ghost predicate LostAt(w: World, es: seq<Event>, pid: PID, m: Mapping, k: nat) {
    && k < |es| && Adds(Run(w, es[..k]), es[k], pid, m) && !Accepts(es[k].ok, [m])
    && forall i | k < i <= |es| :: Held(Run(w, es[..i]), pid, m)
  }

  ghost predicate Lost(w: World, es: seq<Event>, pid: PID, m: Mapping) { exists k :: LostAt(w, es, pid, m, k) }

  lemma LostBefore(w: World, es: seq<Event>, pid: PID, m: Mapping, k: nat)
    requires es != [] && k < |es| - 1 && Held(Run(w, es), pid, m)
    ensures LostAt(w, es, pid, m, k) <==> LostAt(w, es[..|es| - 1], pid, m, k)
  {
    hide Run, Held, Accepts, Adds;
    var init := es[..|es| - 1];
    assert es[..|es|] == es;
    forall i | 0 <= i <= |init| ensures init[..i] == es[..i] {}
  }

  lemma LostNow(w: World, es: seq<Event>, pid: PID, m: Mapping)
    requires es != [] && Held(Run(w, es), pid, m)
    ensures LostAt(w, es, pid, m, |es| - 1) <==>
            Adds(Run(w, es[..|es| - 1]), es[|es| - 1], pid, m) && !Accepts(es[|es| - 1].ok, [m])
  {
    hide Run, Held, Accepts, Adds;
    assert es[..|es|] == es;
  }

  /** The last state but one, when something was lost before. */
  lemma LostHeld(w: World, es: seq<Event>, pid: PID, m: Mapping, k: nat)
    requires es != [] && LostAt(w, es, pid, m, k) && k < |es| - 1
    ensures Held(Run(w, es[..|es| - 1]), pid, m)
  {
    hide Run, Held, Accepts, Adds;
  }

  lemma SomePrefix(m: Mapping) returns (p: Prefix)
    requires ValidMapping(m)
    ensures p in PrefixList(m)
  {
    hide PrefixList;
    p := PrefixAt(m, m.vaddr);
  }

  lemma HeldStep(w: World, e: Event, pid: PID, m: Mapping)
    requires Inv(w) && Legal(w, e) && Held(Step(w, e), pid, m) && !Adds(w, e, pid, m)
    ensures Held(w, pid, m) && (Whole(Step(w, e), pid, m) <==> Whole(w, pid, m))
  {
    hide MapsInv, TableInv, RefsInv, DetachInv, Step, Legal, PrefixList, Held, Adds, ValidMapping, GoodMaps;
    StepInv(w, e);
    HeldValid(Step(w, e), pid, m);
    var p := SomePrefix(m);
    PrefixInside(m, p);
    StepHeld(w, e, pid, m, p);
    forall p | p in PrefixList(m) ensures (pid, p) in Step(w, e).m.table <==> (pid, p) in w.m.table {
      PrefixInside(m, p);
      StepHeld(w, e, pid, m, p);
    }
  }

  lemma LostByThis(w: World, es: seq<Event>, pid: PID, m: Mapping)
    requires es != [] && Held(Run(w, es), pid, m) && !Held(Run(w, es[..|es| - 1]), pid, m)
    ensures Lost(w, es, pid, m) <==> LostAt(w, es, pid, m, |es| - 1)
  {
    hide Held, LostAt, Run;
    if k: nat :| LostAt(w, es, pid, m, k) {
      LostEarlier(w, es, pid, m, k);
      if k < |es| - 1 { LostHeld(w, es, pid, m, k); }
    }
  }

  lemma LostEarlier(w: World, es: seq<Event>, pid: PID, m: Mapping, k: nat)
    requires LostAt(w, es, pid, m, k)
    ensures k < |es|
  {}

  lemma LostSame(w: World, es: seq<Event>, pid: PID, m: Mapping)
    requires es != [] && Held(Run(w, es), pid, m) && !LostAt(w, es, pid, m, |es| - 1)
    ensures Lost(w, es, pid, m) <==> Lost(w, es[..|es| - 1], pid, m)
  {
    hide Held, LostAt, Run;
    var init := es[..|es| - 1];
    if k: nat :| LostAt(w, es, pid, m, k) {
      LostEarlier(w, es, pid, m, k);
      LostBefore(w, es, pid, m, k);
    }
    if k: nat :| LostAt(w, init, pid, m, k) {
      LostEarlier(w, init, pid, m, k);
      LostBefore(w, es, pid, m, k);
    }
  }

  /** After every legal run, nothing of a held mapping is missing exactly when no update failed in the
      installation since which it has been held. */
  lemma {:induction false} RunWhole(w: World, es: seq<Event>, pid: PID, m: Mapping)
    requires Inv(w) && LegalRun(w, es) && !Held(w, pid, m) && Held(Run(w, es), pid, m)
    ensures Whole(Run(w, es), pid, m) <==> !Lost(w, es, pid, m)
    decreases |es|
  {
    hide Step, Legal, Held, Whole, Accepts, LostAt, Lost, MapsInv, TableInv, RefsInv, DetachInv, Adds;
    if es != [] {
      var init, e := es[..|es| - 1], es[|es| - 1];
      LegalPrefix(w, es, |init|);
      RunInv(w, init);
      assert Legal(Run(w, es[..|init|]), e);
      LostNow(w, es, pid, m);
      if Adds(Run(w, init), e, pid, m) {
        AddsWhole(Run(w, init), e, pid, m);
        LostByThis(w, es, pid, m);
      } else {
        HeldStep(Run(w, init), e, pid, m);
        LostSame(w, es, pid, m);
        RunWhole(w, init, pid, m);
      }
    }
  }

  lemma NothingHeld(tracing: bool, pid: PID, m: Mapping)
    ensures !Held(Initial(tracing), pid, m)
  {}

  /** After any run, for every pid that is neither being synchronized nor awaiting cleanup, and
      although only differences were ever applied: each lookup answers with the file and bias of the
      recorded mapping around the address exactly when no update failed in the installation since
      which a recorded mapping has been held. */
  lemma RunLookups(tracing: bool, es: seq<Event>, pid: PID)
    requires LegalRun(Initial(tracing), es)
    requires var w := Run(Initial(tracing), es); Live(w.m, pid) && !Syncing(w, pid)
    ensures var w := Run(Initial(tracing), es);
            LookupsRight(w.m.table, pid, w.m.infos[pid]) <==>
            forall m | m in w.m.infos[pid] :: !Lost(Initial(tracing), es, pid, m)
  {
    hide Run, LegalRun, Step, RefsInv, DetachInv, LookupsRight, GoodMaps, TableOk, SyncOk, LiveTable, Lost,
         PrefixList, Held;
    var w0, w := Initial(tracing), Run(Initial(tracing), es);
    InitialInv(tracing);
    RunInv(w0, es);
    LiveHas(w, pid);
    LookupsRightIffComplete(w.m.table, LiveTable(w), pid);
    forall m | m in w.m.infos[pid] ensures Whole(w, pid, m) <==> !Lost(w0, es, pid, m) {
      SettledHeld(w, pid, m);
      NothingHeld(tracing, pid, m);
      RunWhole(w0, es, pid, m);
    }
  }

  lemma SettledHeld(w: World, pid: PID, m: Mapping)
    requires Live(w.m, pid) && !Syncing(w, pid) && m in w.m.infos[pid]
    ensures Held(w, pid, m)
  {}

  lemma LegalPrefix(w: World, es: seq<Event>, j: nat)
    requires LegalRun(w, es) && j <= |es|
    ensures LegalRun(w, es[..j])
  {
    hide Run, Legal;
    forall k | 0 <= k < j ensures Legal(Run(w, es[..j][..k]), es[..j][k]) {
      assert es[..j][..k] == es[..k];
      assert Legal(Run(w, es[..k]), es[k]);
    }
  }

  // ----- A failed update is not repaired -----

  /** A mapping is delivered as new only when it was not recorded before. */
  ghost predicate FreshAdds(w: World) {
    w.sync.Some? ==> forall n | n in w.sync.value.adds :: n !in w.sync.value.prior
  }

  lemma TakeIsFresh(s: Sync, raw: RawMapping)
    requires SyncOk(s) && Repeated(s, raw).None? && raw.elf.Loaded? && GoodLine(raw, s.mappings)
    ensures FreshMapping(raw) !in s.prior
  {
    hide GoodMaps, SyncFiles, Filter;
    var n := FreshMapping(raw);
    if n in s.prior {
      if n.vaddr in s.keys {
        FoundByStart(s, raw, n);
        assert false;
      } else {
        assert n in s.kept;
        assert n in s.kept + s.adds;
        GoodPermuted(s.kept + s.adds, s.mappings);
        assert false;
      }
    }
  }

  lemma StepFresh(w: World, e: Event)
    requires MapsInv(w) && FreshAdds(w) && Legal(w, e)
    ensures FreshAdds(Step(w, e))
  {
    hide GoodMaps, SyncOk, Repeated, FreshMapping, Remove, InstallAll, Filter, Retire, Sorted, Exit, Deliver, GoodLine;
    match e
    case Line(raw) =>
      LineFrame(w, raw);
      if w.sync.Some? && Step(w, e).sync.value != w.sync.value && Repeated(w.sync.value, raw).None? {
        TakeIsFresh(w.sync.value, raw);
      }
      if w.sync.Some? && Repeated(w.sync.value, raw).Some? {
        RepeatedIs(w.sync.value, raw, Repeated(w.sync.value, raw).value);
      }
    case Prune(interest) =>
      if w.sync.Some? && w.sync.value.phase.Reading? { PruneFrame(w, interest); }
    case Gone(t) => ExitSync(if w.sync.Some? then Abandon(w) else w, if w.sync.Some? then w.sync.value.pid else 0, t);
    case Died(pid, t) => ExitSync(w, pid, t);
    case _ =>
  }

  /** So in every state that a legal run reaches. */
  lemma {:induction false} ReachableFresh(tracing: bool, es: seq<Event>)
    requires LegalRun(Initial(tracing), es)
    ensures FreshAdds(Run(Initial(tracing), es))
    decreases |es|
  {
    hide Step, Legal, FreshAdds, MapsInv, TableInv, RefsInv, DetachInv;
    var w0 := Initial(tracing);
    InitialInv(tracing);
    if es == [] {
      assert FreshAdds(w0) by { NoSyncFresh(w0); }
    } else {
      var init := es[..|es| - 1];
      LegalPrefix(w0, es, |init|);
      ReachableFresh(tracing, init);
      RunInv(w0, init);
      assert Legal(Run(w0, es[..|init|]), es[|init|]);
      StepFresh(Run(w0, init), es[|init|]);
    }
  }

  lemma NoSyncFresh(w: World)
    requires w.sync.None?
    ensures FreshAdds(w)
  {}

  lemma ExitSync(w: World, pid: PID, t: KTime)
    ensures Exit(w, pid, t).sync == w.sync
  {
    hide Remove, Retire, Unprobe;
    if Live(w.m, pid) {
      hide Exit;
      ExitFrame(w, pid, t);
    }
  }

  lemma NotBoth(s: Sync, m: Mapping, n: Mapping)
    requires GoodMaps(s.kept + s.adds) && m in s.kept && n in s.adds
    ensures m != n && Apart(m, n) && ValidMapping(m) && ValidMapping(n)
  {
    var all := s.kept + s.adds;
    assert m in all && n in all;
    assert multiset(all) == multiset(s.kept) + multiset(s.adds);
    assert multiset(all)[m] <= 1;
  }

  lemma {:induction false} InstallPrefixesOnly(t: Table, pid: PID, ps: seq<Prefix>, e: Entry, ok: Prefix -> bool,
                                               k: (PID, Prefix))
    requires k !in t && (k.0 != pid || k.1 !in ps)
    ensures k !in InstallPrefixes(t, pid, ps, e, ok).0
    decreases |ps|
  {
    if ps != [] && ok(ps[0]) { InstallPrefixesOnly(t[(pid, ps[0]) := e], pid, ps[1..], e, ok, k); }
  }

  lemma {:induction false} InstallAllOnly(t: Table, pid: PID, ms: seq<Mapping>, ok: Prefix -> bool, k: (PID, Prefix))
    requires k !in t && (k.0 != pid || forall n | n in ms :: k.1 !in PrefixList(n))
    ensures k !in InstallAll(t, pid, ms, ok).0
    decreases |ms|
  {
    hide PrefixList;
    if ms != [] {
      InstallAllOnly(t, pid, ms[..|ms| - 1], ok, k);
      var last := ms[|ms| - 1];
      InstallPrefixesOnly(InstallAll(t, pid, ms[..|ms| - 1], ok).0, pid, PrefixList(last), EntryOf(last), ok, k);
    }
  }

  predicate IsRecorded(m: Manager, pid: PID, n: Mapping) { Live(m, pid) && n in m.infos[pid] }

  /** The prefix is missing, unless the mapping is about to be dropped by a synchronization that has
      already installed what replaces it. */
  ghost predicate Missing(w: World, pid: PID, m: Mapping, p: Prefix) {
    (pid, p) !in w.m.table || (Syncing(w, pid) && w.sync.value.phase.Installed? && m !in w.sync.value.kept)
  }

  lemma InstallMissing(w: World, ok: Prefix -> bool, pid: PID, m: Mapping, p: Prefix)
    requires MapsInv(w) && w.sync.Some? && w.sync.value.phase.Pruned? && Missing(w, pid, m, p) && p in PrefixList(m)
    ensures Missing(Step(w, Install(ok)), pid, m, p)
  {
    hide PrefixList, InstallAll, GoodMaps, SyncStale, SyncFiles;
    var s := w.sync.value;
    if s.pid != pid || m in s.kept {
      forall n | n in s.adds && s.pid == pid ensures p !in PrefixList(n) {
        if p in PrefixList(n) {
          NotBoth(s, m, n);
          ApartPrefixes(m, n, p);
        }
      }
      InstallAllOnly(w.m.table, s.pid, s.adds, ok, (pid, p));
    }
  }

  lemma PublishMissing(w: World, pid: PID, m: Mapping, p: Prefix)
    requires MapsInv(w) && FreshAdds(w) && w.sync.Some? && w.sync.value.phase.Installed? && Missing(w, pid, m, p)
    requires IsRecorded(w.m, pid, m) && IsRecorded(Step(w, Publish).m, pid, m)
    ensures (pid, p) !in w.m.table
  {
    hide GoodMaps, SyncStale, SyncFiles, Sorted;
    var s := w.sync.value;
    if s.pid == pid {
      SortKeeps(s.mappings);
      assert m in multiset(Sorted(s.mappings));
      assert m in multiset(s.kept + s.adds);
      assert m in s.kept || m in s.adds;
    }
  }

  lemma StepMissing(w: World, e: Event, pid: PID, m: Mapping, p: Prefix)
    requires MapsInv(w) && FreshAdds(w) && Legal(w, e) && Missing(w, pid, m, p) && p in PrefixList(m) && ValidMapping(m)
    requires IsRecorded(w.m, pid, m) && IsRecorded(Step(w, e).m, pid, m)
    ensures Missing(Step(w, e), pid, m, p)
  {
    hide MapsInv, GoodMaps, PrefixList, InstallAll, Remove, Filter, Retire, Sorted, Exit, Deliver, ValidMapping,
         FreshAdds, IsRecorded;
    PrefixInside(m, p);
    match e
    case Begin(q, dummyOk) => RecordedPid(w.m, pid, m);
    case Line(raw) => LineTableSame(w, raw);
    case Prune(interest) =>
      if w.sync.Some? && w.sync.value.phase.Reading? {
        PruneFrame(w, interest);
        RemoveDeletes(w.m, w.sync.value.pid, Filter(w.sync.value.prior, w.sync.value.keys), {});
      }
    case Install(ok) => if w.sync.Some? && w.sync.value.phase.Pruned? { InstallMissing(w, ok, pid, m, p); }
    case Publish => if w.sync.Some? && w.sync.value.phase.Installed? { PublishMissing(w, pid, m, p); }
    case Gone(t) => if w.sync.Some? { ExitTableSmaller(Abandon(w), w.sync.value.pid, t); }
    case Died(q, t) => ExitTableSmaller(w, q, t);
    case _ =>
  }

  lemma RecordedPid(m: Manager, pid: PID, n: Mapping)
    requires IsRecorded(m, pid, n)
    ensures pid in m.infos && pid !in m.exits
  {}

  lemma LineTableSame(w: World, raw: RawMapping)
    ensures var w' := Step(w, Line(raw));
            && w'.m.table == w.m.table && (w'.sync.Some? <==> w.sync.Some?)
            && (w.sync.Some? && w.sync.value.phase.Installed? ==> w' == w)
            && (w.sync.Some? ==> w'.sync.value.phase == w.sync.value.phase)
  {
    hide Repeated, FreshMapping;
    LineFrame(w, raw);
  }

  lemma ExitTableSmaller(w: World, pid: PID, t: KTime)
    ensures forall k | k in Exit(w, pid, t).m.table :: k in w.m.table
    ensures Exit(w, pid, t).sync == w.sync
  {
    ExitSync(w, pid, t);
    if Live(w.m, pid) {
      hide Exit, Remove;
      ExitFrame(w, pid, t);
      var m0 := w.m.(exits := w.m.exits[pid := t]);
      RemoveDeletes(m0, pid, w.m.infos[pid], {(pid, DUMMY)});
    }
  }

  /** A prefix that is missing for a recorded mapping stays missing as long as the mapping stays
      recorded, over every legal run: synchronizing again does not repair a failed update. */
  lemma {:induction false} FailureStays(w: World, es: seq<Event>, pid: PID, m: Mapping, p: Prefix)
    requires Inv(w) && FreshAdds(w) && LegalRun(w, es) && (pid, p) !in w.m.table && p in PrefixList(m)
    requires forall k | 0 <= k <= |es| :: IsRecorded(Run(w, es[..k]).m, pid, m)
    ensures Inv(Run(w, es)) && FreshAdds(Run(w, es)) && Missing(Run(w, es), pid, m, p)
    ensures !Syncing(Run(w, es), pid) ==> (pid, p) !in Run(w, es).m.table
    decreases |es|
  {
    hide Step, Legal, FreshAdds, PrefixList, IsRecorded, MapsInv, TableInv, RefsInv, DetachInv;
    if es != [] {
      var init, last := es[..|es| - 1], es[|es| - 1];
      LegalPrefix(w, es, |init|);
      forall k | 0 <= k <= |init| ensures IsRecorded(Run(w, init[..k]).m, pid, m) {
        assert init[..k] == es[..k];
        assert IsRecorded(Run(w, es[..k]).m, pid, m);
      }
      FailureStays(w, init, pid, m, p);
      assert es[..|init|] == init && es[..|es|] == es && init[..|init|] == init;
      var before := Run(w, init);
      assert Legal(before, last) && IsRecorded(before.m, pid, m) && IsRecorded(Run(w, es[..|es|]).m, pid, m);
      RecordedValid(before, pid, m);
      StepInv(before, last);
      StepFresh(before, last);
      StepMissing(before, last, pid, m, p);
    }
  }

  lemma RecordedValid(w: World, pid: PID, m: Mapping)
    requires MapsInv(w) && IsRecorded(w.m, pid, m)
    ensures ValidMapping(m)
  {
    hide SyncOk;
  }

  // ----- A run in which an update fails -----

  /** Refuses every update. */
  const Never := (p: Prefix) => false

  const REFUSED := [Begin(1, true), Line(DELIVERED), Prune(None), Install(Never), Publish]

  function Sole(): Mapping { FreshMapping(DELIVERED) }

  lemma PrunedNothing(w: World)
    requires w.sync == Some(Sync(1, [], {}, [], [Sole()], [Sole()], {OID(1, 1)}, Reading))
    ensures var w' := Step(w, Prune(None));
            && w'.sync == Some(Sync(1, [], {}, [], [Sole()], [Sole()], {OID(1, 1)}, Pruned))
            && w'.m.infos == w.m.infos && w'.m.exits == w.m.exits && forall k | k in w'.m.table :: k in w.m.table
  {
    hide Remove, Filter, Step;
    PruneFrame(w, None);
    RemoveFrame(w.m, 1, Filter([], {}), {});
    RemoveDeletes(w.m, 1, Filter([], {}), {});
  }

  lemma InstalledNothing(w: World)
    requires w.sync == Some(Sync(1, [], {}, [], [Sole()], [Sole()], {OID(1, 1)}, Pruned))
    ensures var w' := Step(w, Install(Never));
            && w'.sync == Some(Sync(1, [], {}, [], [Sole()], [Sole()], {OID(1, 1)}, Installed))
            && w'.m == w.m
  {
    hide PrefixList;
    assert [Sole()][..0] == [];
    assert InstallAll(w.m.table, 1, [], Never) == (w.m.table, 0);
    assert InstallAll(w.m.table, 1, [Sole()], Never) == (w.m.table, 0);
  }

  lemma PublishedIt(w: World)
    requires w.sync == Some(Sync(1, [], {}, [], [Sole()], [Sole()], {OID(1, 1)}, Installed))
             && w.m.infos == map[1 := []]
    ensures var w' := Step(w, Publish);
            && w'.sync.None? && w'.m.infos == map[1 := [Sole()]] && w'.m.table == w.m.table && w'.m.exits == w.m.exits
  {
    assert [Sole()][..0] == [];
    assert Sorted([]) == [] && Sorted([Sole()]) == [Sole()];
  }

  lemma MetTable()
    ensures var w := Step(Initial(true), Begin(1, true));
            w.m.exits == map[] && forall k | k in w.m.table :: k == (1, DUMMY)
  {}

  lemma RefusedLegal()
    ensures LegalRun(Initial(true), REFUSED)
  {
    hide Run;
    var w0 := Initial(true);
    assert REFUSED[..0] == [] && REFUSED[..1] == [REFUSED[0]];
    RunThree(w0, REFUSED[0], REFUSED[1], REFUSED[2]);
    Met();
    hide Step, Initial;
    forall k | 0 <= k < |REFUSED| ensures Legal(Run(w0, REFUSED[..k]), REFUSED[k]) {
      if k == 1 {}
    }
  }

  lemma RunFive(w: World, a: Event, b: Event, c: Event, d: Event, e: Event)
    ensures Run(w, [a, b, c, d, e]) == Step(Step(Step(Step(Step(w, a), b), c), d), e)
  {
    hide Step;
    RunThree(w, a, b, c);
    RunAppend(w, [a, b, c], d);
    RunAppend(w, [a, b, c, d], e);
    assert [a, b, c] + [d] == [a, b, c, d] && [a, b, c, d] + [e] == [a, b, c, d, e];
  }

  lemma Unfindable(w: World, pid: PID, m: Mapping)
    requires Inv(w) && Live(w.m, pid) && !Syncing(w, pid) && w.m.infos[pid] == [m]
    requires forall k | k in w.m.table :: k == (pid, DUMMY)
    ensures !LookupsRight(w.m.table, pid, [m])
  {
    hide RefsInv, DetachInv, LookupsRight, TableOk, LiveTable, PrefixList, ValidMapping;
    LiveHas(w, pid);
    LookupsRightIffComplete(w.m.table, LiveTable(w), pid);
    assert m in [m];
    var p := SomePrefix(m);
    PrefixInside(m, p);
    assert (pid, p) !in w.m.table;
  }

  /** A process is met, its one mapping's updates are refused, and the synchronization ends as any other:
      the mapping is recorded, and lookups do not find it. */
  lemma RefusedThenRecorded()
    ensures LegalRun(Initial(true), REFUSED)
    ensures var w := Run(Initial(true), REFUSED);
            && Live(w.m, 1) && !Syncing(w, 1) && w.m.infos == map[1 := [Sole()]]
            && (forall k | k in w.m.table :: k == (1, DUMMY)) && !LookupsRight(w.m.table, 1, w.m.infos[1])
  {
    RefusedLegal();
    hide Step, Initial, LegalRun, Run, FreshMapping, LookupsRight;
    var w0, es := Initial(true), REFUSED;
    RunFive(w0, es[0], es[1], es[2], es[3], es[4]);
    Met();
    MetTable();
    var w1 := Step(w0, es[0]);
    Referenced(w1);
    LineTableSame(w1, DELIVERED);
    LineFrame(w1, DELIVERED);
    PrunedNothing(Step(w1, es[1]));
    InstalledNothing(Step(Step(w1, es[1]), es[2]));
    PublishedIt(Step(Step(Step(w1, es[1]), es[2]), es[3]));
    InitialInv(true);
    RunInv(w0, es);
    Unfindable(Run(w0, es), 1, Sole());
  }
}
