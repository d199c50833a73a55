/** The process manager as the object it is: fields updated in place by methods that carry out the
    steps of the model, with ProcessedUntil between them where the lock is free. */
module ProcessManager {
  import opened Words
  import opened Options
  import opened Lpm
  import opened ProcessModel
  import opened ProcessTable
  import opened ProcessInvariant
  import opened ProcessLedger
  import opened ProcessDetach
  import opened ProcessRuns

  // ----- Counting what is deleted -----

  lemma KeysAppend(pid: PID, ms: seq<Mapping>, m: Mapping)
    ensures Keys(pid, ms + [m]) == Keys(pid, ms) + Keys(pid, [m])
  {
    hide PrefixList;
  }

  /** How many of the keys the table holds. */
  function Count(t: Table, keys: set<(PID, Prefix)>): nat { |t.Keys * keys| }

  lemma SplitMeet<T>(k: set<T>, a: set<T>, b: set<T>)
    ensures |k * (a + b)| == |k * a| + |(k - a) * b|
  {
    var x, y := k * a, (k - a) * b;
    assert k * (a + b) == x + y;
    assert x !! y;
  }

  lemma DeletedInTurn(t: Table, a: set<(PID, Prefix)>, b: set<(PID, Prefix)>)
    ensures Count(t, a + b) == Count(t, a) + Count(t - a, b)
    ensures t - (a + b) == (t - a) - b
  {
    SplitMeet(t.Keys, a, b);
    assert (t - a).Keys == t.Keys - a;
  }

  lemma CountOne(t: Table, k: (PID, Prefix))
    ensures Count(t, {k}) == if k in t then 1 else 0
  {
    assert t.Keys * {k} == if k in t then {k} else {};
  }

  lemma NothingToDo(t: Table)
    ensures Count(t, {}) == 0 && t - {} == t
  {}

  lemma ReleasedInTurn(ms: seq<Mapping>, m: Mapping)
    ensures Files(Releasable(ms + [m])) == Files(Releasable(ms)) + Files(Releasable([m]))
  {
    assert (ms + [m])[..|ms|] == ms && [m][..0] == [];
    assert Releasable([m]) == if m.End() <= m.vaddr then [] else [m];
    assert [] + [m] == [m];
    FilesAppend([], m);
    FilesAppend(Releasable(ms), m);
  }

  lemma KeysOf(pid: PID, m: Mapping)
    ensures Keys(pid, [m]) == set p | p in PrefixList(m) :: (pid, p)
  {
    hide PrefixList;
    assert m in [m];
  }

  lemma ReleasedOf(m: Mapping)
    ensures Files(Releasable([m])) == if m.End() <= m.vaddr then multiset{} else multiset{m.frame.file}
  {
    hide Wrap;
    assert [m][..0] == [] && [] + [m] == [m];
    FilesAppend([], m);
  }

  /** Deleting in turn comes to the model's removal at once. */
  lemma RemovedAtOnce(m: Manager, pid: PID, ms: seq<Mapping>, extra: set<(PID, Prefix)>, keys: set<(PID, Prefix)>,
                      deleted: nat)
    requires keys == Keys(pid, ms) + extra && deleted == Count(m.table, keys)
    ensures Remove(m, pid, ms, extra) ==
            m.(table := m.table - keys, refs := m.refs - Files(Releasable(ms)),
               size := m.size - if m.size < deleted then m.size else deleted)
  {
    hide Keys, Files, Releasable;
  }

  // ----- Old mappings by start address -----

  ghost predicate ByStart(prior: seq<Mapping>, byStart: map<Word, Mapping>) {
    forall v | v in byStart :: byStart[v] in prior && byStart[v].vaddr == v
  }

  /** Removing one stale mapping leaves the rest to be removed. */
  lemma StaleInTurn(pid: PID, prior: seq<Mapping>, keys: set<Word>, m: Mapping, t: Table, refs: multiset<FileID>)
    requires GoodMaps(prior) && m in prior && m.vaddr in keys
    ensures var all, rest := Filter(prior, keys), Filter(prior, keys - {m.vaddr});
            && t - Keys(pid, all) == (t - Keys(pid, [m])) - Keys(pid, rest)
            && Count(t, Keys(pid, all)) == Count(t, Keys(pid, [m])) + Count(t - Keys(pid, [m]), Keys(pid, rest))
            && refs - Files(all) == (refs - Files(Releasable([m]))) - Files(rest)
  {
    hide GoodMaps, PrefixList, Files, Filter, Keys, Count, Releasable;
    GoodValid(prior, m);
    EndIsPlain(m);
    ReleasedOf(m);
    FilterRemove(prior, keys, m);
    forall n ensures n in Filter(prior, keys) <==> n in Filter(prior, keys - {m.vaddr}) || n == m {
      FilterElements(prior, keys, n);
      FilterElements(prior, keys - {m.vaddr}, n);
      if n in prior && n.vaddr == m.vaddr { SameStart(prior, n, m); }
    }
    SplitKeys(pid, Filter(prior, keys), Filter(prior, keys - {m.vaddr}), m);
    DeletedInTurn(t, Keys(pid, [m]), Keys(pid, Filter(prior, keys - {m.vaddr})));
  }

  lemma SplitKeys(pid: PID, a: seq<Mapping>, b: seq<Mapping>, m: Mapping)
    requires forall n :: n in a <==> n in b || n == m
    ensures Keys(pid, a) == Keys(pid, [m]) + Keys(pid, b)
  {
    hide PrefixList;
    assert m in [m];
  }

  lemma NothingStale(pid: PID, prior: seq<Mapping>, t: Table, refs: multiset<FileID>)
    ensures var none := Filter(prior, {});
            t - Keys(pid, none) == t && Count(t, Keys(pid, none)) == 0 && refs - Files(none) == refs
  {
    var none := Filter(prior, {});
    if none != [] { FilterElements(prior, {}, none[0]); }
    assert Keys(pid, []) == {} && Files([]) == multiset{};
  }

  lemma NotRepeated(s: Sync, raw: RawMapping)
    ensures raw.vaddr !in s.keys ==> Repeated(s, raw) == None
  {}

  lemma AllStale(prior: seq<Mapping>, keys: set<Word>)
    requires GoodMaps(prior)
    ensures Releasable(Filter(prior, keys)) == Filter(prior, keys)
  {
    hide GoodMaps, Filter, Releasable;
    forall m | m in Filter(prior, keys) ensures ValidMapping(m) {
      FilterElements(prior, keys, m);
      GoodValid(prior, m);
    }
    AllReleasable(Filter(prior, keys));
  }

  lemma NoneRemoved(pid: PID)
    ensures Keys(pid, []) == {} && Files(Releasable([])) == multiset{}
  {}

  // ----- Interpreter instances -----

  ghost predicate Injective(mine: map<OID, Instance>) {
    forall o, p | o in mine && p in mine && mine[o] == mine[p] :: o == p
  }

  ghost predicate Separate(interps: map<PID, map<OID, Instance>>) {
    forall pid, o, q, p | pid in interps && o in interps[pid] && q in interps && p in interps[q] ::
      interps[pid][o] == interps[q][p] ==> pid == q && o == p
  }

  lemma InterpsSeparate(w: World)
    requires InterpsInv(w)
    ensures Separate(w.m.interps) && forall pid | pid in w.m.interps :: Injective(w.m.interps[pid])
  {}

  function Values(mine: map<OID, Instance>, os: set<OID>): set<Instance> {
    set o | o in mine && o in os :: mine[o]
  }

  lemma OneMore(mine: map<OID, Instance>, gone: set<OID>, o: OID)
    requires Injective(mine) && o in mine && o !in gone
    ensures multiset(Values(mine, gone + {o})) == multiset(Values(mine, gone)) + multiset{mine[o]}
  {
    assert Values(mine, gone + {o}) == Values(mine, gone) + {mine[o]};
    assert mine[o] !in Values(mine, gone);
  }

  lemma InvSeparate(w: World)
    requires Inv(w)
    ensures Separate(w.m.interps) && forall pid | pid in w.m.interps :: Injective(w.m.interps[pid])
  {
    hide MapsInv, TableInv, RefsInv, Separate, Injective, InterpsInv, ProbesInv;
    InterpsSeparate(w);
  }

  lemma NoValues(mine: map<OID, Instance>)
    ensures Values(mine, {}) == {}
  {}

  function Holding(interps: map<PID, map<OID, Instance>>, pid: PID): multiset<Instance> {
    if pid in interps then multiset(Values(interps[pid], interps[pid].Keys)) else multiset{}
  }

  lemma InstancesOf(m: Manager, due: set<PID>, pid: PID)
    requires Separate(m.interps) && pid !in due
    ensures multiset(Instances(m, due + {pid})) == multiset(Instances(m, due)) + Holding(m.interps - due, pid)
  {
    var mine := if pid in m.interps then Values(m.interps[pid], m.interps[pid].Keys) else {};
    assert Instances(m, due + {pid}) == Instances(m, due) + mine;
    assert Instances(m, due) !! mine;
  }

  lemma NoneDropped(m: Manager, t: KTime)
    ensures Due(m.exits - m.exits.Keys, t) == {} && Instances(m, {}) == {}
    ensures m.infos - {} == m.infos && m.exits - {} == m.exits && m.interps - {} == m.interps
  {}

  lemma DueInTurn(exits: map<PID, KTime>, todo: set<PID>, pid: PID, t: KTime)
    requires pid in todo && todo <= exits.Keys
    ensures pid !in Due(exits - todo, t)
    ensures Due(exits - (todo - {pid}), t) == Due(exits - todo, t) + if exits[pid] <= t then {pid} else {}
  {}

  // ----- Scripts of what happens around one synchronization -----

  datatype ReadEnd = Complete(interest: Option<FileID>) | Denied | Vanished(t: KTime)

  /** ProcessedUntil calls that find the lock free. */
  function Polls(ts: seq<KTime>): seq<Event> { seq(|ts|, i requires 0 <= i < |ts| => ProcessedUntil(ts[i])) }

  predicate IsReading(e: Event) { e.Line? || e.ProcessedUntil? }

  lemma {:induction false} RunConcat(w: World, a: seq<Event>, b: seq<Event>)
    ensures Run(w, a + b) == Run(Run(w, a), b)
    decreases |b|
  {
    hide Step;
    if b == [] {
      assert a + b == a;
    } else {
      RunConcat(w, a, b[..|b| - 1]);
      assert a + b == (a + b[..|b| - 1]) + [b[|b| - 1]];
      RunAppend(w, a + b[..|b| - 1], b[|b| - 1]);
    }
  }

  lemma RunOne(w: World, e: Event)
    ensures Run(w, [e]) == Step(w, e)
  {
    hide Step;
    assert [e][..0] == [];
    assert Run(w, []) == w;
  }

  /** What follows the maps read, by how it ended. */
  function Ending(end: ReadEnd, pruned: seq<KTime>, ok: Prefix -> bool, installed: seq<KTime>): seq<Event> {
    match end
    case Denied => [GiveUp]
    case Vanished(t) => [Gone(t)]
    case Complete(interest) => [Prune(interest)] + Polls(pruned) + [Install(ok)] + Polls(installed) + [Publish]
  }

  function Script(pid: PID, dummyOk: bool, reading: seq<Event>, end: ReadEnd, pruned: seq<KTime>, ok: Prefix -> bool,
                  installed: seq<KTime>): seq<Event>
  {
    [Begin(pid, dummyOk)] + reading + Ending(end, pruned, ok, installed)
  }

  lemma LegalParts(w: World, a: seq<Event>, b: seq<Event>)
    requires LegalRun(w, a + b)
    ensures LegalRun(w, a) && LegalRun(Run(w, a), b)
  {
    hide Run, Legal;
    forall k | 0 <= k < |a| ensures Legal(Run(w, a[..k]), a[k]) {
      assert (a + b)[..k] == a[..k] && (a + b)[k] == a[k];
      assert Legal(Run(w, (a + b)[..k]), (a + b)[k]);
    }
    forall k | 0 <= k < |b| ensures Legal(Run(Run(w, a), b[..k]), b[k]) {
      assert (a + b)[..|a| + k] == a + b[..k] && (a + b)[|a| + k] == b[k];
      assert Legal(Run(w, (a + b)[..|a| + k]), (a + b)[|a| + k]);
      RunConcat(w, a, b[..k]);
    }
  }

  lemma PrefixInv(w: World, a: seq<Event>, b: seq<Event>)
    requires Inv(w) && LegalRun(w, a + b)
    ensures Inv(Run(w, a))
  {
    hide Inv, Run, LegalRun;
    LegalParts(w, a, b);
    RunInv(w, a);
  }

  lemma NextInv(w: World, es: seq<Event>, more: seq<Event>, i: nat)
    requires Inv(w) && LegalRun(w, es + more) && i < |more|
    ensures Inv(Run(w, es + more[..i + 1]))
  {
    hide Inv, Run, LegalRun;
    assert es + more == (es + more[..i + 1]) + more[i + 1..];
    PrefixInv(w, es + more[..i + 1], more[i + 1..]);
  }

  lemma InvGood(w: World)
    requires Inv(w) && w.sync.Some?
    ensures GoodMaps(w.sync.value.prior)
  {
    hide TableInv, RefsInv, DetachInv, GoodMaps;
  }

  /** A line, by what it turns out to be. */
  lemma LineSteps(w: World, s: Sync, raw: RawMapping)
    requires w.sync == Some(s) && s.phase.Reading?
    ensures !raw.needed ==> Step(w, Line(raw)) == w
    ensures raw.needed && Repeated(s, raw).Some? ==>
              Step(w, Line(raw)) == w.(sync := Some(Keep(s, raw.oid, Repeated(s, raw).value)))
    ensures raw.needed && Repeated(s, raw).None? && raw.elf.Unusable? ==> Step(w, Line(raw)) == w
    ensures raw.needed && Repeated(s, raw).None? && raw.elf.Loaded? ==>
              Step(w, Line(raw)) == Acquire(w, s.pid, raw).(sync := Some(Take(s, raw.oid, FreshMapping(raw))))
  {
    hide Repeated, AttachInterpreter, AttachProbes, Wrap;
    if Repeated(s, raw).Some? { RepeatedIs(s, raw, Repeated(s, raw).value); }
  }

  /** Everything newFrameMapping takes hold of for a usable file. */
  function Acquire(w: World, pid: PID, raw: RawMapping): World
    requires raw.elf.Loaded?
  {
    var w1 := w.(m := w.m.(refs := w.m.refs + multiset{raw.elf.file}));
    AttachProbes(AttachInterpreter(w1, pid, raw.oid, raw.elf.attach), pid, raw.elf.probes)
  }

  lemma AcquireAside(w: World, pid: PID, raw: RawMapping, sync: Option<Sync>)
    requires raw.elf.Loaded?
    ensures Acquire(w.(sync := sync), pid, raw) == Acquire(w, pid, raw).(sync := sync)
  {}

  lemma EndsInv(w: World, e: Event)
    requires Inv(w) && LegalRun(w, [e])
    ensures Inv(Run(w, [e])) && Run(w, [e]) == Step(w, e)
  {
    hide Inv, Run, LegalRun, Step;
    RunInv(w, [e]);
    RunOne(w, e);
  }

  lemma GivesUp(w: World)
    requires Inv(w) && w.sync.Some? && w.sync.value.phase.Reading?
    ensures Step(w, GiveUp) == Abandon(w) && Inv(Abandon(w))
  {
    hide Inv;
    StepInv(w, GiveUp);
  }

  lemma RunNone(w: World)
    ensures Run(w, []) == w
  {}

  lemma ExitEffect(w: World, pid: PID, t: KTime)
    ensures var w' := Exit(w, pid, t);
            w'.m.infos == w.m.infos && w'.m.exits == if Live(w.m, pid) then w.m.exits[pid := t] else w.m.exits
  {
    hide Remove, Retire, Unprobe;
    if Live(w.m, pid) {
      hide Exit;
      ExitFrame(w, pid, t);
      RemoveFrame(w.m.(exits := w.m.exits[pid := t]), pid, w.m.infos[pid], {(pid, DUMMY)});
    }
  }

  lemma DiedIsExit(w: World, pid: PID, t: KTime)
    requires w.sync.None?
    ensures Step(w, Died(pid, t)) == Exit(w, pid, t)
  {
    hide Exit;
  }

  lemma ExitStep(w: World, pid: PID, t: KTime)
    requires Inv(w) && w.sync.None?
    ensures Step(w, Died(pid, t)) == Exit(w, pid, t) && Inv(Exit(w, pid, t)) && Exit(w, pid, t).m.infos == w.m.infos
    ensures (forall q | q in w.m.exits :: q in Exit(w, pid, t).m.exits)
            && (pid in w.m.infos ==> pid in Exit(w, pid, t).m.exits)
  {
    hide Inv, Step, Exit;
    StepInv(w, Died(pid, t));
    DiedIsExit(w, pid, t);
    ExitEffect(w, pid, t);
  }

  /** Recorded only as awaiting cleanup, if at all. */
  predicate Settled(w: World, pid: PID) { pid in w.m.infos ==> pid in w.m.exits }

  predicate IsCleanup(e: Event, live: PID -> bool) { e.ProcessedUntil? || (e.Died? && !live(e.pid)) }

  lemma UnpackSettled(w: World, pid: PID)
    ensures Settled(w, pid) && pid in w.m.infos ==> pid in w.m.exits
  {}

  lemma StepSettled(w: World, e: Event, q: PID)
    requires w.sync.None? && (e.Died? || e.ProcessedUntil?)
    ensures Step(w, e).sync.None? && Step(w, e).m.infos.Keys <= w.m.infos.Keys
    ensures Settled(w, q) || e == Died(q, if e.Died? then e.t else 0) ==> Settled(Step(w, e), q)
  {
    hide Step, Exit, Instances;
    if e.Died? {
      DiedIsExit(w, e.pid, e.t);
      ExitEffect(w, e.pid, e.t);
      ExitFrameSync(w, e.pid, e.t);
    } else {
      StepForgets(w, e.t);
    }
  }

  lemma ExitFrameSync(w: World, pid: PID, t: KTime)
    ensures Exit(w, pid, t).sync == w.sync
  {
    hide Remove, Retire, Unprobe;
    if Live(w.m, pid) {
      hide Exit;
      ExitFrame(w, pid, t);
    }
  }

  lemma {:induction false} StaysSettled(w: World, es: seq<Event>, q: PID, live: PID -> bool)
    requires w.sync.None? && forall e | e in es :: IsCleanup(e, live)
    ensures Run(w, es).sync.None? && Run(w, es).m.infos.Keys <= w.m.infos.Keys
    ensures Settled(w, q) ==> Settled(Run(w, es), q)
    decreases |es|
  {
    hide Step, Settled;
    if es != [] {
      assert es[|es| - 1] in es && forall e | e in es[..|es| - 1] :: e in es;
      assert IsCleanup(es[|es| - 1], live);
      StaysSettled(w, es[..|es| - 1], q, live);
      StepSettled(Run(w, es[..|es| - 1]), es[|es| - 1], q);
    }
  }

  lemma CleanupSettles(w: World, pid: PID, t: KTime, ts: seq<KTime>, live: PID -> bool)
    requires w.sync.None? && !live(pid)
    ensures var more := [Died(pid, t)] + Polls(ts);
            && (forall e | e in more :: IsCleanup(e, live)) && Settled(Run(w, more), pid)
            && Run(w, more).sync.None? && Run(w, more).m.infos.Keys <= w.m.infos.Keys
  {
    hide Step, Settled, Run;
    StepSettled(w, Died(pid, t), pid);
    RunOne(w, Died(pid, t));
    RunConcat(w, [Died(pid, t)], Polls(ts));
    StaysSettled(Step(w, Died(pid, t)), Polls(ts), pid, live);
  }

  lemma GoesAway(w: World, t: KTime)
    requires w.sync.Some? && w.sync.value.phase.Reading?
    ensures Step(w, Gone(t)) == Exit(Abandon(w), w.sync.value.pid, t)
  {
    hide Exit;
  }

  lemma InvLive(w: World)
    requires Inv(w) && w.sync.Some?
    ensures w.sync.value.pid in w.m.infos
  {
    hide TableInv, RefsInv, DetachInv, GoodMaps, SyncOk;
  }

  lemma SyncAside(w: World, pid: PID, valid: set<OID>, sync: Option<Sync>)
    ensures Retire(w.(sync := sync), pid, valid) == Retire(w, pid, valid).(sync := sync)
  {}

  lemma StepForgets(w: World, t: KTime)
    ensures Step(w, ProcessedUntil(t)) == Forget(w, t)
  {}

  class ProcessManager {
    const tracing: bool
    var infos: map<PID, seq<Mapping>>
    var exits: map<PID, KTime>
    var interps: map<PID, map<OID, Instance>>
    var probes: map<PID, set<Attacher>>
    var size: nat
    var table: Table
    var refs: multiset<FileID>
    /** What has been attached and detached so far. */
    var log: History

    function State(): Manager
      reads this
    {
      Manager(tracing, infos, exits, interps, probes, size, table, refs)
    }

    function View(sync: Option<Sync>): World
      reads this
    {
      World(State(), log, sync)
    }

    constructor (tracing: bool)
      ensures View(None) == Initial(tracing)
    {
      this.tracing := tracing;
      infos, exits, interps, probes := map[], map[], map[], map[];
      size, table, refs := 0, map[], multiset{};
      log := History([], multiset{}, [], map[], {}, multiset{}, multiset{});
    }

    // ----- The eBPF table and the references -----

    method ProcessNewMapping(pid: PID, m: Mapping, ok: Prefix -> bool) returns (added: nat)
      modifies this`table
      ensures (table, added) == InstallPrefixes(old(table), pid, PrefixList(m), EntryOf(m), ok)
    {
      hide Wrap, PrefixesOf, Blocks, EntryOf;
      added := 0;
      var r := CalculatePrefixList(m.vaddr, m.End());
      if r.EmptyRange? { return; }
      var prefixes, e := r.list, EntryOf(m);
      assert prefixes[0..] == prefixes;
      while added < |prefixes|
        invariant 0 <= added <= |prefixes|
        invariant var rest := InstallPrefixes(table, pid, prefixes[added..], e, ok);
                  InstallPrefixes(old(table), pid, prefixes, e, ok) == (rest.0, rest.1 + added)
      {
        if !ok(prefixes[added]) { break; }
        assert prefixes[added..][1..] == prefixes[added + 1..];
        table := table[(pid, prefixes[added]) := e];
        added := added + 1;
      }
    }

    method ProcessRemovedMapping(pid: PID, m: Mapping) returns (deleted: nat)
      modifies this`table, this`refs
      ensures table == old(table) - Keys(pid, [m]) && deleted == Count(old(table), Keys(pid, [m]))
      ensures refs == old(refs) - Files(Releasable([m]))
    {
      hide Keys, Files, Releasable, Blocks, PrefixesOf, Wrap;
      KeysOf(pid, m);
      ReleasedOf(m);
      var r := CalculatePrefixList(m.vaddr, m.End());
      assert PrefixList(m) == if r.EmptyRange? then [] else r.list;
      hide PrefixList;
      if r.EmptyRange? {
        assert Keys(pid, [m]) == {};
        assert old(table) - {} == table;
        return 0;
      }
      var keys := set p | p in r.list :: (pid, p);
      deleted := |table.Keys * keys|;
      table := table - keys;
      refs := refs - multiset{m.frame.file};
    }

    /** Deletes the stale mappings, in whatever order the map yields them. */
    method DeleteStale(pid: PID, ghost prior: seq<Mapping>, stale: map<Word, Mapping>) returns (numChanges: nat)
      requires GoodMaps(prior) && ByStart(prior, stale)
      modifies this`table, this`refs
      ensures var all := Filter(prior, stale.Keys);
              && table == old(table) - Keys(pid, all) && refs == old(refs) - Files(all)
              && numChanges == Count(old(table), Keys(pid, all))
    {
      hide GoodMaps, Keys, Files, Filter, Releasable, Count;
      var left := stale;
      numChanges := 0;
      ghost var all := Filter(prior, stale.Keys);
      while left != map[]
        invariant ByStart(prior, left)
        invariant var rest := Filter(prior, left.Keys);
                  && table - Keys(pid, rest) == old(table) - Keys(pid, all)
                  && refs - Files(rest) == old(refs) - Files(all)
                  && numChanges + Count(table, Keys(pid, rest)) == Count(old(table), Keys(pid, all))
        decreases |left|
      {
        var v :| v in left;
        StaleInTurn(pid, prior, left.Keys, left[v], table, refs);
        assert (left - {v}).Keys == left.Keys - {v};
        var deleted := ProcessRemovedMapping(pid, left[v]);
        numChanges := numChanges + deleted;
        left := left - {v};
      }
      NothingStale(pid, prior, table, refs);
      assert left.Keys == {};
    }

    method RemoveStale(pid: PID, ghost prior: seq<Mapping>, stale: map<Word, Mapping>)
      requires GoodMaps(prior) && ByStart(prior, stale)
      modifies this`table, this`refs, this`size
      ensures State() == Remove(old(State()), pid, Filter(prior, stale.Keys), {})
    {
      hide GoodMaps, Keys, Files, Filter, Releasable, Remove, ByStart, Count;
      ghost var all := Filter(prior, stale.Keys);
      var numChanges := DeleteStale(pid, prior, stale);
      AllStale(prior, stale.Keys);
      assert Keys(pid, all) + {} == Keys(pid, all);
      RemovedAtOnce(old(State()), pid, all, {}, Keys(pid, all), numChanges);
      size := size - if size < numChanges then size else numChanges;
    }

    // ----- Interpreters -----

    /** Detaches the instances whose file is not to be kept. */
    method Detach(mine: map<OID, Instance>, keep: set<OID>) returns (left: map<OID, Instance>)
      requires Injective(mine)
      modifies this`log
      ensures left == map o | o in mine && o in keep :: mine[o]
      ensures log == old(log).(detached := old(log).detached + multiset(Values(mine, mine.Keys - keep)))
    {
      hide Injective, Values;
      left := mine;
      var todo := mine.Keys;
      ghost var gone: set<OID> := {};
      NoValues(mine);
      while todo != {}
        invariant todo <= mine.Keys && gone == (mine.Keys - todo) - keep
        invariant left == mine - gone
        invariant log == old(log).(detached := old(log).detached + multiset(Values(mine, gone)))
      {
        var o :| o in todo;
        todo := todo - {o};
        if o !in keep {
          OneMore(mine, gone, o);
          log := log.(detached := log.detached + multiset{mine[o]});
          left := left - {o};
          gone := gone + {o};
        }
      }
      assert gone == mine.Keys - keep;
    }

    method ProcessRemovedInterpreters(pid: PID, valid: set<OID>)
      requires pid in interps ==> Injective(interps[pid])
      modifies this`interps, this`log
      ensures View(None) == Retire(old(View(None)), pid, valid)
    {
      hide Injective;
      if !tracing || pid !in interps { return; }
      var mine := interps[pid];
      var left := Detach(mine, valid);
      interps := interps[pid := left];
      if left == map[] { interps := interps - {pid}; }
      assert left == map[] ==> interps == old(interps) - {pid};
      assert Values(mine, mine.Keys - valid) == set o | o in mine && o !in valid :: mine[o];
    }

    // ----- Exits -----

    method ProcessPIDExit(pid: PID, exitTime: KTime)
      requires Inv(View(None))
      modifies this
      ensures View(None) == Exit(old(View(None)), pid, exitTime)
    {
      hide Inv, Injective, Separate, Remove, Retire;
      if pid !in infos || pid in exits { return; }
      InvSeparate(View(None));
      RemoveExited(pid, exitTime);
      ghost var w1 := View(None);
      ProcessRemovedInterpreters(pid, {});
      ghost var w2 := View(None);
      DetachProbes(pid);
      assert w1 == old(View(None)).(m := w1.m);
    }

    /** Every recorded pid that is no longer running ends up awaiting cleanup, or forgotten when
        ProcessedUntil gets the lock between two exits. */
    method CleanupPIDs(live: PID -> bool, at: PID -> KTime, polls: nat -> seq<KTime>) returns (ghost es: seq<Event>)
      requires Inv(View(None))
      modifies this
      ensures Inv(View(None)) && View(None) == Run(old(View(None)), es)
      ensures forall e | e in es :: IsCleanup(e, live)
      ensures infos.Keys <= old(infos).Keys && forall pid | pid in infos && !live(pid) :: pid in exits
    {
      hide Inv, Run, Step, IsCleanup, Settled, Polls;
      ghost var w0 := View(None);
      var deadPids := CollectDead(live);
      es := [];
      RunNone(w0);
      for i := 0 to |deadPids|
        invariant Inv(View(None)) && View(None) == Run(w0, es)
        invariant infos.Keys <= old(infos).Keys && forall k | 0 <= k < i :: Settled(View(None), deadPids[k])
        invariant forall e | e in es :: IsCleanup(e, live)
      {
        var pid, t, ts := deadPids[i], at(deadPids[i]), polls(i);
        ghost var w, more := View(None), [Died(pid, t)] + Polls(ts);
        ExitAndPoll(pid, t, ts);
        RunConcat(w0, es, more);
        CleanupSettles(w, pid, t, ts, live);
        forall k | 0 <= k < i ensures Settled(View(None), deadPids[k]) { StaysSettled(w, more, deadPids[k], live); }
        es := es + more;
      }
      forall pid | pid in infos && !live(pid) ensures pid in exits { UnpackSettled(View(None), pid); }
    }

    /** One exit, and what gets the lock after it. */
    method ExitAndPoll(pid: PID, t: KTime, ts: seq<KTime>)
      requires Inv(View(None))
      modifies this
      ensures Inv(View(None)) && View(None) == Run(old(View(None)), [Died(pid, t)] + Polls(ts))
    {
      hide Inv, Run, Exit, Step, Polls;
      ghost var w := View(None);
      ExitStep(w, pid, t);
      RunOne(w, Died(pid, t));
      ProcessPIDExit(pid, t);
      Poll(ts, None, w, [Died(pid, t)]);
    }

    method CollectDead(live: PID -> bool) returns (deadPids: seq<PID>)
      ensures forall pid :: pid in deadPids <==> pid in infos && !live(pid)
    {
      deadPids := [];
      var todo := infos.Keys;
      while todo != {}
        invariant todo <= infos.Keys
        invariant forall pid :: pid in deadPids <==> pid in infos.Keys - todo && !live(pid)
      {
        var pid :| pid in todo;
        todo := todo - {pid};
        if !live(pid) { deadPids := deadPids + [pid]; }
      }
    }

    method DetachProbes(pid: PID)
      modifies this`probes, this`log
      ensures View(None) == Unprobe(old(View(None)), pid)
    {
      if pid in probes && pid in log.life {
        log := log.(unprobed := log.unprobed + multiset(set a | a in probes[pid] :: (log.life[pid], a)));
      }
      probes := probes - {pid};
    }

    method DeleteMappings(pid: PID, ms: seq<Mapping>) returns (deleted: nat)
      modifies this`table, this`refs
      ensures table == old(table) - Keys(pid, ms) && deleted == Count(old(table), Keys(pid, ms))
      ensures refs == old(refs) - Files(Releasable(ms))
    {
      hide Keys, Files, Releasable, Count;
      deleted := 0;
      NoneRemoved(pid);
      NothingToDo(table);
      assert ms[..0] == [];
      for i := 0 to |ms|
        invariant table == old(table) - Keys(pid, ms[..i]) && deleted == Count(old(table), Keys(pid, ms[..i]))
        invariant refs == old(refs) - Files(Releasable(ms[..i]))
      {
        assert ms[..i + 1] == ms[..i] + [ms[i]];
        KeysAppend(pid, ms[..i], ms[i]);
        ReleasedInTurn(ms[..i], ms[i]);
        DeletedInTurn(old(table), Keys(pid, ms[..i]), Keys(pid, [ms[i]]));
        var d := ProcessRemovedMapping(pid, ms[i]);
        deleted := deleted + d;
      }
      assert ms[..|ms|] == ms;
    }

    method RemoveExited(pid: PID, exitTime: KTime)
      requires pid in infos && pid !in exits
      modifies this`exits, this`table, this`refs, this`size
      ensures State() == Remove(old(State()).(exits := old(exits)[pid := exitTime]), pid, infos[pid], {(pid, DUMMY)})
    {
      hide Keys, Files, Releasable, Remove, Count;
      exits := exits[pid := exitTime];
      ghost var dummy, m0 := {(pid, DUMMY)}, State();
      var deleted := if (pid, DUMMY) in table then 1 else 0;
      CountOne(table, (pid, DUMMY));
      table := table - {(pid, DUMMY)};
      var more := DeleteMappings(pid, infos[pid]);
      deleted := deleted + more;
      DeletedInTurn(old(table), dummy, Keys(pid, infos[pid]));
      assert dummy + Keys(pid, infos[pid]) == Keys(pid, infos[pid]) + dummy;
      RemovedAtOnce(m0, pid, infos[pid], dummy, dummy + Keys(pid, infos[pid]), deleted);
      size := size - if size < deleted then size else deleted;
    }

    /** Drops all that is known of an exited pid. */
    method DropExited(pid: PID)
      requires pid in interps ==> Injective(interps[pid])
      modifies this`infos, this`exits, this`interps, this`log
      ensures infos == old(infos) - {pid} && exits == old(exits) - {pid} && interps == old(interps) - {pid}
      ensures log == old(log).(detached := old(log).detached + Holding(old(interps), pid))
    {
      hide Injective, Values;
      infos := infos - {pid};
      if pid in interps {
        var mine := interps[pid];
        var _ := Detach(mine, {});
        assert mine.Keys - {} == mine.Keys;
      }
      interps, exits := interps - {pid}, exits - {pid};
    }

    method ProcessedUntil(t: KTime, ghost sync: Option<Sync>)
      requires Separate(interps) && forall pid | pid in interps :: Injective(interps[pid])
      modifies this`infos, this`exits, this`interps, this`log
      ensures View(sync) == Forget(old(View(sync)), t)
    {
      hide Separate, Injective, Instances, Holding, Due;
      var todo := exits.Keys;
      ghost var due, m0 := {}, State();
      NoneDropped(m0, t);
      while todo != {}
        invariant todo <= m0.exits.Keys && due == Due(m0.exits - todo, t)
        invariant infos == m0.infos - due && exits == m0.exits - due && interps == m0.interps - due
        invariant log == old(log).(detached := old(log).detached + multiset(Instances(m0, due)))
      {
        var pid :| pid in todo;
        DueInTurn(m0.exits, todo, pid, t);
        todo := todo - {pid};
        if exits[pid] <= t {
          InstancesOf(m0, due, pid);
          DropExited(pid);
          due := due + {pid};
        }
      }
      assert m0.exits - {} == m0.exits;
    }

    method Poll(ts: seq<KTime>, ghost sync: Option<Sync>, ghost w0: World, ghost es: seq<Event>)
      requires Inv(View(sync)) && View(sync) == Run(w0, es)
      modifies this`infos, this`exits, this`interps, this`log
      ensures Inv(View(sync)) && View(sync) == Run(w0, es + Polls(ts))
    {
      hide Inv, Run;
      assert es + Polls(ts)[..0] == es;
      for i := 0 to |ts|
        invariant Inv(View(sync)) && View(sync) == Run(w0, es + Polls(ts)[..i])
      {
        assert es + Polls(ts)[..i + 1] == (es + Polls(ts)[..i]) + [Polls(ts)[i]];
        RunAppend(w0, es + Polls(ts)[..i], Polls(ts)[i]);
        StepInv(View(sync), Event.ProcessedUntil(ts[i]));
        InvSeparate(View(sync));
        ProcessedUntil(ts[i], sync);
      }
      assert Polls(ts)[..|ts|] == Polls(ts);
    }

    // ----- Synchronization -----

    method GetOrCreateProcessInfo(pid: PID, dummyOk: bool) returns (found: bool)
      modifies this`infos, this`size, this`table, this`log
      ensures found == (pid in old(infos) || dummyOk)
      ensures View(None) == if pid in old(infos) || !dummyOk then old(View(None)) else Create(old(View(None)), pid)
    {
      if pid in infos { return true; }
      if !dummyOk { return false; }
      table := table[(pid, DUMMY) := Entry(0, 0)];
      size := size + 1;
      infos := infos[pid := []];
      log := log.(life := log.life[pid := |log.lives|], lives := log.lives + [pid]);
      return true;
    }

    /** Takes a reference on the file, attaches its interpreter and the probes that want it. */
    method TakeProbes(pid: PID, wanted: set<Attacher>)
      modifies this`probes, this`log
      ensures View(None) == AttachProbes(old(View(None)), pid, wanted)
    {
      if wanted != {} && pid in log.life {
        var mine := if pid in probes then probes[pid] else {};
        probes := probes[pid := mine + wanted];
        log := log.(probed := log.probed + set a | a in wanted :: (log.life[pid], a));
      }
    }

    method NewFrameMapping(pid: PID, raw: RawMapping) returns (fm: Option<Frame>)
      modifies this`refs, this`interps, this`probes, this`log
      ensures fm.Some? <==> raw.elf.Loaded?
      ensures raw.elf.Unusable? ==> View(None) == old(View(None))
      ensures raw.elf.Loaded? ==>
                fm == Some(FreshMapping(raw).frame) && View(None) == Acquire(old(View(None)), pid, raw)
    {
      if raw.elf.Unusable? { return None; }
      hide AttachProbes, Wrap;
      refs := refs + multiset{raw.elf.file};
      ghost var w1 := View(None);
      if raw.elf.attach.Attaches? && !(pid in interps && raw.oid in interps[pid]) {
        var mine := if pid in interps then interps[pid] else map[];
        interps := interps[pid := mine[raw.oid := |log.attached|]];
        log := log.(attached := log.attached + [(pid, raw.oid)]);
      }
      assert View(None) == AttachInterpreter(w1, pid, raw.oid, raw.elf.attach);
      hide AttachInterpreter;
      TakeProbes(pid, raw.elf.probes);
      return Some(Frame(raw.elf.file, raw.elf.start, Wrap(raw.elf.start + raw.length)));
    }

    /** The locals of SynchronizeProcess hold what the model's synchronization state says. */
    ghost predicate Tracks(s: Sync, mpRemove: map<Word, Mapping>, mappings: seq<Mapping>, mpAdd: seq<Mapping>,
                           valid: set<OID>)
    {
      && s.keys == mpRemove.Keys && s.mappings == mappings && s.adds == mpAdd && s.valid == valid
      && s.phase.Reading? && ByStart(s.prior, mpRemove) && GoodMaps(s.prior)
    }

    /** The callback on one line of the maps file. */
    method OnMapping(raw: RawMapping, mpRemove0: map<Word, Mapping>, mappings0: seq<Mapping>, mpAdd0: seq<Mapping>,
                     valid0: set<OID>, pid: PID, ghost s: Sync)
      returns (mpRemove: map<Word, Mapping>, mappings: seq<Mapping>, mpAdd: seq<Mapping>, valid: set<OID>,
               ghost s': Sync)
      requires Tracks(s, mpRemove0, mappings0, mpAdd0, valid0) && s.pid == pid
      modifies this`refs, this`interps, this`probes, this`log
      ensures View(Some(s')) == Step(old(View(Some(s))), Line(raw))
      ensures Tracks(s', mpRemove, mappings, mpAdd, valid) && s'.pid == pid && s'.prior == s.prior
    {
      hide GoodMaps, Repeated, Acquire, Wrap, Step;
      mpRemove, mappings, mpAdd, valid, s' := mpRemove0, mappings0, mpAdd0, valid0, s;
      ghost var w := View(Some(s));
      LineSteps(w, s, raw);
      if !raw.needed { return; }
      var fm: Option<Frame>;
      fm, mpRemove := Recognize(raw, mpRemove, s);
      var newMapping := fm.None?;
      if newMapping { fm := NewFrameMapping(pid, raw); }
      if fm.Some? {
        var m := Mapping(raw.vaddr, raw.length, raw.oid, fm.value);
        valid, mappings := valid + {raw.oid}, mappings + [m];
        if newMapping {
          mpAdd := mpAdd + [m];
          s' := Take(s, raw.oid, m);
          AcquireAside(w.(sync := None), pid, raw, Some(s));
        } else {
          s' := Keep(s, raw.oid, m);
        }
      }
    }

    /** Reuses what is known of a mapping that has not changed. */
    method Recognize(raw: RawMapping, mpRemove0: map<Word, Mapping>, ghost s: Sync)
      returns (fm: Option<Frame>, mpRemove: map<Word, Mapping>)
      requires ByStart(s.prior, mpRemove0) && GoodMaps(s.prior) && s.keys == mpRemove0.Keys
      ensures fm.None? ==> Repeated(s, raw) == None && mpRemove == mpRemove0
      ensures fm.Some? ==> Repeated(s, raw) == Some(Mapping(raw.vaddr, raw.length, raw.oid, fm.value))
                           && mpRemove == mpRemove0 - {raw.vaddr}
    {
      hide GoodMaps, Repeated;
      fm, mpRemove := None, mpRemove0;
      NotRepeated(s, raw);
      if raw.vaddr in mpRemove {
        var oldm := mpRemove[raw.vaddr];
        FoundByStart(s, raw, oldm);
        if oldm.length == raw.length && oldm.oid == raw.oid {
          mpRemove := mpRemove - {raw.vaddr};
          fm := Some(oldm.frame);
        }
      }
    }

    method IndexByStart(oldMappings: seq<Mapping>) returns (mpRemove: map<Word, Mapping>)
      ensures ByStart(oldMappings, mpRemove) && mpRemove.Keys == set m | m in oldMappings :: m.vaddr
    {
      mpRemove := map[];
      for i := 0 to |oldMappings|
        invariant ByStart(oldMappings, mpRemove) && mpRemove.Keys == set m | m in oldMappings[..i] :: m.vaddr
      {
        assert oldMappings[..i + 1] == oldMappings[..i] + [oldMappings[i]];
        mpRemove := mpRemove[oldMappings[i].vaddr := oldMappings[i]];
      }
      assert oldMappings[..|oldMappings|] == oldMappings;
    }

    /** The callback over the whole maps file, with ProcessedUntil between its lines. */
    method ReadMaps(pid: PID, reading: seq<Event>, ghost w0: World, ghost es: seq<Event>)
      returns (mpRemove: map<Word, Mapping>, mappings: seq<Mapping>, mpAdd: seq<Mapping>, valid: set<OID>,
               ghost s: Sync)
      requires forall e | e in reading :: IsReading(e)
      requires pid in infos && Run(w0, es) == Start(View(None), pid) && Inv(w0) && LegalRun(w0, es + reading)
      modifies this
      ensures Tracks(s, mpRemove, mappings, mpAdd, valid) && s.pid == pid
      ensures View(Some(s)) == Run(w0, es + reading) && Inv(View(Some(s)))
    {
      hide Run, Step, Legal, LegalRun, Inv, GoodMaps;
      PrefixInv(w0, es, reading);
      mpRemove := IndexByStart(infos[pid]);
      mappings, mpAdd, valid := [], [], {};
      s := Sync(pid, infos[pid], mpRemove.Keys, [], [], [], {}, Reading);
      assert View(Some(s)) == Start(View(None), pid);
      assert Tracks(s, mpRemove, mappings, mpAdd, valid) by { InvGood(View(Some(s))); }
      assert es + reading[..0] == es;
      hide Tracks;
      for i := 0 to |reading|
        invariant Tracks(s, mpRemove, mappings, mpAdd, valid) && s.pid == pid
        invariant View(Some(s)) == Run(w0, es + reading[..i]) && Inv(View(Some(s)))
      {
        assert reading[..i + 1] == reading[..i] + [reading[i]];
        assert es + reading[..i + 1] == (es + reading[..i]) + [reading[i]];
        RunAppend(w0, es + reading[..i], reading[i]);
        assert IsReading(reading[i]);
        NextInv(w0, es, reading, i);
        if reading[i].Line? {
          mpRemove, mappings, mpAdd, valid, s := OnMapping(reading[i].raw, mpRemove, mappings, mpAdd, valid, pid, s);
        } else {
          InvSeparate(View(Some(s)));
          StepForgets(View(Some(s)), reading[i].t);
          ProcessedUntil(reading[i].t, Some(s));
        }
      }
      assert reading[..|reading|] == reading;
    }

    /** One synchronization is the run of its steps. The parameters are what the outside decides:
        whether eBPF updates succeed, what the maps read delivers and how it ends, and when
        ProcessedUntil gets the lock. */
    method SynchronizeProcess(pid: PID, dummyOk: bool, reading: seq<Event>, end: ReadEnd, pruned: seq<KTime>,
                              ok: Prefix -> bool, installed: seq<KTime>)
      requires Inv(View(None)) && LegalRun(View(None), Script(pid, dummyOk, reading, end, pruned, ok, installed))
      requires forall e | e in reading :: IsReading(e)
      modifies this
      ensures Inv(View(None))
      ensures var w := old(View(None));
              View(None) == if pid !in w.m.exits && (pid in w.m.infos || dummyOk)
                            then Run(w, Script(pid, dummyOk, reading, end, pruned, ok, installed)) else w
    {
      if pid in exits { return; }
      ghost var w0 := View(None);
      var found := GetOrCreateProcessInfo(pid, dummyOk);
      if !found { return; }
      ghost var es := [Begin(pid, dummyOk)];
      ghost var tail := Ending(end, pruned, ok, installed);
      assert Run(w0, es) == Start(View(None), pid) by { RunOne(w0, es[0]); }
      hide Run, Step, Legal, LegalRun, Inv, Tracks, Create;
      LegalParts(w0, es + reading, tail);
      var mpRemove, mappings, mpAdd, valid;
      ghost var s;
      mpRemove, mappings, mpAdd, valid, s := ReadMaps(pid, reading, w0, es);
      FinishSync(pid, mpRemove, mappings, mpAdd, valid, end, pruned, ok, installed, dummyOk, s);
      RunConcat(w0, es + reading, tail);
    }

    /** After the maps read. */
    method FinishSync(pid: PID, mpRemove: map<Word, Mapping>, mappings: seq<Mapping>, mpAdd: seq<Mapping>,
                      valid: set<OID>, end: ReadEnd, pruned: seq<KTime>, ok: Prefix -> bool, installed: seq<KTime>,
                      dummyOk: bool, ghost s: Sync)
      requires Tracks(s, mpRemove, mappings, mpAdd, valid) && s.pid == pid
      requires Inv(View(Some(s))) && LegalRun(View(Some(s)), Ending(end, pruned, ok, installed))
      modifies this
      ensures Inv(View(None)) && View(None) == Run(old(View(Some(s))), Ending(end, pruned, ok, installed))
    {
      hide Inv, Run, Legal, LegalRun, Step, Exit, Files, GoodMaps;
      ghost var w := View(Some(s));
      match end
      case Denied =>
        EndsInv(w, GiveUp);
        GivesUp(w);
        log := log.(leaked := log.leaked + Files(mpAdd));
      case Vanished(t) =>
        EndsInv(w, Gone(t));
        GivesUp(w);
        GoesAway(w, t);
        log := log.(leaked := log.leaked + Files(mpAdd));
        ProcessPIDExit(pid, t);
      case Complete(interest) =>
        Replace(pid, mpRemove, mappings, mpAdd, valid, interest, pruned, ok, installed, dummyOk, s);
    }

    /** Removes what is stale, installs what is new, and publishes the mappings. */
    method Replace(pid: PID, mpRemove: map<Word, Mapping>, mappings: seq<Mapping>, mpAdd: seq<Mapping>, valid: set<OID>,
                   interest: Option<FileID>, pruned: seq<KTime>, ok: Prefix -> bool, installed: seq<KTime>,
                   dummyOk: bool,
                   ghost s: Sync)
      requires Tracks(s, mpRemove, mappings, mpAdd, valid) && s.pid == pid
      requires Inv(View(Some(s))) && LegalRun(View(Some(s)), Ending(Complete(interest), pruned, ok, installed))
      modifies this
      ensures Inv(View(None))
              && View(None) == Run(old(View(Some(s))), Ending(Complete(interest), pruned, ok, installed))
    {
      hide Inv, Run, LegalRun, Step, GoodMaps, Polls;
      ghost var w := View(Some(s));
      ghost var s1, s2 := s.(phase := Pruned), s.(phase := Installed);
      ghost var all := Ending(Complete(interest), pruned, ok, installed);
      ghost var e1 := [Prune(interest)];
      ghost var e2 := e1 + Polls(pruned);
      ghost var e3 := e2 + [Install(ok)];
      ghost var e4 := e3 + Polls(installed);
      assert all == e4 + [Publish] + [];
      assert all == e3 + (Polls(installed) + [Publish]);
      assert all == e1 + (Polls(pruned) + [Install(ok)] + Polls(installed) + [Publish]);
      PrefixInv(w, e1, Polls(pruned) + [Install(ok)] + Polls(installed) + [Publish]);
      PrefixInv(w, e3, Polls(installed) + [Publish]);
      PrefixInv(w, e4 + [Publish], []);
      RunOne(w, Prune(interest));
      RunAppend(w, e2, Install(ok));
      RunAppend(w, e4, Publish);
      PruneMappings(pid, mpRemove, valid, interest, s);
      Poll(pruned, Some(s1), w, e1);
      InstallMappings(pid, mpAdd, ok, s1);
      Poll(installed, Some(s2), w, e3);
      PublishMappings(pid, mappings, dummyOk, s2);
    }

    method PruneMappings(pid: PID, mpRemove: map<Word, Mapping>, valid: set<OID>, interest: Option<FileID>,
                         ghost s: Sync)
      requires Inv(View(Some(s))) && s.pid == pid && s.phase.Reading? && ByStart(s.prior, mpRemove)
      requires s.keys == mpRemove.Keys && s.valid == valid
      modifies this
      ensures View(Some(s.(phase := Pruned))) == Step(old(View(Some(s))), Prune(interest))
    {
      hide Inv, Injective, Separate, Remove, Filter, Retire, GoodMaps;
      InvGood(View(Some(s)));
      InvSeparate(View(Some(s)));
      RemoveStale(pid, s.prior, mpRemove);
      ghost var w1 := View(None);
      ProcessRemovedInterpreters(pid, valid);
      SyncAside(w1, pid, valid, Some(s));
      if interest.Some? { table := table[(pid, DUMMY) := Entry(interest.value, 0)]; }
    }

    method InstallMappings(pid: PID, mpAdd: seq<Mapping>, ok: Prefix -> bool, ghost s: Sync)
      requires s.pid == pid && s.phase.Pruned? && s.adds == mpAdd
      modifies this`table, this`size
      ensures View(Some(s.(phase := Installed))) == Step(old(View(Some(s))), Install(ok))
    {
      hide InstallPrefixes, PrefixList, EntryOf;
      var numChanges := 0;
      for i := 0 to |mpAdd|
        invariant (table, numChanges) == InstallAll(old(table), pid, mpAdd[..i], ok) && size == old(size)
      {
        assert mpAdd[..i + 1][..i] == mpAdd[..i];
        var added := ProcessNewMapping(pid, mpAdd[i], ok);
        numChanges := numChanges + added;
      }
      assert mpAdd[..|mpAdd|] == mpAdd;
      size := size + numChanges;
    }

    method PublishMappings(pid: PID, mappings: seq<Mapping>, dummyOk: bool, ghost s: Sync)
      requires Inv(View(Some(s))) && s.pid == pid && s.phase.Installed? && s.mappings == mappings
      modifies this
      ensures View(None) == Step(old(View(Some(s))), Publish)
    {
      hide Inv, Sorted;
      InvLive(View(Some(s)));
      var found := GetOrCreateProcessInfo(pid, dummyOk);
      if found { infos := infos[pid := Sorted(mappings)]; }
    }
  }
}
