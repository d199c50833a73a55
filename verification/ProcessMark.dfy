/** The dummy entry, which marks a pid as known and says whether it wants anonymous mappings. */
module ProcessMark {
  import opened Options
  import opened Lpm
  import opened ProcessModel
  import opened ProcessTable
  import opened ProcessInvariant
  import opened ProcessRuns
  import opened ProcessLookups
  import opened ProcessSync

  function Mark(t: Table, pid: PID): Option<Entry> { if (pid, DUMMY) in t then Some(t[(pid, DUMMY)]) else None }

  /** The value for changed interest in anonymous mappings, given once: with the removal of stale mappings. */
  function Interest(es: seq<Event>): Option<FileID> {
    if es == [] then None else
    var init, e := es[..|es| - 1], es[|es| - 1];
    if e.Prune? && NoPrune(init) then e.interest else Interest(init)
  }

  /** The mark holds the value given, without one what it held before, and 0 for a new pid. */
  ghost predicate Marked(w0: World, w: World, pid: PID, es: seq<Event>) {
    Mark(w.m.table, pid) ==
    match Interest(es)
    case Some(f) => Some(Entry(f, 0))
    case None => if pid in w0.m.infos then Mark(w0.m.table, pid) else Some(Entry(0, 0))
  }

  lemma {:induction false} PrefixesElsewhere(t: Table, pid: PID, ps: seq<Prefix>, e: Entry, ok: Prefix -> bool)
    requires DUMMY !in ps
    ensures Mark(InstallPrefixes(t, pid, ps, e, ok).0, pid) == Mark(t, pid)
    decreases |ps|
  {
    if ps != [] && ok(ps[0]) { PrefixesElsewhere(t[(pid, ps[0]) := e], pid, ps[1..], e, ok); }
  }

  lemma {:induction false} InstallElsewhere(t: Table, pid: PID, ms: seq<Mapping>, ok: Prefix -> bool)
    requires forall m | m in ms :: ValidMapping(m)
    ensures Mark(InstallAll(t, pid, ms, ok).0, pid) == Mark(t, pid)
    decreases |ms|
  {
    hide PrefixList, EntryOf, InstallPrefixes, ValidMapping;
    if ms != [] {
      var init, last := ms[..|ms| - 1], ms[|ms| - 1];
      InstallElsewhere(t, pid, init, ok);
      if DUMMY in PrefixList(last) { PrefixInside(last, DUMMY); }
      PrefixesElsewhere(InstallAll(t, pid, init, ok).0, pid, PrefixList(last), EntryOf(last), ok);
    }
  }

  lemma RemoveElsewhere(m: Manager, pid: PID, ms: seq<Mapping>)
    requires forall n | n in ms :: ValidMapping(n)
    ensures Mark(Remove(m, pid, ms, {}).table, pid) == Mark(m.table, pid)
  {
    hide PrefixList, ValidMapping, Files, Releasable;
    if (pid, DUMMY) in Keys(pid, ms) {
      var n :| n in ms && DUMMY in PrefixList(n);
      PrefixInside(n, DUMMY);
    }
  }

  lemma PruneMark(w: World, interest: Option<FileID>)
    requires MapsInv(w) && w.sync.Some? && w.sync.value.phase.Reading?
    ensures var s, t := w.sync.value, Step(w, Prune(interest)).m.table;
            Mark(t, s.pid) == if interest.Some? then Some(Entry(interest.value, 0)) else Mark(w.m.table, s.pid)
  {
    hide Remove, Step, Filter, SyncOk, ValidMapping;
    var s := w.sync.value;
    PruneFrame(w, interest);
    forall m | m in Filter(s.prior, s.keys) ensures ValidMapping(m) { FilterElements(s.prior, s.keys, m); }
    RemoveElsewhere(w.m, s.pid, Filter(s.prior, s.keys));
  }

  lemma InstallMark(w: World, ok: Prefix -> bool)
    requires MapsInv(w) && w.sync.Some? && w.sync.value.phase.Pruned?
    ensures Mark(Step(w, Install(ok)).m.table, w.sync.value.pid) == Mark(w.m.table, w.sync.value.pid)
  {
    hide InstallAll, Step, SyncStale, SyncFiles, ValidMapping;
    var s := w.sync.value;
    InstallIs(w, ok);
    forall m | m in s.adds ensures ValidMapping(m) { assert m in s.kept + s.adds; }
    InstallElsewhere(w.m.table, s.pid, s.adds, ok);
  }

  lemma LineMark(w: World, raw: RawMapping)
    requires w.sync.Some?
    ensures Step(w, Line(raw)).m.table == w.m.table
  {
    hide Step, Repeated, FreshMapping, AttachInterpreter, AttachProbes;
    LineIs(w, raw);
    if raw.elf.Loaded? {
      AttachFrame(w.(m := w.m.(refs := w.m.refs + multiset{raw.elf.file})), w.sync.value.pid, raw.oid, raw.elf.attach,
                  raw.elf.probes);
    }
  }

  lemma OtherMark(w: World, e: Event, pid: PID)
    requires Syncing(w, pid) && !e.Line? && !e.Prune? && !e.Install?
    requires Syncing(Step(w, e), pid) || e.Publish?
    ensures Step(w, e).m.table == w.m.table
  {
    hide Exit, Sorted, Files, Instances;
    if e.Gone? && w.sync.value.phase.Reading? { ExitSync(Abandon(w), pid, e.t); }
  }

  lemma InterestNext(init: seq<Event>, e: Event)
    ensures Interest(init + [e]) == if e.Prune? && NoPrune(init) then e.interest else Interest(init)
  {
    assert (init + [e])[..|init|] == init;
  }

  lemma {:induction false} NoInterest(es: seq<Event>)
    requires NoPrune(es)
    ensures Interest(es) == None
    decreases |es|
  {
    if es != [] { NoInterest(es[..|es| - 1]); }
  }

  lemma StepMarked(w0: World, w: World, pid: PID, init: seq<Event>, e: Event)
    requires Inv(w) && Listed(w, pid, Prior(w0, pid), init) && Marked(w0, w, pid, init)
    requires Syncing(Step(w, e), pid) || e.Publish?
    ensures Marked(w0, Step(w, e), pid, init + [e])
  {
    hide MapsInv, Step, Mark, Interest, NoPrune, AllDescribed, Delivered;
    InterestNext(init, e);
    if e.Line? {
      LineMark(w, e.raw);
    } else if e.Prune? {
      if NoPrune(init) { NoInterest(init); PruneMark(w, e.interest); } else { PruneAgain(w, e); }
    } else if e.Install? {
      if w.sync.value.phase.Pruned? { InstallMark(w, e.ok); } else { InstallAgain(w, e); }
    } else {
      OtherMark(w, e, pid);
    }
  }

  lemma PruneAgain(w: World, e: Event)
    requires e.Prune? && w.sync.Some? && !w.sync.value.phase.Reading?
    ensures Step(w, e) == w
  {}

  lemma InstallAgain(w: World, e: Event)
    requires e.Install? && w.sync.Some? && !w.sync.value.phase.Pruned?
    ensures Step(w, e) == w
  {}

  lemma BeginMarked(w: World, e: Event)
    requires w.sync.None? && e.Begin? && Syncing(Step(w, e), e.pid)
    ensures Marked(w, Step(w, e), e.pid, [e])
  {
    assert [e][..0] == [] && Interest([]) == None && Interest([e]) == None;
  }

  lemma {:induction false} RunMarked(w: World, es: seq<Event>, n: nat, pid: PID)
    requires Inv(w) && LegalRun(w, es) && Synchronizes(w, es, pid) && 1 <= n <= |es|
    ensures Marked(w, Run(w, es[..n]), pid, es[..n])
    decreases n
  {
    hide Step, Legal, Listed, Marked, Inv, Syncing, NoPrune;
    var k := n - 1;
    assert es[..n] == es[..k] + [es[k]];
    RunAppend(w, es[..k], es[k]);
    if k == 0 {
      assert es[..0] == [] && es[..1] == [es[0]] && Run(w, []) == w;
      assert Syncing(Run(w, es[..1]), pid);
      BeginMarked(w, es[0]);
    } else {
      LegalPrefix(w, es, k);
      forall i | 1 <= i <= k ensures Syncing(Run(w, es[..k][..i]), pid) { PrefixOfPrefix(es, k, i); }
      RunListed(w, es[..k], pid);
      RunInv(w, es[..k]);
      RunMarked(w, es, k, pid);
      assert n < |es| ==> Syncing(Run(w, es[..n]), pid);
      StepMarked(w, Run(w, es[..k]), pid, es[..k], es[k]);
    }
  }

  /** After a completed synchronization the mark holds the value for the interest in anonymous mappings if
      that changed; otherwise it is what it was, and 0 for a new pid. No mapping overwrites or removes it. */
  lemma SyncMarks(w: World, es: seq<Event>, pid: PID)
    requires Inv(w) && LegalRun(w, es) && Synchronizes(w, es, pid)
    ensures Marked(w, Run(w, es), pid, es)
  {
    hide Inv, LegalRun, Run, Marked;
    assert es[..|es|] == es;
    RunMarked(w, es, |es|, pid);
  }
}
