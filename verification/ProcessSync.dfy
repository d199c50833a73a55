/** What one completed synchronization comes to, from the lines it was given. */
module ProcessSync {
  import opened Words
  import opened Options
  import opened Lpm
  import opened ProcessModel
  import opened ProcessTable
  import opened ProcessInvariant
  import opened ProcessLedger
  import opened ProcessDetach
  import opened ProcessRuns
  import opened ProcessLookups
  import opened ProcessFind
  import M = ProcessManager

  // ----- The lines of a synchronization -----

  /** The run begins a synchronization of the pid, is busy with it throughout, and ends by publishing. */
  ghost predicate Synchronizes(w: World, es: seq<Event>, pid: PID) {
    && w.sync.None? && |es| >= 2 && es[0].Begin? && es[0].pid == pid
    && (forall i | 1 <= i < |es| :: Syncing(Run(w, es[..i]), pid))
    && es[|es| - 1].Publish? && Run(w, es).sync.None?
  }

  function Prior(w: World, pid: PID): seq<Mapping> { if pid in w.m.infos then w.m.infos[pid] else [] }

  /** The line is of a mapping that was recorded before. */
  predicate Repeats(prior: seq<Mapping>, raw: RawMapping) {
    exists m | m in prior :: m.vaddr == raw.vaddr && m.length == raw.length && m.oid == raw.oid
  }

  /** Lines come before the stale mappings are removed. */
  predicate NoPrune(es: seq<Event>) { forall i | 0 <= i < |es| :: !es[i].Prune? }

  predicate IsNew(prior: seq<Mapping>, init: seq<Event>, e: Event) {
    e.Line? && NoPrune(init) && e.raw.needed && !Repeats(prior, e.raw) && e.raw.elf.Loaded?
  }

  predicate Counts(prior: seq<Mapping>, init: seq<Event>, e: Event) {
    e.Line? && NoPrune(init) && e.raw.needed && (Repeats(prior, e.raw) || e.raw.elf.Loaded?)
  }

  /** The needed lines that are repeated or usable. */
  function Delivered(prior: seq<Mapping>, es: seq<Event>): seq<RawMapping> {
    if es == [] then [] else
    var init, e := es[..|es| - 1], es[|es| - 1];
    Delivered(prior, init) + if Counts(prior, init, e) then [e.raw] else []
  }

  /** Of the new ones among them, the files whose interpreter attaches and the probes wanted. */
  function Attaching(prior: seq<Mapping>, es: seq<Event>): set<OID> {
    if es == [] then {} else
    var init, e := es[..|es| - 1], es[|es| - 1];
    Attaching(prior, init) + if IsNew(prior, init, e) && e.raw.elf.attach.Attaches? then {e.raw.oid} else {}
  }

  function Probed(prior: seq<Mapping>, es: seq<Event>): set<Attacher> {
    if es == [] then {} else
    var init, e := es[..|es| - 1], es[|es| - 1];
    Probed(prior, init) + if IsNew(prior, init, e) then e.raw.elf.probes else {}
  }

  function Oids(ds: seq<RawMapping>): set<OID> { set raw | raw in ds :: raw.oid }

  /** The mapping of a line: the recorded one, or the file's part from its virtual address on. */
  predicate Describes(prior: seq<Mapping>, m: Mapping, raw: RawMapping) {
    && m.vaddr == raw.vaddr && m.length == raw.length && m.oid == raw.oid
    && if Repeats(prior, raw) then m in prior
       else raw.elf.Loaded? && m.frame == Frame(raw.elf.file, raw.elf.start, Wrap(raw.elf.start + raw.length))
  }

  ghost predicate AllDescribed(prior: seq<Mapping>, ms: seq<Mapping>, ds: seq<RawMapping>) {
    |ms| == |ds| && forall i | 0 <= i < |ds| :: Describes(prior, ms[i], ds[i])
  }

  // ----- The list, step by step -----

  ghost predicate Listed(w: World, pid: PID, prior: seq<Mapping>, es: seq<Event>) {
    && Syncing(w, pid) && w.sync.value.prior == prior && (w.sync.value.phase.Reading? <==> NoPrune(es))
    && AllDescribed(prior, w.sync.value.mappings, Delivered(prior, es))
    && w.sync.value.valid == Oids(Delivered(prior, es))
  }

  lemma RepeatedIff(s: Sync, raw: RawMapping)
    requires SyncOk(s) && GoodLine(raw, s.mappings)
    ensures Repeated(s, raw).Some? <==> Repeats(s.prior, raw)
  {
    hide GoodMaps, SyncFiles, Filter, Repeated;
    if Repeated(s, raw).Some? { RepeatedIs(s, raw, Repeated(s, raw).value); }
    if m :| m in s.prior && m.vaddr == raw.vaddr && m.length == raw.length && m.oid == raw.oid {
      KeptListed(s, m);
      if m.vaddr in s.keys { FoundByStart(s, raw, m); }
    }
  }

  lemma KeptListed(s: Sync, m: Mapping)
    requires SyncGood(s)
    ensures m in s.kept ==> m in s.mappings
  {
    hide GoodMaps;
    assert m in s.kept ==> m in multiset(s.kept + s.adds);
  }

  lemma LineIs(w: World, raw: RawMapping)
    requires w.sync.Some?
    ensures var s, w' := w.sync.value, Step(w, Line(raw));
            if !s.phase.Reading? || !raw.needed then w' == w
            else if Repeated(s, raw).Some? then
              w' == w.(sync := Some(s.(keys := s.keys - {raw.vaddr}, kept := s.kept + [Repeated(s, raw).value],
                                       mappings := s.mappings + [Repeated(s, raw).value],
                                       valid := s.valid + {raw.oid})))
            else if raw.elf.Unusable? then w' == w
            else
              var w1 := w.(m := w.m.(refs := w.m.refs + multiset{raw.elf.file}));
              var w2 := AttachProbes(AttachInterpreter(w1, s.pid, raw.oid, raw.elf.attach), s.pid, raw.elf.probes);
              w' == w2.(sync := Some(s.(adds := s.adds + [FreshMapping(raw)],
                                        mappings := s.mappings + [FreshMapping(raw)],
                                        valid := s.valid + {raw.oid})))
  {
    hide Repeated, FreshMapping, AttachInterpreter, AttachProbes;
  }

  lemma FreshDescribed(prior: seq<Mapping>, raw: RawMapping)
    requires raw.elf.Loaded? && !Repeats(prior, raw)
    ensures Describes(prior, FreshMapping(raw), raw)
  {}

  lemma RepeatedDescribed(s: Sync, raw: RawMapping)
    requires Repeated(s, raw).Some?
    ensures Describes(s.prior, Repeated(s, raw).value, raw)
  {
    hide Repeated;
    RepeatedIs(s, raw, Repeated(s, raw).value);
  }

  lemma OneMore(prior: seq<Mapping>, ms: seq<Mapping>, m: Mapping, ds: seq<RawMapping>, raw: RawMapping)
    requires AllDescribed(prior, ms, ds) && Describes(prior, m, raw)
    ensures AllDescribed(prior, ms + [m], ds + [raw]) && Oids(ds + [raw]) == Oids(ds) + {raw.oid}
  {
    hide Describes;
  }

  lemma Passed(prior: seq<Mapping>, init: seq<Event>, e: Event)
    ensures NoPrune(init + [e]) <==> NoPrune(init) && !e.Prune?
    ensures Delivered(prior, init + [e]) == Delivered(prior, init) + if Counts(prior, init, e) then [e.raw] else []
    ensures !Counts(prior, init, e) ==> Delivered(prior, init + [e]) == Delivered(prior, init)
  {
    hide Counts, NoPrune;
    NoPruneMore(init, e);
    assert (init + [e])[..|init|] == init;
    assert Delivered(prior, init) + [] == Delivered(prior, init);
  }

  lemma NoPruneMore(init: seq<Event>, e: Event)
    ensures NoPrune(init + [e]) <==> NoPrune(init) && !e.Prune?
  {
    var es := init + [e];
    assert es[|init|] == e;
    forall i | 0 <= i < |init| ensures es[i] == init[i] {}
  }

  lemma LineListed(w: World, pid: PID, prior: seq<Mapping>, init: seq<Event>, raw: RawMapping)
    requires MapsInv(w) && Legal(w, Line(raw)) && Listed(w, pid, prior, init)
    ensures Listed(Step(w, Line(raw)), pid, prior, init + [Line(raw)])
  {
    hide GoodMaps, SyncFiles, SyncStale, Repeated, FreshMapping, Step, AttachInterpreter, AttachProbes;
    hide AllDescribed, Delivered;
    var s, e := w.sync.value, Line(raw);
    Passed(prior, init, e);
    LineIs(w, raw);
    if s.phase.Reading? && raw.needed {
      RepeatedIff(s, raw);
      if Repeated(s, raw).Some? {
        RepeatedDescribed(s, raw);
        OneMore(prior, s.mappings, Repeated(s, raw).value, Delivered(prior, init), raw);
      } else if raw.elf.Loaded? {
        FreshDescribed(prior, raw);
        OneMore(prior, s.mappings, FreshMapping(raw), Delivered(prior, init), raw);
        var counted := w.(m := w.m.(refs := w.m.refs + multiset{raw.elf.file}));
        AttachFrame(counted, s.pid, raw.oid, raw.elf.attach, raw.elf.probes);
      }
    }
  }

  /** Events that do not end the synchronization and are neither a line nor a prune leave the list as it is. */
  lemma OtherListed(w: World, pid: PID, prior: seq<Mapping>, init: seq<Event>, e: Event)
    requires Listed(w, pid, prior, init) && !e.Line? && !e.Prune? && Syncing(Step(w, e), pid)
    ensures Listed(Step(w, e), pid, prior, init + [e])
  {
    hide AllDescribed, Delivered, InstallAll, Exit, Files, Sorted, Instances;
    Passed(prior, init, e);
    if e.Gone? && w.sync.value.phase.Reading? { ExitSync(Abandon(w), pid, e.t); }
  }

  lemma PruneListed(w: World, pid: PID, prior: seq<Mapping>, init: seq<Event>, interest: Option<FileID>)
    requires Listed(w, pid, prior, init)
    ensures Listed(Step(w, Prune(interest)), pid, prior, init + [Prune(interest)])
  {
    hide AllDescribed, Delivered, Remove, Filter, Retire;
    Passed(prior, init, Prune(interest));
    if w.sync.value.phase.Reading? { PruneFrame(w, interest); }
  }

  lemma StepListed(w: World, pid: PID, prior: seq<Mapping>, init: seq<Event>, e: Event)
    requires MapsInv(w) && Legal(w, e) && Listed(w, pid, prior, init) && Syncing(Step(w, e), pid)
    ensures Listed(Step(w, e), pid, prior, init + [e])
  {
    hide MapsInv, Legal, Listed, Step;
    if e.Line? {
      LineListed(w, pid, prior, init, e.raw);
    } else if e.Prune? {
      PruneListed(w, pid, prior, init, e.interest);
    } else {
      OtherListed(w, pid, prior, init, e);
    }
  }

  lemma PrefixOfPrefix(es: seq<Event>, n: nat, i: nat)
    requires i <= n <= |es|
    ensures es[..n][..i] == es[..i]
  {}

  lemma BeginListed(w: World, e: Event)
    requires w.sync.None? && e.Begin? && Syncing(Step(w, e), e.pid)
    ensures Listed(Step(w, e), e.pid, Prior(w, e.pid), [e])
  {
    var prior := Prior(w, e.pid);
    assert Delivered(prior, []) == [];
    Passed(prior, [], e);
    assert [] + [e] == [e];
    hide Delivered;
    assert Oids([]) == {};
  }

  /** While a synchronization is under way, its list describes the lines delivered so far. */
  lemma {:induction false} RunListed(w: World, es: seq<Event>, pid: PID)
    requires Inv(w) && w.sync.None? && LegalRun(w, es) && es != [] && es[0].Begin? && es[0].pid == pid
    requires forall i | 1 <= i <= |es| :: Syncing(Run(w, es[..i]), pid)
    ensures Inv(Run(w, es)) && Listed(Run(w, es), pid, Prior(w, pid), es)
    decreases |es|
  {
    hide Step, Legal, Listed, MapsInv, TableInv, RefsInv, DetachInv, Syncing;
    var n := |es| - 1;
    RunInv(w, es);
    assert es[..|es|] == es && es[..n][..n] == es[..n];
    RunAppend(w, es[..n], es[n]);
    assert es[..n] + [es[n]] == es;
    if n == 0 {
      assert es[..0] == [] && es == [es[0]];
      assert Run(w, []) == w;
      BeginListed(w, es[0]);
    } else {
      LegalPrefix(w, es, n);
      forall i | 1 <= i <= n ensures Syncing(Run(w, es[..n][..i]), pid) { PrefixOfPrefix(es, n, i); }
      RunListed(w, es[..n], pid);
      assert Legal(Run(w, es[..n]), es[n]);
      StepListed(Run(w, es[..n]), pid, Prior(w, pid), es[..n], es[n]);
    }
  }

  /** A completed synchronization records exactly one mapping for each needed line that is repeated or
      usable: the one recorded before, or the file's part from its virtual address on. */
  lemma SyncRecords(w: World, es: seq<Event>, pid: PID) returns (ms: seq<Mapping>)
    requires Inv(w) && LegalRun(w, es) && Synchronizes(w, es, pid)
    ensures Inv(Run(w, es)) && Live(Run(w, es).m, pid) && multiset(Run(w, es).m.infos[pid]) == multiset(ms)
    ensures AllDescribed(Prior(w, pid), ms, Delivered(Prior(w, pid), es))
  {
    hide Step, Legal, Inv, Sorted, AllDescribed, Delivered;
    var n, init := |es| - 1, es[..|es| - 1];
    RunInv(w, es);
    LegalPrefix(w, es, n);
    forall i | 1 <= i <= n ensures Syncing(Run(w, init[..i]), pid) { PrefixOfPrefix(es, n, i); }
    RunListed(w, init, pid);
    assert init + [es[n]] == es;
    RunAppend(w, init, es[n]);
    Passed(Prior(w, pid), init, es[n]);
    var before := Run(w, init);
    ms := before.sync.value.mappings;
    Published(before, pid);
  }

  lemma Published(w: World, pid: PID)
    requires Inv(w) && Syncing(w, pid) && Step(w, Publish).sync.None?
    ensures var w' := Step(w, Publish);
            Live(w'.m, pid) && w'.m.infos[pid] == Sorted(w.sync.value.mappings)
    ensures multiset(Sorted(w.sync.value.mappings)) == multiset(w.sync.value.mappings)
  {
    hide TableInv, RefsInv, DetachInv, SyncOk, GoodMaps, Sorted;
    SortKeeps(w.sync.value.mappings);
  }

  // ----- What a lookup finds of a new line -----

  /** The prefixes of the line's addresses. */
  function Cover(raw: RawMapping): seq<Prefix> {
    var end: int := raw.vaddr + raw.length;
    if end < 0x1_0000_0000_0000_0000 then PrefixesOf(Blocks(raw.vaddr, end)) else []
  }

  /** No update of one of the line's prefixes is refused. */
  ghost predicate Unrefused(es: seq<Event>, raw: RawMapping) {
    forall k, p | 0 <= k < |es| && es[k].Install? && p in Cover(raw) :: es[k].ok(p)
  }

  lemma CoverIsPrefixes(m: Mapping, raw: RawMapping)
    requires ValidMapping(m) && m.vaddr == raw.vaddr && m.length == raw.length
    ensures PrefixList(m) == Cover(raw)
  {
    hide Blocks;
    EndIsPlain(m);
  }

  lemma NotLost(w: World, es: seq<Event>, pid: PID, m: Mapping, raw: RawMapping)
    requires Unrefused(es, raw) && PrefixList(m) == Cover(raw)
    ensures !Lost(w, es, pid, m)
  {
    hide PrefixList, Run, Cover;
    forall k: nat ensures !LostAt(w, es, pid, m, k) {
      if k < |es| && es[k].Install? { assert Accepts(es[k].ok, [m]); }
    }
  }

  lemma BiasLeads(m: Mapping, start: Word, a: Word)
    requires m.frame.start == start
    ensures Wrap(a - EntryOf(m).bias) == Wrap(start + (a - m.vaddr))
  {}

  lemma NotHeldBefore(w: World, pid: PID, m: Mapping, raw: RawMapping)
    requires w.sync.None? && !Repeats(Prior(w, pid), raw)
    requires m.vaddr == raw.vaddr && m.length == raw.length && m.oid == raw.oid
    ensures !ProcessLookups.Held(w, pid, m)
  {}

  /** After a completed synchronization in which no update for a new usable line was refused, every lookup
      of one of the line's addresses but 0 gives the line's file, and a bias that leads to the address's
      place in it, counted from the file's virtual address of the line. */
  lemma NewLineFound(w: World, es: seq<Event>, pid: PID, raw: RawMapping, a: Word)
    requires Inv(w) && LegalRun(w, es) && Synchronizes(w, es, pid)
    requires raw in Delivered(Prior(w, pid), es) && !Repeats(Prior(w, pid), raw) && Unrefused(es, raw)
    requires raw.vaddr <= a < raw.vaddr + raw.length && a != 0
    ensures var t := Run(w, es).m.table;
            && raw.elf.Loaded? && Answered(t, pid, a)
            && forall p | IsLookup(t, pid, a, p) ::
                 && (pid, p) in t && t[(pid, p)].file == raw.elf.file
                 && Wrap(a - t[(pid, p)].bias) == Wrap(raw.elf.start + (a - raw.vaddr))
  {
    hide Run, LegalRun, Delivered, Repeats, Unrefused, Cover, PrefixList, IsLookup, Answered, Whole, Lost;
    hide ProcessLookups.Held, Wrap, Inv;
    var prior, w' := Prior(w, pid), Run(w, es);
    var ms := SyncRecords(w, es, pid);
    var j :| 0 <= j < |Delivered(prior, es)| && Delivered(prior, es)[j] == raw;
    var m := ms[j];
    assert Describes(prior, m, raw);
    assert m in multiset(ms);
    assert m in w'.m.infos[pid];
    RecordedIsValid(w', pid, m);
    CoverIsPrefixes(m, raw);
    NotLost(w, es, pid, m, raw);
    NotHeldBefore(w, pid, m, raw);
    SettledHeld(w', pid, m);
    RunWhole(w, es, pid, m);
    WholeAnswers(w', pid, m, a);
    EntryFile(m);
    BiasLeads(m, raw.elf.start, a);
  }

  lemma EntryFile(m: Mapping)
    ensures EntryOf(m).file == m.frame.file
  {}

  lemma RecordedIsValid(w: World, pid: PID, m: Mapping)
    requires Inv(w) && pid in w.m.infos && m in w.m.infos[pid]
    ensures ValidMapping(m)
  {
    hide TableInv, RefsInv, DetachInv, SyncOk;
  }

  // ----- What stays attached -----

  function InstancesOf(w: World, pid: PID): map<OID, Instance> {
    if pid in w.m.interps then w.m.interps[pid] else map[]
  }

  function ProbesOf(w: World, pid: PID): set<Attacher> { if pid in w.m.probes then w.m.probes[pid] else {} }

  /** The interpreters of the pid are those it had and those that attached, once pruned those of them whose
      file was among the lines; those it had are the same instances; and its probes have only grown. */
  ghost predicate Equipped(w0: World, w: World, pid: PID, prior: seq<Mapping>, es: seq<Event>) {
    var all := InstancesOf(w0, pid).Keys + Attaching(prior, es);
    && InstancesOf(w, pid).Keys == (if NoPrune(es) then all else all * Oids(Delivered(prior, es)))
    && (forall o | o in InstancesOf(w, pid) && o in InstancesOf(w0, pid) ::
          InstancesOf(w, pid)[o] == InstancesOf(w0, pid)[o])
    && ProbesOf(w, pid) == ProbesOf(w0, pid) + Probed(prior, es)
  }

  lemma PassedToo(prior: seq<Mapping>, init: seq<Event>, e: Event)
    ensures !IsNew(prior, init, e) ==>
              Attaching(prior, init + [e]) == Attaching(prior, init) && Probed(prior, init + [e]) == Probed(prior, init)
    ensures IsNew(prior, init, e) ==>
              && Probed(prior, init + [e]) == Probed(prior, init) + e.raw.elf.probes
              && Attaching(prior, init + [e]) ==
                 Attaching(prior, init) + if e.raw.elf.attach.Attaches? then {e.raw.oid} else {}
  {
    hide IsNew;
    assert (init + [e])[..|init|] == init;
  }

  /** Attached instances and probes that do not change, while no line counts. */
  lemma SameEquipped(w0: World, w: World, w': World, pid: PID, prior: seq<Mapping>, init: seq<Event>, e: Event)
    requires Equipped(w0, w, pid, prior, init) && !IsNew(prior, init, e) && !Counts(prior, init, e) && !e.Prune?
    requires InstancesOf(w', pid) == InstancesOf(w, pid) && ProbesOf(w', pid) == ProbesOf(w, pid)
    ensures Equipped(w0, w', pid, prior, init + [e])
  {
    hide Delivered, Attaching, Probed, InstancesOf, ProbesOf, IsNew, Counts;
    Passed(prior, init, e);
    PassedToo(prior, init, e);
  }

  lemma NewEquipped(w0: World, w: World, pid: PID, prior: seq<Mapping>, init: seq<Event>, raw: RawMapping)
    requires Equipped(w0, w, pid, prior, init) && IsNew(prior, init, Line(raw)) && pid in w.h.life
    ensures var w1 := w.(m := w.m.(refs := w.m.refs + multiset{raw.elf.file}));
            var w2 := AttachProbes(AttachInterpreter(w1, pid, raw.oid, raw.elf.attach), pid, raw.elf.probes);
            Equipped(w0, w2, pid, prior, init + [Line(raw)])
  {
    hide Delivered, Attaching, Probed, Repeats;
    var e := Line(raw);
    Passed(prior, init, e);
    PassedToo(prior, init, e);
    assert NoPrune(init);
    var w1 := w.(m := w.m.(refs := w.m.refs + multiset{raw.elf.file}));
    InterpreterAdded(w1, pid, raw.oid, raw.elf.attach);
    ProbesAdded(AttachInterpreter(w1, pid, raw.oid, raw.elf.attach), pid, raw.elf.probes);
    hide AttachInterpreter, AttachProbes;
  }

  lemma InterpreterAdded(w: World, pid: PID, oid: OID, a: Attach)
    ensures var w' := AttachInterpreter(w, pid, oid, a);
            && InstancesOf(w', pid).Keys == InstancesOf(w, pid).Keys + (if a.Attaches? then {oid} else {})
            && (forall o | o in InstancesOf(w, pid) :: InstancesOf(w', pid)[o] == InstancesOf(w, pid)[o])
            && ProbesOf(w', pid) == ProbesOf(w, pid) && w'.h.life == w.h.life
  {}

  lemma ProbesAdded(w: World, pid: PID, probes: set<Attacher>)
    requires pid in w.h.life
    ensures var w' := AttachProbes(w, pid, probes);
            && InstancesOf(w', pid) == InstancesOf(w, pid)
            && ProbesOf(w', pid) == ProbesOf(w, pid) + probes
  {}

  /** A line that counts but is not new is of a file already listed or not; it attaches nothing. */
  lemma RepeatEquipped(w0: World, w: World, w': World, pid: PID, prior: seq<Mapping>, init: seq<Event>, e: Event)
    requires Equipped(w0, w, pid, prior, init) && NoPrune(init) && !IsNew(prior, init, e) && !e.Prune?
    requires InstancesOf(w', pid) == InstancesOf(w, pid) && ProbesOf(w', pid) == ProbesOf(w, pid)
    ensures Equipped(w0, w', pid, prior, init + [e])
  {
    hide Delivered, Attaching, Probed, InstancesOf, ProbesOf, IsNew, Counts;
    Passed(prior, init, e);
    PassedToo(prior, init, e);
  }

  lemma LineEquipped(w0: World, w: World, pid: PID, prior: seq<Mapping>, init: seq<Event>, raw: RawMapping)
    requires MapsInv(w) && Legal(w, Line(raw)) && Listed(w, pid, prior, init) && pid in w.h.life
    requires Equipped(w0, w, pid, prior, init)
    ensures Equipped(w0, Step(w, Line(raw)), pid, prior, init + [Line(raw)])
  {
    hide GoodMaps, SyncFiles, SyncStale, Repeated, FreshMapping, Step, AttachInterpreter, AttachProbes;
    hide AllDescribed, Delivered;
    hide Equipped, Repeats;
    var s, e, w' := w.sync.value, Line(raw), Step(w, Line(raw));
    LineIs(w, raw);
    if !s.phase.Reading? || !raw.needed {
      SameEquipped(w0, w, w', pid, prior, init, e);
    } else {
      RepeatedIff(s, raw);
      if Repeated(s, raw).Some? || raw.elf.Unusable? {
        RepeatEquipped(w0, w, w', pid, prior, init, e);
      } else {
        NewEquipped(w0, w, pid, prior, init, raw);
        var w1 := w.(m := w.m.(refs := w.m.refs + multiset{raw.elf.file}));
        SyncAsideEquipped(w0, AttachProbes(AttachInterpreter(w1, pid, raw.oid, raw.elf.attach), pid, raw.elf.probes),
                          w', pid, prior, init + [e]);
      }
    }
  }

  lemma SyncAsideEquipped(w0: World, w: World, w': World, pid: PID, prior: seq<Mapping>, es: seq<Event>)
    requires Equipped(w0, w, pid, prior, es) && w'.m == w.m
    ensures Equipped(w0, w', pid, prior, es)
  {}

  lemma PruneEquipped(w0: World, w: World, pid: PID, prior: seq<Mapping>, init: seq<Event>, interest: Option<FileID>)
    requires InterpsInv(w) && Listed(w, pid, prior, init) && Equipped(w0, w, pid, prior, init)
    ensures Equipped(w0, Step(w, Prune(interest)), pid, prior, init + [Prune(interest)])
  {
    hide Delivered, Attaching, Probed, AllDescribed, Remove, Filter, Retire;
    var s, w', e := w.sync.value, Step(w, Prune(interest)), Prune(interest);
    Passed(prior, init, e);
    PassedToo(prior, init, e);
    if s.phase.Reading? { PruneInstances(w, interest); }
  }

  lemma PruneInstances(w: World, interest: Option<FileID>)
    requires InterpsInv(w) && w.sync.Some? && w.sync.value.phase.Reading?
    ensures var s, w' := w.sync.value, Step(w, Prune(interest));
            && InstancesOf(w', s.pid).Keys == InstancesOf(w, s.pid).Keys * s.valid
            && (forall o | o in InstancesOf(w', s.pid) :: InstancesOf(w', s.pid)[o] == InstancesOf(w, s.pid)[o])
            && ProbesOf(w', s.pid) == ProbesOf(w, s.pid)
  {
    hide Remove, Filter, Retire;
    var s := w.sync.value;
    var w1 := w.(m := Remove(w.m, s.pid, Filter(s.prior, s.keys), {}));
    RemoveFrame(w.m, s.pid, Filter(s.prior, s.keys), {});
    RetireFrame(w1, s.pid, s.valid);
    RetiredInstances(w1, s.pid, s.valid);
    assert InstancesOf(w1, s.pid) == InstancesOf(w, s.pid);
  }

  lemma RetiredInstances(w: World, pid: PID, valid: set<OID>)
    requires !w.m.tracing ==> w.m.interps == map[]
    ensures var w' := Retire(w, pid, valid);
            && InstancesOf(w', pid).Keys == InstancesOf(w, pid).Keys * valid
            && (forall o | o in InstancesOf(w', pid) :: InstancesOf(w', pid)[o] == InstancesOf(w, pid)[o])
  {
    if w.m.tracing && pid in w.m.interps {
      hide Retire;
      forall o: OID
        ensures o in InstancesOf(Retire(w, pid, valid), pid) <==> o in InstancesOf(w, pid) && o in valid
        ensures o in InstancesOf(Retire(w, pid, valid), pid) ==>
                  o in InstancesOf(w, pid) && InstancesOf(Retire(w, pid, valid), pid)[o] == InstancesOf(w, pid)[o]
      {
        RetiredHas(w, pid, valid, pid, o);
      }
    }
  }

  lemma OtherEquipped(w0: World, w: World, pid: PID, prior: seq<Mapping>, init: seq<Event>, e: Event)
    requires Live(w.m, pid) && Syncing(w, pid) && Equipped(w0, w, pid, prior, init)
    requires !e.Line? && !e.Prune? && (Syncing(Step(w, e), pid) || e.Publish?)
    ensures Equipped(w0, Step(w, e), pid, prior, init + [e])
  {
    hide Delivered, InstallAll, Exit, Files, Sorted, Instances, Equipped;
    if e.Gone? && w.sync.value.phase.Reading? { ExitSync(Abandon(w), pid, e.t); }
    SameEquipped(w0, w, Step(w, e), pid, prior, init, e);
  }

  lemma StepEquipped(w0: World, w: World, pid: PID, prior: seq<Mapping>, init: seq<Event>, e: Event)
    requires Inv(w) && Legal(w, e) && Listed(w, pid, prior, init) && Equipped(w0, w, pid, prior, init)
    requires Syncing(Step(w, e), pid) || e.Publish?
    ensures Equipped(w0, Step(w, e), pid, prior, init + [e])
  {
    hide TableInv, RefsInv, Legal, Step, Equipped, SyncOk, GoodMaps, ProbesInv, InterpsInv, AllDescribed;
    SyncLive(w, pid);
    if e.Line? {
      LineEquipped(w0, w, pid, prior, init, e.raw);
    } else if e.Prune? {
      PruneEquipped(w0, w, pid, prior, init, e.interest);
    } else {
      OtherEquipped(w0, w, pid, prior, init, e);
    }
  }

  lemma SyncLive(w: World, pid: PID)
    requires Inv(w) && Syncing(w, pid)
    ensures Live(w.m, pid) && pid in w.h.life && InterpsInv(w)
  {
    hide TableInv, RefsInv, SyncOk, GoodMaps, InterpsInv;
  }

  lemma BeginEquipped(w: World, e: Event)
    requires w.sync.None? && e.Begin? && Syncing(Step(w, e), e.pid)
    ensures Equipped(w, Step(w, e), e.pid, Prior(w, e.pid), [e])
  {
    var prior, w' := Prior(w, e.pid), Step(w, e);
    assert Attaching(prior, []) == {} && Probed(prior, []) == {};
    assert w'.m.interps == w.m.interps && w'.m.probes == w.m.probes;
    hide Attaching, Probed, Delivered, Step;
    PassedToo(prior, [], e);
    Passed(prior, [], e);
    assert [] + [e] == [e];
  }

  lemma {:induction false} RunEquipped(w: World, es: seq<Event>, pid: PID)
    requires Inv(w) && w.sync.None? && LegalRun(w, es) && es != [] && es[0].Begin? && es[0].pid == pid
    requires forall i | 1 <= i <= |es| :: Syncing(Run(w, es[..i]), pid)
    ensures Equipped(w, Run(w, es), pid, Prior(w, pid), es)
    decreases |es|
  {
    hide Step, Legal, Listed, Equipped, Inv, Syncing;
    var n := |es| - 1;
    assert es[..|es|] == es && es[..n] + [es[n]] == es;
    RunAppend(w, es[..n], es[n]);
    if n == 0 {
      assert es[..0] == [] && es == [es[0]];
      assert Run(w, []) == w;
      BeginEquipped(w, es[0]);
    } else {
      LegalPrefix(w, es, n);
      forall i | 1 <= i <= n ensures Syncing(Run(w, es[..n][..i]), pid) { PrefixOfPrefix(es, n, i); }
      RunListed(w, es[..n], pid);
      RunEquipped(w, es[..n], pid);
      assert Legal(Run(w, es[..n]), es[n]);
      StepEquipped(w, Run(w, es[..n]), pid, Prior(w, pid), es[..n], es[n]);
    }
  }

  /** After a completed synchronization exactly those interpreters of the pid are left that it had or that
      attached, and whose file is among its needed lines that are repeated or usable; those it had are the
      same instances; and its probes are those it had and those the new lines wanted. */
  lemma SyncEquips(w: World, es: seq<Event>, pid: PID)
    requires Inv(w) && LegalRun(w, es) && Synchronizes(w, es, pid)
    ensures var prior, w' := Prior(w, pid), Run(w, es);
            && InstancesOf(w', pid).Keys ==
               (InstancesOf(w, pid).Keys + Attaching(prior, es)) * Oids(Delivered(prior, es))
            && (forall o | o in InstancesOf(w', pid) && o in InstancesOf(w, pid) ::
                  InstancesOf(w', pid)[o] == InstancesOf(w, pid)[o])
            && ProbesOf(w', pid) == ProbesOf(w, pid) + Probed(prior, es)
  {
    hide Step, Legal, Inv, Listed, Equipped, InstancesOf, ProbesOf, Delivered, Attaching, Probed, NoPrune, Run;
    var n, init := |es| - 1, es[..|es| - 1];
    LegalPrefix(w, es, n);
    forall i | 1 <= i <= n ensures Syncing(Run(w, init[..i]), pid) { PrefixOfPrefix(es, n, i); }
    RunListed(w, init, pid);
    RunEquipped(w, init, pid);
    assert init + [es[n]] == es;
    RunAppend(w, init, es[n]);
    assert Legal(Run(w, init), es[n]);
    StepEquipped(w, Run(w, init), pid, Prior(w, pid), init, es[n]);
    PublishNeedsPrune(Run(w, init), pid, Prior(w, pid), init);
    Passed(Prior(w, pid), init, es[n]);
    EquippedIs(w, Run(w, es), pid, Prior(w, pid), es);
  }

  lemma EquippedIs(w0: World, w: World, pid: PID, prior: seq<Mapping>, es: seq<Event>)
    requires Equipped(w0, w, pid, prior, es) && !NoPrune(es)
    ensures InstancesOf(w, pid).Keys == (InstancesOf(w0, pid).Keys + Attaching(prior, es)) * Oids(Delivered(prior, es))
    ensures forall o | o in InstancesOf(w, pid) && o in InstancesOf(w0, pid) ::
              InstancesOf(w, pid)[o] == InstancesOf(w0, pid)[o]
    ensures ProbesOf(w, pid) == ProbesOf(w0, pid) + Probed(prior, es)
  {
    hide InstancesOf, ProbesOf, Delivered, Attaching, Probed, NoPrune, Oids;
  }

  lemma PublishNeedsPrune(w: World, pid: PID, prior: seq<Mapping>, init: seq<Event>)
    requires Listed(w, pid, prior, init) && Step(w, Publish).sync.None?
    ensures !NoPrune(init)
  {
    hide AllDescribed, Delivered, Sorted, NoPrune;
  }

  // ----- The synchronization a manager carries out -----

  /** The synchronization is where it was. */
  predicate At(w: World, pid: PID, phase: Phase) { Syncing(w, pid) && w.sync.value.phase == phase }

  lemma {:induction false} StaysAt(w: World, es: seq<Event>, pid: PID, phase: Phase, i: nat)
    requires At(w, pid, phase) && (forall k | 0 <= k < |es| :: M.IsReading(es[k])) && i <= |es|
    ensures At(Run(w, es[..i]), pid, phase)
    decreases i
  {
    if i > 0 {
      hide Step;
      StaysAt(w, es, pid, phase, i - 1);
      assert es[..i] == es[..i - 1] + [es[i - 1]];
      RunAppend(w, es[..i - 1], es[i - 1]);
      ReadingStaysAt(Run(w, es[..i - 1]), es[i - 1], pid, phase);
    }
  }

  lemma ReadingStaysAt(w: World, e: Event, pid: PID, phase: Phase)
    requires At(w, pid, phase) && M.IsReading(e)
    ensures At(Step(w, e), pid, phase)
  {
    hide Instances;
    if e.Line? { LineTableSame(w, e.raw); LineFrame(w, e.raw); }
  }

  ghost predicate Busy(w: World, es: seq<Event>, pid: PID) {
    forall i | 1 <= i <= |es| :: Syncing(Run(w, es[..i]), pid)
  }

  lemma BusyMore(w: World, a: seq<Event>, b: seq<Event>, pid: PID)
    requires Busy(w, a, pid) && forall k | 0 <= k <= |b| :: Syncing(Run(Run(w, a), b[..k]), pid)
    ensures Busy(w, a + b, pid)
  {
    hide Run, Syncing;
    forall i | 1 <= i <= |a + b| ensures Syncing(Run(w, (a + b)[..i]), pid) {
      if i <= |a| {
        assert (a + b)[..i] == a[..i];
      } else {
        assert (a + b)[..i] == a + b[..i - |a|];
        M.RunConcat(w, a, b[..i - |a|]);
      }
    }
  }

  /** Reading or polling in one phase, then a step into the next. */
  lemma BusyPhase(w: World, a: seq<Event>, b: seq<Event>, e: Event, pid: PID, phase: Phase, next: Phase)
    requires Busy(w, a, pid) && At(Run(w, a), pid, phase) && forall k | 0 <= k < |b| :: M.IsReading(b[k])
    requires forall v: World | At(v, pid, phase) :: At(Step(v, e), pid, next)
    ensures Busy(w, a + b + [e], pid) && At(Run(w, a + b + [e]), pid, next)
  {
    hide Run, Step, Busy;
    forall k | 0 <= k <= |b| ensures Syncing(Run(Run(w, a), b[..k]), pid) { StaysAt(Run(w, a), b, pid, phase, k); }
    BusyMore(w, a, b, pid);
    StaysAt(Run(w, a), b, pid, phase, |b|);
    assert b[..|b|] == b;
    M.RunConcat(w, a, b);
    RunAppend(w, a + b, e);
    BusyOne(w, a + b, e, pid);
  }

  lemma BusyOne(w: World, a: seq<Event>, e: Event, pid: PID)
    requires Busy(w, a, pid) && Syncing(Run(w, a + [e]), pid)
    ensures Busy(w, a + [e], pid)
  {
    hide Run, Syncing;
    forall i | 1 <= i <= |a| + 1 ensures Syncing(Run(w, (a + [e])[..i]), pid) {
      if i <= |a| { assert (a + [e])[..i] == a[..i]; } else { assert (a + [e])[..i] == a + [e]; }
    }
  }

  lemma PruneTo(w: World, pid: PID, interest: Option<FileID>)
    ensures At(w, pid, Reading) ==> At(Step(w, Prune(interest)), pid, Pruned)
  {
    hide Remove, Filter, Retire;
  }

  lemma InstallTo(w: World, pid: PID, ok: Prefix -> bool)
    ensures At(w, pid, Pruned) ==> At(Step(w, Install(ok)), pid, Installed)
  {
    hide InstallAll;
  }

  /** What SynchronizeProcess carries out, when the maps read completes, is such a synchronization. */
  lemma ScriptSynchronizes(w: World, pid: PID, dummyOk: bool, reading: seq<Event>, interest: Option<FileID>,
                           pruned: seq<KTime>, ok: Prefix -> bool, installed: seq<KTime>)
    requires w.sync.None? && pid !in w.m.exits && (pid in w.m.infos || dummyOk)
    requires forall k | 0 <= k < |reading| :: M.IsReading(reading[k])
    ensures Synchronizes(w, M.Script(pid, dummyOk, reading, M.Complete(interest), pruned, ok, installed), pid)
  {
    var begin, prune, install := Begin(pid, dummyOk), Prune(interest), Install(ok);
    Starts(w, begin);
    hide Step, At, Run, Busy, M.Polls, M.Script;
    forall v: World | At(v, pid, Reading) ensures At(Step(v, prune), pid, Pruned) { PruneTo(v, pid, interest); }
    forall v: World | At(v, pid, Pruned) ensures At(Step(v, install), pid, Installed) { InstallTo(v, pid, ok); }
    PollsRead(pruned);
    PollsRead(installed);
    BusyPhase(w, [begin], reading, prune, pid, Reading, Pruned);
    var second := [begin] + reading + [prune];
    BusyPhase(w, second, M.Polls(pruned), install, pid, Pruned, Installed);
    var third := second + M.Polls(pruned) + [install];
    BusyEnds(w, third, M.Polls(installed), pid);
    ScriptIs(pid, dummyOk, reading, interest, pruned, ok, installed);
    ScriptEnds(pid, dummyOk, reading, interest, pruned, ok, installed);
  }

  lemma ScriptEnds(pid: PID, dummyOk: bool, reading: seq<Event>, interest: Option<FileID>, pruned: seq<KTime>,
                   ok: Prefix -> bool, installed: seq<KTime>)
    ensures var es := M.Script(pid, dummyOk, reading, M.Complete(interest), pruned, ok, installed);
            |es| >= 2 && es[0].Begin? && es[0].pid == pid && es[|es| - 1].Publish?
  {
    hide M.Polls;
  }

  lemma Starts(w: World, e: Event)
    requires w.sync.None? && e.Begin? && e.pid !in w.m.exits && (e.pid in w.m.infos || e.dummyOk)
    ensures At(Run(w, [e]), e.pid, Reading) && Busy(w, [e], e.pid)
  {
    assert At(Step(w, e), e.pid, Reading);
    hide Step, At, Run;
    M.RunOne(w, e);
    Begun(w, e, e.pid);
  }

  lemma PollsRead(ts: seq<KTime>)
    ensures forall k | 0 <= k < |M.Polls(ts)| :: M.IsReading(M.Polls(ts)[k])
  {}

  lemma ScriptIs(pid: PID, dummyOk: bool, reading: seq<Event>, interest: Option<FileID>, pruned: seq<KTime>,
                 ok: Prefix -> bool, installed: seq<KTime>)
    ensures M.Script(pid, dummyOk, reading, M.Complete(interest), pruned, ok, installed) ==
            [Begin(pid, dummyOk)] + reading + [Prune(interest)] + M.Polls(pruned)
            + [Install(ok)] + M.Polls(installed) + [Publish]
  {
    hide M.Polls;
    var b, p, i := [Begin(pid, dummyOk)], [Prune(interest)], [Install(ok)];
    assert b + reading + (p + M.Polls(pruned) + i + M.Polls(installed) + [Publish]) ==
           b + reading + p + M.Polls(pruned) + i + M.Polls(installed) + [Publish];
  }

  lemma Begun(w: World, e: Event, pid: PID)
    requires At(Run(w, [e]), pid, Reading)
    ensures Busy(w, [e], pid)
  {
    hide Run;
    assert [e][..1] == [e];
  }

  lemma BusyEnds(w: World, a: seq<Event>, b: seq<Event>, pid: PID)
    requires Busy(w, a, pid) && At(Run(w, a), pid, Installed) && forall k | 0 <= k < |b| :: M.IsReading(b[k])
    ensures var es := a + b + [Publish];
            (forall i | 1 <= i < |es| :: Syncing(Run(w, es[..i]), pid)) && Run(w, es).sync.None?
  {
    hide Run, Step, Syncing;
    forall k | 0 <= k <= |b| ensures Syncing(Run(Run(w, a), b[..k]), pid) { StaysAt(Run(w, a), b, pid, Installed, k); }
    BusyMore(w, a, b, pid);
    StaysAt(Run(w, a), b, pid, Installed, |b|);
    assert b[..|b|] == b;
    M.RunConcat(w, a, b);
    var es := a + b + [Publish];
    RunAppend(w, a + b, Publish);
    PublishEnds(Run(w, a + b), pid);
    forall i | 1 <= i < |es| ensures Syncing(Run(w, es[..i]), pid) { assert es[..i] == (a + b)[..i]; }
  }

  lemma PublishEnds(w: World, pid: PID)
    requires At(w, pid, Installed)
    ensures Step(w, Publish).sync.None?
  {
    hide Sorted;
  }
}
