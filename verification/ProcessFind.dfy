/** From a sampled address through the table and findMappingForTrace to the recorded mapping, over every run. */
module ProcessFind {
  import opened Words
  import opened Options
  import opened ProcessModel
  import opened ProcessTable
  import opened ProcessInvariant
  import opened ProcessLedger
  import opened ProcessDetach
  import opened ProcessRuns
  import opened ProcessLookups
  import opened MappingSearch

  // ----- Recorded mappings are sorted after every run -----

  lemma {:induction false} InsertInOrder(ms: seq<Mapping>, m: Mapping)
    requires InOrder(ms)
    ensures InOrder(InsertMapping(ms, m))
    decreases |ms|
  {
    if ms != [] {
      var init, last := ms[..|ms| - 1], ms[|ms| - 1];
      if !Before(last, m) {
        InsertInOrder(init, m);
        InsertPermutes(init, m);
        var r := InsertMapping(init, m);
        forall i | 0 <= i < |r| ensures Before(r[i], last) {
          assert r[i] in multiset(r);
          assert r[i] in init || r[i] == m;
        }
      } else {
        forall i | 0 <= i < |ms| ensures Before(ms[i], m) {
          assert i < |ms| - 1 ==> Before(ms[i], last);
        }
      }
    }
  }

  lemma {:induction false} SortedInOrder(ms: seq<Mapping>)
    ensures InOrder(Sorted(ms))
    decreases |ms|
  {
    hide InOrder, InsertMapping;
    if ms != [] {
      SortedInOrder(ms[..|ms| - 1]);
      InsertInOrder(Sorted(ms[..|ms| - 1]), ms[|ms| - 1]);
    } else {
      assert InOrder([]) by { NoneInOrder(); }
    }
  }

  lemma NoneInOrder() ensures InOrder([]) {}

  ghost predicate AllInOrder(m: Manager) {
    forall pid | pid in m.infos :: InOrder(m.infos[pid])
  }

  lemma StepInOrder(w: World, e: Event)
    requires AllInOrder(w.m)
    ensures AllInOrder(Step(w, e).m)
  {
    hide InOrder, Sorted, Deliver, Remove, InstallAll, Filter, Retire, Exit, Files;
    NoneInOrder();
    match e
    case Line(raw) => LineFrame(w, raw);
    case Gone(t) => if w.sync.Some? { ExitInfos(Abandon(w), w.sync.value.pid, t); }
    case Died(pid, t) => ExitInfos(w, pid, t);
    case Prune(interest) =>
      if w.sync.Some? && w.sync.value.phase.Reading? {
        PruneFrame(w, interest);
        RemoveFrame(w.m, w.sync.value.pid, Filter(w.sync.value.prior, w.sync.value.keys), {});
      }
    case Publish => if w.sync.Some? { SortedInOrder(w.sync.value.mappings); }
    case _ =>
  }

  lemma ExitInfos(w: World, pid: PID, t: KTime)
    ensures Exit(w, pid, t).m.infos == w.m.infos
  {
    if Live(w.m, pid) {
      hide Exit, Remove;
      ExitFrame(w, pid, t);
      RemoveFrame(w.m.(exits := w.m.exits[pid := t]), pid, w.m.infos[pid], {(pid, DUMMY)});
    }
  }

  lemma {:induction false} RunInOrder(w: World, es: seq<Event>)
    requires AllInOrder(w.m)
    ensures AllInOrder(Run(w, es).m)
    decreases |es|
  {
    hide AllInOrder, Step;
    if es != [] {
      RunInOrder(w, es[..|es| - 1]);
      StepInOrder(Run(w, es[..|es| - 1]), es[|es| - 1]);
    }
  }

  // ----- From a sampled address to its mapping -----

  lemma AddressInFile(m: Mapping, pc: Word)
    requires ValidMapping(m) && m.Contains(pc) && m.frame.start + m.length < 0x1_0000_0000_0000_0000
    ensures Wrap(pc - EntryOf(m).bias) == m.frame.start + (pc - m.vaddr)
    ensures m.frame.end == m.frame.start + m.length
  {}

  lemma OnlyHolder(ms: seq<Mapping>, m: Mapping, n: Mapping, a: Word)
    requires Ascends(ms) && m in ms && n in ms && Holds(n, m.frame.file, a) && m.frame.start <= a < m.frame.end
    ensures n == m
  {
    var i :| 0 <= i < |ms| && ms[i] == m;
    var j :| 0 <= j < |ms| && ms[j] == n;
  }

  /** What the unwinder reports for pc, the file address under the entry its lookup found, leads
      back to the mapping around pc; but not when pc is the mapping's first address. */
  lemma LeadsBack(ms: seq<Mapping>, m: Mapping, pc: Word)
    requires GoodMaps(ms) && InOrder(ms) && Ascends(ms) && m in ms && m.Contains(pc)
    requires m.frame.start + m.length < 0x1_0000_0000_0000_0000
    ensures Search(ms, EntryOf(m).file, Wrap(pc - EntryOf(m).bias)) == if pc == m.vaddr then None else Some(m.frame)
  {
    hide GoodMaps, Ascends, Scan, Search, InOrder;
    var a := Wrap(pc - EntryOf(m).bias);
    assert ValidMapping(m) by { ValidAmong(ms, m); }
    AddressInFile(m, pc);
    AscendsFinds(ms);
    assert Search(ms, m.frame.file, a) == Scan(ms, m.frame.file, a);
    forall n | n in ms && Holds(n, m.frame.file, a) ensures n == m { OnlyHolder(ms, m, n, a); }
    assert pc != m.vaddr ==> Holds(m, m.frame.file, a);
  }

  /** Every lookup of an address in a whole mapping answers with the mapping's entry. */
  lemma WholeAnswers(w: World, pid: PID, m: Mapping, pc: Word)
    requires Inv(w) && Live(w.m, pid) && !Syncing(w, pid) && m in w.m.infos[pid] && m.Contains(pc) && pc != 0
    requires Whole(w, pid, m)
    ensures Answered(w.m.table, pid, pc)
    ensures forall p | IsLookup(w.m.table, pid, pc, p) :: (pid, p) in w.m.table && w.m.table[(pid, p)] == EntryOf(m)
  {
    hide GoodMaps, LpmLaws.Matches, PrefixList, EntryOf, RefsInv, DetachInv, SyncOk, LiveTable, TableOk;
    LiveHas(w, pid);
    ValidAmong(w.m.infos[pid], m);
    var p := PrefixAt(m, pc);
    OnlyAnswer(w.m.table, LiveTable(w), pid, pc, m, p);
    forall q | IsLookup(w.m.table, pid, pc, q) ensures (pid, q) in w.m.table && w.m.table[(pid, q)] == EntryOf(m) {
      DummyHit(pc);
      var n := HitInside(w.m.table, LiveTable(w), pid, pc, q);
      AroundOnce(w.m.infos[pid], m, n, pc);
    }
  }

  /** After any run: an address strictly inside a recorded mapping of a settled pid, of which no update
      has failed since it has been held, is answered by the table with an entry from which
      findMappingForTrace, run on the recorded mappings, recovers that mapping. */
  lemma RunResolves(tracing: bool, es: seq<Event>, pid: PID, m: Mapping, pc: Word)
    requires LegalRun(Initial(tracing), es)
    requires var w := Run(Initial(tracing), es); Live(w.m, pid) && !Syncing(w, pid)
    requires var ms := Run(Initial(tracing), es).m.infos[pid]; Ascends(ms) && m in ms
    requires !Lost(Initial(tracing), es, pid, m)
    requires m.vaddr < pc && m.Contains(pc) && m.frame.start + m.length < 0x1_0000_0000_0000_0000
    ensures var w := Run(Initial(tracing), es); var ms := w.m.infos[pid];
            && GoodMaps(ms) && InOrder(ms) && Answered(w.m.table, pid, pc)
            && forall p | IsLookup(w.m.table, pid, pc, p) ::
                 && (pid, p) in w.m.table
                 && var e := w.m.table[(pid, p)]; Search(ms, e.file, Wrap(pc - e.bias)) == Some(m.frame)
  {
    hide Run, LegalRun, Step, Ascends, InOrder, GoodMaps, EntryOf, Search, TableInv, RefsInv, DetachInv, SyncOk;
    hide IsLookup, Whole, Lost, Answered;
    var w0, w := Initial(tracing), Run(Initial(tracing), es);
    InitialInv(tracing);
    RunInv(w0, es);
    RunInOrder(w0, es);
    SettledHeld(w, pid, m);
    NothingHeld(tracing, pid, m);
    RunWhole(w0, es, pid, m);
    WholeAnswers(w, pid, m, pc);
    LeadsBack(w.m.infos[pid], m, pc);
  }

  lemma AroundOnce(ms: seq<Mapping>, m: Mapping, n: Mapping, pc: Word)
    requires GoodMaps(ms) && m in ms && n in ms && m.Contains(pc) && n.Contains(pc)
    ensures m == n
  {
    assert n != m ==> Apart(m, n);
  }
}
