/** The process manager over every run of synchronizations, exits and ProcessedUntil calls. */
module ProcessRuns {
  import opened Options
  import opened ProcessModel
  import opened ProcessTable
  import opened ProcessInvariant
  import opened ProcessLedger
  import opened ProcessDetach

  ghost predicate Inv(w: World) {
    MapsInv(w) && TableInv(w) && RefsInv(w) && DetachInv(w)
  }

  lemma InitialInv(tracing: bool)
    ensures Inv(Initial(tracing))
  {
    var w := Initial(tracing);
    assert LiveTable(w) == map[] && Held(w) == map[];
  }

  lemma StepInv(w: World, e: Event)
    requires Inv(w) && Legal(w, e)
    ensures Inv(Step(w, e))
  {
    hide MapsInv, TableInv, RefsInv, DetachInv, Step, Legal;
    if w.sync.Some? { MapsLive(w); }
    StepTable(w, e);
    StepRefs(w, e);
    StepDetach(w, e);
  }

  /** The invariant holds after every legal run. */
  lemma {:induction false} RunInv(w: World, es: seq<Event>)
    requires Inv(w) && LegalRun(w, es)
    ensures Inv(Run(w, es))
    decreases |es|
  {
    hide Inv, Step, Legal;
    if es != [] {
      var init, last := es[..|es| - 1], es[|es| - 1];
      forall k | 0 <= k < |init| ensures Legal(Run(w, init[..k]), init[k]) {
        assert init[..k] == es[..k];
        assert Legal(Run(w, es[..k]), es[k]);
      }
      RunInv(w, init);
      StepInv(Run(w, init), last);
    }
  }

  /** The files of the recorded mappings of every pid that is not awaiting cleanup. */
  function Recorded(m: Manager): map<PID, Bag> {
    map pid | pid in m.infos && pid !in m.exits :: Files(m.infos[pid])
  }

  lemma RecordedIsHeld(w: World)
    requires w.sync.None?
    ensures Held(w) == Recorded(w.m)
  {
    hide Files;
  }

  /** Between synchronizations, after any run from the start: the size counter is the number of
      entries, and references taken minus released are those of the recorded mappings of pids not
      awaiting cleanup, plus what failed reads leaked. */
  lemma RunAccounts(tracing: bool, es: seq<Event>)
    requires LegalRun(Initial(tracing), es) && Run(Initial(tracing), es).sync.None?
    ensures var w := Run(Initial(tracing), es);
            w.m.size == |w.m.table| && w.m.refs == Total(Recorded(w.m)) + w.h.leaked
  {
    hide Run, LegalRun, Step, MapsInv, DetachInv, Total, Recorded, Held, TableOk;
    InitialInv(tracing);
    RunInv(Initial(tracing), es);
    RecordedIsHeld(Run(Initial(tracing), es));
  }

  /** After any run, what is not attached any more has been detached exactly once. */
  lemma RunDetaches(tracing: bool, es: seq<Event>)
    requires LegalRun(Initial(tracing), es)
    ensures var w := Run(Initial(tracing), es);
            && (forall i | 0 <= i < |w.h.attached| :: w.h.detached[i] == if Attached(w, i) then 0 else 1)
            && (forall x | x in w.h.probed ::
                  x.0 < |w.h.lives| && w.h.unprobed[x] == if Probing(w, x.0, x.1) then 0 else 1)
            && (forall pid | pid in w.m.interps || pid in w.m.probes :: Live(w.m, pid))
  {
    hide Run, LegalRun, Step, MapsInv, TableInv, RefsInv;
    InitialInv(tracing);
    RunInv(Initial(tracing), es);
  }

  // ----- Leaks -----

  /** A failed maps read, while it was read, after new mappings had been delivered. */
  predicate Leaks(w: World, e: Event) {
    (e.GiveUp? || e.Gone?) && w.sync.Some? && w.sync.value.phase.Reading? && w.sync.value.adds != []
  }

  lemma LeakStep(w: World, e: Event)
    ensures Step(w, e).h.leaked == w.h.leaked + if Leaks(w, e) then Files(w.sync.value.adds) else multiset{}
  {
    hide Repeated, FreshMapping, AttachInterpreter, AttachProbes, Remove, InstallAll, Sorted, Filter;
    if e.Line? && w.sync.Some? && e.raw.elf.Loaded? {
      AttachLeaks(w.(m := w.m.(refs := w.m.refs + multiset{e.raw.elf.file})), w.sync.value.pid, e.raw.oid,
                  e.raw.elf.attach, e.raw.elf.probes);
    }
    if e.Gone? && w.sync.Some? && Live(w.m, w.sync.value.pid) { ExitFrame(Abandon(w), w.sync.value.pid, e.t); }
    if e.Died? && Live(w.m, e.pid) { ExitFrame(w, e.pid, e.t); }
  }

  lemma {:induction false} FilesCount(ms: seq<Mapping>)
    ensures |Files(ms)| == |ms|
    decreases |ms|
  {
    if ms != [] { FilesCount(ms[..|ms| - 1]); }
  }

  lemma LeakGrows(w: World, e: Event)
    ensures Step(w, e).h.leaked == multiset{} <==> w.h.leaked == multiset{} && !Leaks(w, e)
  {
    hide Step, Files;
    LeakStep(w, e);
    if Leaks(w, e) {
      var more := Files(w.sync.value.adds);
      FilesCount(w.sync.value.adds);
      assert |w.h.leaked + more| == |w.h.leaked| + |more|;
    }
  }

  ghost predicate NoLeak(w: World, es: seq<Event>) { forall k | 0 <= k < |es| :: !Leaks(Run(w, es[..k]), es[k]) }

  lemma NoLeakAppend(w: World, es: seq<Event>)
    requires es != []
    ensures var init := es[..|es| - 1]; NoLeak(w, es) <==> NoLeak(w, init) && !Leaks(Run(w, init), es[|es| - 1])
  {
    hide Leaks, Run;
    var init := es[..|es| - 1];
    forall k | 0 <= k < |init| ensures init[..k] == es[..k] && init[k] == es[k] {}
  }

  /** No reference leaks in a run exactly when no maps read fails after delivering a new mapping. */
  lemma {:induction false} NothingLeaked(w: World, es: seq<Event>)
    requires w.h.leaked == multiset{}
    ensures Run(w, es).h.leaked == multiset{} <==> NoLeak(w, es)
    decreases |es|
  {
    hide Step, Leaks;
    if es != [] {
      hide NoLeak;
      NothingLeaked(w, es[..|es| - 1]);
      NoLeakAppend(w, es);
      LeakGrows(Run(w, es[..|es| - 1]), es[|es| - 1]);
    }
  }

  // ----- A run that leaks -----

  const DELIVERED := RawMapping(4096, 4096, OID(1, 1), true, Loaded(7, 0, NoInterpreter, {}))

  const LEAKING := [Begin(1, true), Line(DELIVERED), GiveUp]

  lemma Met()
    ensures var w := Step(Initial(true), Begin(1, true));
            && w.m.infos == map[1 := []] && w.m.refs == w.h.leaked == multiset{} && w.m.tracing
            && w.sync == Some(Sync(1, [], {}, [], [], [], {}, Reading))
  {
    var w := Step(Initial(true), Begin(1, true));
    assert w.m.infos == map[1 := []] && w.sync.value.keys == {};
  }

  lemma Referenced(w: World)
    requires w.sync == Some(Sync(1, [], {}, [], [], [], {}, Reading))
    ensures var w', m := Step(w, Line(DELIVERED)), FreshMapping(DELIVERED);
            && w'.m.infos == w.m.infos && w'.m.refs == w.m.refs + multiset{7} && w'.h.leaked == w.h.leaked
            && w'.sync == Some(Sync(1, [], {}, [], [m], [m], {OID(1, 1)}, Reading))
  {
    hide FreshMapping, Filter;
    var s := w.sync.value;
    assert Repeated(s, DELIVERED).None?;
    assert [] + [FreshMapping(DELIVERED)] == [FreshMapping(DELIVERED)] && {} + {OID(1, 1)} == {OID(1, 1)};
  }

  lemma Dropped(w: World, m: Mapping)
    requires w.sync.Some? && w.sync.value.phase.Reading? && w.sync.value.adds == [m]
    ensures var w' := Step(w, GiveUp);
            w'.m == w.m && w'.h.leaked == w.h.leaked + multiset{m.frame.file}
  {
    assert [m][..0] == [];
    assert Files([m]) == multiset{m.frame.file};
  }

  lemma RunAppend(w: World, es: seq<Event>, e: Event)
    ensures Run(w, es + [e]) == Step(Run(w, es), e)
  {
    hide Step;
    assert (es + [e])[..|es|] == es;
  }

  lemma RunThree(w: World, a: Event, b: Event, c: Event)
    ensures Run(w, [a]) == Step(w, a) && Run(w, [a, b]) == Step(Step(w, a), b)
    ensures Run(w, [a, b, c]) == Step(Step(Step(w, a), b), c)
  {
    hide Step;
    assert [a, b, c][..2] == [a, b] && [a, b][..1] == [a] && [a][..0] == [];
    assert Run(w, []) == w;
  }

  lemma LeakingLegal()
    ensures LegalRun(Initial(true), LEAKING)
  {
    var w0, a, b, c := Initial(true), LEAKING[0], LEAKING[1], LEAKING[2];
    assert LEAKING[..0] == [] && LEAKING[..1] == [a] && LEAKING[..2] == [a, b];
    RunThree(w0, a, b, c);
    Met();
    hide Step, Initial;
    forall k | 0 <= k < |LEAKING| ensures Legal(Run(w0, LEAKING[..k]), LEAKING[k]) {
      if k == 0 {} else if k == 1 {} else {}
    }
  }

  /** A process is met, one mapping of file 7 is delivered, and then the maps read fails: the reference
      to file 7 stays taken though no mapping is recorded. */
  lemma ReadThenFail()
    ensures LegalRun(Initial(true), LEAKING)
    ensures var w := Run(Initial(true), LEAKING); w.h.leaked == multiset{7} == w.m.refs && w.m.infos == map[1 := []]
  {
    hide Step, Initial, LegalRun, Run;
    LeakingLegal();
    var w0, a, b, c := Initial(true), LEAKING[0], LEAKING[1], LEAKING[2];
    RunThree(w0, a, b, c);
    Met();
    Referenced(Step(w0, a));
    Dropped(Step(Step(w0, a), b), FreshMapping(DELIVERED));
    assert multiset{} + multiset{7} == multiset{7};
  }
}
