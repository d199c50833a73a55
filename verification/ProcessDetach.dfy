/** Every attached interpreter instance, and every probe attacher per pid life, is detached exactly once. */
module ProcessDetach {
  import opened Options
  import opened Lpm
  import opened ProcessModel
  import opened ProcessInvariant

  // ----- Interpreters -----

  /** Instance i is still the one recorded for the pid and file it was attached for. */
  predicate Attached(w: World, i: nat)
    requires i < |w.h.attached|
  {
    var (pid, o) := w.h.attached[i];
    pid in w.m.interps && o in w.m.interps[pid] && w.m.interps[pid][o] == i
  }

  ghost predicate InterpsInv(w: World) {
    && (forall pid | pid in w.m.interps :: Live(w.m, pid))
    && (!w.m.tracing ==> w.m.interps == map[])
    && (forall pid, o | pid in w.m.interps && o in w.m.interps[pid] ::
          w.m.interps[pid][o] < |w.h.attached| && w.h.attached[w.m.interps[pid][o]] == (pid, o))
    && (forall i | 0 <= i < |w.h.attached| :: w.h.detached[i] == if Attached(w, i) then 0 else 1)
    && (forall i | i in w.h.detached :: i < |w.h.attached|)
  }

  // ----- Probes -----

  /** Attacher a is still recorded for the pid whose life l is. */
  predicate Probing(w: World, l: nat, a: Attacher)
    requires l < |w.h.lives|
  {
    var pid := w.h.lives[l];
    pid in w.h.life && w.h.life[pid] == l && pid in w.m.probes && a in w.m.probes[pid]
  }

  ghost predicate ProbesInv(w: World) {
    ProbesCounted(w) && CurrentLife(w)
  }

  /** In the current life of a live pid nothing has been detached yet. */
  ghost predicate CurrentLife(w: World) {
    forall x | x in w.h.probed && x.0 < |w.h.lives| ::
      var pid := w.h.lives[x.0];
      Live(w.m, pid) && pid in w.h.life && w.h.life[pid] == x.0 ==> Probing(w, x.0, x.1)
  }

  ghost predicate ProbesCounted(w: World) {
    && (forall pid | pid in w.m.probes :: Live(w.m, pid))
    && (forall pid | pid in w.m.infos :: pid in w.h.life)
    && (forall pid | pid in w.h.life :: w.h.life[pid] < |w.h.lives| && w.h.lives[w.h.life[pid]] == pid)
    && (forall pid, a | pid in w.m.probes && a in w.m.probes[pid] :: (w.h.life[pid], a) in w.h.probed)
    && (forall x | x in w.h.probed :: x.0 < |w.h.lives| && w.h.unprobed[x] == if Probing(w, x.0, x.1) then 0 else 1)
    && (forall x | x in w.h.unprobed :: x in w.h.probed)
  }

  // ----- Interpreters, step by step -----

  lemma RetireInterps(w: World, pid: PID, valid: set<OID>)
    requires InterpsInv(w)
    ensures InterpsInv(Retire(w, pid, valid))
    ensures valid == {} ==> pid !in Retire(w, pid, valid).m.interps
  {
    if w.m.tracing && pid in w.m.interps {
      var w' := Retire(w, pid, valid);
      forall i | 0 <= i < |w.h.attached| ensures w'.h.detached[i] == if Attached(w', i) then 0 else 1 {
        RetiredOnce(w, pid, valid, i);
      }
    }
  }

  /** The instance is one of the pid's whose file is gone. */
  predicate Leaves(w: World, pid: PID, valid: set<OID>, i: nat)
    requires pid in w.m.interps
  {
    exists o | o in w.m.interps[pid] && o !in valid :: w.m.interps[pid][o] == i
  }

  lemma LeavesCounted(w: World, pid: PID, valid: set<OID>, i: nat)
    requires w.m.tracing && pid in w.m.interps
    ensures var w' := Retire(w, pid, valid);
            && w'.h.attached == w.h.attached
            && w'.h.detached[i] == w.h.detached[i] + if Leaves(w, pid, valid, i) then 1 else 0
  {
    var mine := w.m.interps[pid];
    var gone := set o | o in mine && o !in valid :: mine[o];
    assert multiset(gone)[i] == if i in gone then 1 else 0;
  }

  lemma LeavesAttached(w: World, pid: PID, valid: set<OID>, i: nat)
    requires InterpsInv(w) && w.m.tracing && pid in w.m.interps && i < |w.h.attached|
    ensures Retire(w, pid, valid).h.attached == w.h.attached
    ensures Attached(Retire(w, pid, valid), i) <==> Attached(w, i) && !Leaves(w, pid, valid, i)
    ensures Leaves(w, pid, valid, i) ==> Attached(w, i)
  {
    hide Retire;
    RetireFrameAttached(w, pid, valid);
    var (q, o) := w.h.attached[i];
    RetiredHas(w, pid, valid, q, o);
    if o' :| o' in w.m.interps[pid] && o' !in valid && w.m.interps[pid][o'] == i { assert (q, o) == (pid, o'); }
  }

  lemma RetireFrameAttached(w: World, pid: PID, valid: set<OID>)
    ensures Retire(w, pid, valid).h.attached == w.h.attached
  {}

  lemma RetiredHas(w: World, pid: PID, valid: set<OID>, q: PID, o: OID)
    requires w.m.tracing && pid in w.m.interps
    ensures var now, later := w.m.interps, Retire(w, pid, valid).m.interps;
            && (q in later && o in later[q] <==> q in now && o in now[q] && (q != pid || o in valid))
            && (q in later && o in later[q] ==> later[q][o] == now[q][o])
  {
    var mine := w.m.interps[pid];
    var left := map o | o in mine && o in valid :: mine[o];
    assert o in mine && o in valid <==> o in left;
  }

  lemma RetiredOnce(w: World, pid: PID, valid: set<OID>, i: nat)
    requires InterpsInv(w) && w.m.tracing && pid in w.m.interps && i < |w.h.attached|
    ensures var w' := Retire(w, pid, valid);
            w'.h.attached == w.h.attached && w'.h.detached[i] == if Attached(w', i) then 0 else 1
  {
    hide Retire, Attached, Leaves;
    LeavesCounted(w, pid, valid, i);
    LeavesAttached(w, pid, valid, i);
  }

  /** Exit as far as interpreters can see it. */
  lemma ExitInterpsFrame(w: World, pid: PID, t: KTime)
    requires Live(w.m, pid)
    ensures var r, w' := Retire(w, pid, {}), Exit(w, pid, t);
            && w'.m.interps == r.m.interps && w'.h.attached == r.h.attached && w'.h.detached == r.h.detached
            && w'.m.tracing == r.m.tracing && w'.m.infos == w.m.infos && w'.m.exits == w.m.exits[pid := t]
            && r.m == w.m.(interps := r.m.interps)
  {
    hide Remove, Unprobe;
    var m0 := w.m.(exits := w.m.exits[pid := t]);
    var w1 := w.(m := Remove(m0, pid, w.m.infos[pid], {(pid, DUMMY)}));
    RemoveFrame(m0, pid, w.m.infos[pid], {(pid, DUMMY)});
    RetireFrame(Retire(w1, pid, {}), pid, {});
  }

  /** Exit keeps only what does not belong to the pid. */
  lemma ExitInterps(w: World, pid: PID, t: KTime)
    requires InterpsInv(w) && Live(w.m, pid)
    ensures InterpsInv(Exit(w, pid, t)) && pid !in Exit(w, pid, t).m.interps
  {
    hide Retire, Exit, InterpsInv;
    ExitInterpsFrame(w, pid, t);
    RetireInterps(w, pid, {});
    InterpsUntouched(Retire(w, pid, {}), Exit(w, pid, t));
  }

  lemma RemoveFrame(m: Manager, pid: PID, ms: seq<Mapping>, extra: set<(PID, Prefix)>)
    ensures var m' := Remove(m, pid, ms, extra);
            m' == m.(table := m'.table, refs := m'.refs, size := m'.size)
  {}

  lemma AttachInterps(w: World, pid: PID, oid: OID, a: Attach)
    requires InterpsInv(w) && Live(w.m, pid) && (a.Attaches? ==> w.m.tracing)
    ensures InterpsInv(AttachInterpreter(w, pid, oid, a))
  {
    var w' := AttachInterpreter(w, pid, oid, a);
    if w' != w {
      var n := |w.h.attached|;
      forall i | 0 <= i < |w'.h.attached| ensures w'.h.detached[i] == if Attached(w', i) then 0 else 1 {
        if i < n {
          assert w'.h.attached[i] == w.h.attached[i];
          assert w.h.attached[i] == (pid, oid) ==> !Attached(w, i);
        } else {
          assert n !in w.h.detached;
        }
      }
    }
  }

  /** A step that keeps interpreters, history and liveness keeps the invariant. */
  lemma InterpsUntouched(w: World, w': World)
    requires InterpsInv(w) && w'.m.interps == w.m.interps && w'.m.tracing == w.m.tracing
    requires w'.h.attached == w.h.attached && w'.h.detached == w.h.detached
    requires forall pid | Live(w.m, pid) && pid in w.m.interps :: Live(w'.m, pid)
    ensures InterpsInv(w')
  {}

  lemma AttachProbesKeepsInterps(w: World, pid: PID, probes: set<Attacher>)
    ensures var w' := AttachProbes(w, pid, probes);
            w'.m == w.m.(probes := w'.m.probes) && w'.h == w.h.(probed := w'.h.probed) && w'.sync == w.sync
  {}

  lemma LineInterps(w: World, raw: RawMapping)
    requires InterpsInv(w) && Legal(w, Line(raw)) && (w.sync.Some? ==> Live(w.m, w.sync.value.pid))
    ensures InterpsInv(Step(w, Line(raw)))
  {
    hide Repeated, FreshMapping, GoodLine, InterpsInv, AttachInterpreter, AttachProbes;
    var w' := Step(w, Line(raw));
    if w.sync.Some? && w.sync.value.phase.Reading? && raw.needed {
      var s := w.sync.value;
      if Repeated(s, raw).None? && raw.elf.Loaded? {
        var w1 := w.(m := w.m.(refs := w.m.refs + multiset{raw.elf.file}));
        InterpsUntouched(w, w1);
        AttachInterps(w1, s.pid, raw.oid, raw.elf.attach);
        var w2 := AttachInterpreter(w1, s.pid, raw.oid, raw.elf.attach);
        AttachProbesKeepsInterps(w2, s.pid, raw.elf.probes);
        InterpsUntouched(w2, w');
      } else {
        InterpsUntouched(w, w');
      }
    }
  }

  lemma NoneDue(w: World, due: set<PID>)
    requires InterpsInv(w) && forall pid | pid in due :: pid in w.m.exits
    ensures w.m.interps - due == w.m.interps && w.m.interps.Keys * due == {}
  {
    assert forall pid | pid in w.m.interps :: pid !in due;
  }

  /** ProcessedUntil finds no interpreter left to detach. */
  lemma ForgetDetachesNothing(w: World, t: KTime)
    requires InterpsInv(w)
    ensures Forget(w, t).h == w.h && Forget(w, t).m.interps == w.m.interps && Forget(w, t).m.probes == w.m.probes
    ensures InterpsInv(Forget(w, t))
  {
    var due := set pid | pid in w.m.exits && w.m.exits[pid] <= t;
    NoneDue(w, due);
    hide InterpsInv;
    assert Instances(w.m, due) == {};
    assert w.h.detached + multiset(Instances(w.m, due)) == w.h.detached;
    InterpsUntouched(w, Forget(w, t));
  }

  lemma BeginDetach(w: World, pid: PID, dummyOk: bool)
    requires InterpsInv(w) && ProbesInv(w)
    ensures var w' := Step(w, Begin(pid, dummyOk)); InterpsInv(w') && ProbesInv(w')
  {
    hide InterpsInv, ProbesCounted, CurrentLife;
    var w' := Step(w, Begin(pid, dummyOk));
    InterpsUntouched(w, w');
    if w.sync.None? && pid !in w.m.exits && pid !in w.m.infos && dummyOk {
      NewLife(w, w', pid);
    } else {
      ProbesUntouched(w, w');
    }
  }

  lemma NewLife(w: World, w': World, pid: PID)
    requires ProbesInv(w) && pid !in w.m.infos && pid !in w.m.exits
    requires w'.m.infos == w.m.infos[pid := []] && w'.m.exits == w.m.exits && w'.m.probes == w.m.probes
    requires w'.h == w.h.(life := w.h.life[pid := |w.h.lives|], lives := w.h.lives + [pid], attached := w'.h.attached,
                          detached := w'.h.detached)
    ensures ProbesInv(w')
  {
    forall x | x in w.h.probed ensures x.0 < |w'.h.lives| && Probing(w', x.0, x.1) == Probing(w, x.0, x.1) {
      assert w'.h.lives[x.0] == w.h.lives[x.0];
    }
  }

  // ----- Probes, step by step -----

  lemma UnprobeProbes(w: World, pid: PID)
    requires ProbesCounted(w)
    ensures ProbesCounted(Unprobe(w, pid)) && pid !in Unprobe(w, pid).m.probes
  {
    var w' := Unprobe(w, pid);
    if pid in w.m.probes {
      forall x | x in w.h.probed ensures w'.h.unprobed[x] == if Probing(w', x.0, x.1) then 0 else 1 {
        UnprobedOnce(w, pid, x);
      }
    }
  }

  lemma UnprobedOnce(w: World, pid: PID, x: (nat, Attacher))
    requires ProbesCounted(w) && pid in w.m.probes && x in w.h.probed
    ensures var w' := Unprobe(w, pid);
            w'.h.lives == w.h.lives && w'.h.unprobed[x] == if Probing(w', x.0, x.1) then 0 else 1
  {
    var gone := set a | a in w.m.probes[pid] :: (w.h.life[pid], a);
    assert multiset(gone)[x] == if x in gone then 1 else 0;
    if w.h.lives[x.0] == pid && Probing(w, x.0, x.1) { assert x in gone; }
  }

  lemma ProbesUntouched(w: World, w': World)
    requires ProbesCounted(w) && w'.m.probes == w.m.probes && w'.m.infos.Keys <= w.m.infos.Keys
    requires w'.h.lives == w.h.lives && w'.h.life == w.h.life
    requires w'.h.probed == w.h.probed && w'.h.unprobed == w.h.unprobed
    requires forall pid | Live(w.m, pid) && pid in w.m.probes :: Live(w'.m, pid)
    ensures ProbesCounted(w')
    ensures CurrentLife(w) && (forall pid | Live(w'.m, pid) :: Live(w.m, pid)) ==> CurrentLife(w')
  {
    forall x | x in w'.h.probed ensures w'.h.unprobed[x] == if Probing(w', x.0, x.1) then 0 else 1 {
      assert Probing(w', x.0, x.1) == Probing(w, x.0, x.1);
    }
  }

  lemma LifeEnds(w: World, w': World, pid: PID)
    requires CurrentLife(w) && w'.h.probed == w.h.probed && w'.h.lives == w.h.lives && w'.h.life == w.h.life
    requires w'.m.probes == w.m.probes - {pid} && forall q | Live(w'.m, q) :: Live(w.m, q) && q != pid
    ensures CurrentLife(w')
  {}

  /** Exit as far as probes can see it. */
  lemma ExitProbesFrame(w: World, pid: PID, t: KTime)
    requires Live(w.m, pid)
    ensures var u, w' := Unprobe(w, pid), Exit(w, pid, t);
            && w'.m.probes == u.m.probes == w.m.probes - {pid} && w'.h.unprobed == u.h.unprobed
            && w'.m.infos == w.m.infos && w'.m.exits == w.m.exits[pid := t]
            && w'.h.lives == w.h.lives && w'.h.life == w.h.life && w'.h.probed == w.h.probed
            && u.m == w.m.(probes := u.m.probes) && u.h == w.h.(unprobed := u.h.unprobed)
  {
    hide Remove, Retire;
    var m0 := w.m.(exits := w.m.exits[pid := t]);
    RemoveFrame(m0, pid, w.m.infos[pid], {(pid, DUMMY)});
    RetireFrame(w.(m := Remove(m0, pid, w.m.infos[pid], {(pid, DUMMY)})), pid, {});
  }

  lemma ExitProbes(w: World, pid: PID, t: KTime)
    requires ProbesInv(w) && Live(w.m, pid)
    ensures ProbesInv(Exit(w, pid, t)) && pid !in Exit(w, pid, t).m.probes
  {
    hide Exit, Unprobe, ProbesCounted, CurrentLife;
    ExitProbesFrame(w, pid, t);
    UnprobeProbes(w, pid);
    ProbesUntouched(Unprobe(w, pid), Exit(w, pid, t));
    LifeEnds(w, Exit(w, pid, t), pid);
  }

  lemma AttachProbesInv(w: World, pid: PID, probes: set<Attacher>)
    requires ProbesInv(w) && Live(w.m, pid)
    ensures ProbesInv(AttachProbes(w, pid, probes))
  {
    var w' := AttachProbes(w, pid, probes);
    if probes != {} {
      var l := w.h.life[pid];
      forall x | x in w'.h.probed
        ensures x.0 < |w'.h.lives| && w'.h.unprobed[x] == if Probing(w', x.0, x.1) then 0 else 1
      {
        if x !in w.h.probed { assert x.0 == l && x.1 in probes; }
      }
    }
  }

  lemma LineProbes(w: World, raw: RawMapping)
    requires ProbesInv(w) && (w.sync.Some? ==> Live(w.m, w.sync.value.pid))
    ensures ProbesInv(Step(w, Line(raw)))
  {
    hide Repeated, FreshMapping, ProbesCounted, CurrentLife, AttachInterpreter, AttachProbes;
    var w' := Step(w, Line(raw));
    if w.sync.Some? && w.sync.value.phase.Reading? && raw.needed {
      var s := w.sync.value;
      if Repeated(s, raw).None? && raw.elf.Loaded? {
        var w1 := w.(m := w.m.(refs := w.m.refs + multiset{raw.elf.file}));
        var w2 := AttachInterpreter(w1, s.pid, raw.oid, raw.elf.attach);
        AttachInterpreterFrame(w1, s.pid, raw.oid, raw.elf.attach);
        ProbesUntouched(w, w2);
        AttachProbesInv(w2, s.pid, raw.elf.probes);
        ProbesUntouched(AttachProbes(w2, s.pid, raw.elf.probes), w');
      } else {
        ProbesUntouched(w, w');
      }
    }
  }

  lemma AttachInterpreterFrame(w: World, pid: PID, oid: OID, a: Attach)
    ensures var w' := AttachInterpreter(w, pid, oid, a);
            w'.m == w.m.(interps := w'.m.interps) && w'.h == w.h.(attached := w'.h.attached) && w'.sync == w.sync
  {}

  // ----- Both, for every step -----

  ghost predicate DetachInv(w: World) { InterpsInv(w) && ProbesInv(w) }

  lemma ExitDetach(w: World, pid: PID, t: KTime)
    requires DetachInv(w)
    ensures DetachInv(Exit(w, pid, t))
  {
    hide InterpsInv, ProbesInv;
    if Live(w.m, pid) {
      ExitInterps(w, pid, t);
      ExitProbes(w, pid, t);
    }
  }

  lemma PruneDetach(w: World, interest: Option<FileID>)
    requires DetachInv(w) && w.sync.Some? && w.sync.value.phase.Reading?
    ensures DetachInv(Step(w, Prune(interest)))
  {
    hide InterpsInv, ProbesCounted, CurrentLife, Remove, Filter, Retire;
    var s := w.sync.value;
    var m1 := Remove(w.m, s.pid, Filter(s.prior, s.keys), {});
    RemoveFrame(w.m, s.pid, Filter(s.prior, s.keys), {});
    InterpsUntouched(w, w.(m := m1));
    RetireInterps(w.(m := m1), s.pid, s.valid);
    RetireFrame(w.(m := m1), s.pid, s.valid);
    InterpsUntouched(Retire(w.(m := m1), s.pid, s.valid), Step(w, Prune(interest)));
    ProbesUntouched(w, Step(w, Prune(interest)));
  }

  /** Steps that touch neither interpreters nor probes nor who is live. */
  lemma QuietDetach(w: World, w': World)
    requires DetachInv(w)
    requires w'.m.interps == w.m.interps && w'.m.probes == w.m.probes && w'.m.tracing == w.m.tracing
    requires w'.h == w.h.(leaked := w'.h.leaked)
    requires w'.m.infos.Keys == w.m.infos.Keys && w'.m.exits == w.m.exits
    ensures DetachInv(w')
  {
    hide InterpsInv, ProbesCounted, CurrentLife;
    InterpsUntouched(w, w');
    ProbesUntouched(w, w');
  }

  lemma ForgetDetach(w: World, t: KTime)
    requires DetachInv(w)
    ensures DetachInv(Forget(w, t))
  {
    hide ProbesCounted, CurrentLife;
    ForgetDetachesNothing(w, t);
    ForgetProbesLive(w, t);
    ProbesUntouched(w, Forget(w, t));
  }

  lemma ForgetProbesLive(w: World, t: KTime)
    requires ProbesCounted(w)
    ensures forall pid | Live(w.m, pid) && pid in w.m.probes :: Live(Forget(w, t).m, pid)
    ensures forall pid | Live(Forget(w, t).m, pid) :: Live(w.m, pid)
  {}

  lemma StepDetach(w: World, e: Event)
    requires DetachInv(w) && Legal(w, e) && (w.sync.Some? ==> Live(w.m, w.sync.value.pid))
    ensures DetachInv(Step(w, e))
  {
    hide InterpsInv, ProbesInv, Exit, Forget, GoodLine, Sorted, InstallAll;
    match e
    case Begin(pid, dummyOk) => BeginDetach(w, pid, dummyOk);
    case Line(raw) =>
      LineInterps(w, raw);
      LineProbes(w, raw);
    case GiveUp => QuietDetach(w, Step(w, e));
    case Gone(t) =>
      if w.sync.Some? && w.sync.value.phase.Reading? {
        QuietDetach(w, Abandon(w));
        ExitDetach(Abandon(w), w.sync.value.pid, t);
      }
    case Prune(interest) => if w.sync.Some? && w.sync.value.phase.Reading? { PruneDetach(w, interest); }
    case Install(ok) => QuietDetach(w, Step(w, e));
    case Publish => QuietDetach(w, Step(w, e));
    case Died(pid, t) => if w.sync.None? { ExitDetach(w, pid, t); }
    case ProcessedUntil(t) => ForgetDetach(w, t);
  }

  /** After exit every instance ever attached for the pid has been detached exactly once, and so has
      every attacher of the life that ended. */
  lemma ExitDetachesOnce(w: World, pid: PID, t: KTime)
    requires DetachInv(w) && Live(w.m, pid)
    ensures var w' := Exit(w, pid, t);
            && (forall i | 0 <= i < |w'.h.attached| && w'.h.attached[i].0 == pid :: w'.h.detached[i] == 1)
            && (forall x | x in w'.h.probed && x.0 == w.h.life[pid] :: w'.h.unprobed[x] == 1)
  {
    var w' := Exit(w, pid, t);
    ExitDetach(w, pid, t);
    ExitInterps(w, pid, t);
    ExitProbes(w, pid, t);
    ExitFrame(w, pid, t);
    hide Exit, Remove;
    assert pid in w.m.infos && pid in w.h.life;
  }
}
