/** The trace monitor's watermark: up to when traces are known to have been handled. */
module Watermark {
  import opened Options
  import opened ProcessModel

  const MAX_EVENTS := 4096

  /** What one read of the ring buffer yields: an empty record, one that cannot be used, one that
      stops the monitor, or a trace with its capture time. */
  datatype Record = NoData | Skipped | Fatal | Trace(time: KTime)

  /** The traces of one batch, and whether the monitor stops. */
  function Batch(rs: seq<Record>, count: nat): (seq<KTime>, bool)
    decreases |rs|
  {
    if rs == [] then ([], false) else
    match rs[0]
    case NoData => Batch(rs[1..], count)
    case Skipped => Batch(rs[1..], count + 1)
    case Fatal => ([], true)
    case Trace(t) =>
      if count + 1 == MAX_EVENTS then ([t], false) else
      var r := Batch(rs[1..], count + 1);
      ([t] + r.0, r.1)
  }

  /** The running minimum, in which 0 stands for none yet. */
  function MinKTime(ts: seq<KTime>): KTime {
    if ts == [] then 0 else
    var m, t := MinKTime(ts[..|ts| - 1]), ts[|ts| - 1];
    if m == 0 || t < m then t else m
  }

  ghost predicate AtMostAll(m: KTime, ts: seq<KTime>) { forall i | 0 <= i < |ts| :: m <= ts[i] }

  ghost predicate Positive(ts: seq<KTime>) { forall i | 0 <= i < |ts| :: ts[i] > 0 }

  lemma {:induction false} MinOfPositive(ts: seq<KTime>)
    requires Positive(ts)
    ensures AtMostAll(MinKTime(ts), ts) && (ts != [] ==> MinKTime(ts) in ts) && (MinKTime(ts) > 0 <==> ts != [])
    decreases |ts|
  {
    if ts != [] {
      var init, last := ts[..|ts| - 1], ts[|ts| - 1];
      assert ts == init + [last] && forall i | 0 <= i < |init| :: init[i] == ts[i];
      MinOfPositive(init);
    }
  }

  lemma MinZero(ts: seq<KTime>)
    requires forall i | 0 <= i < |ts| :: ts[i] >= 0
    ensures MinKTime(ts) >= 0 && (MinKTime(ts) == 0 <==> ts == [] || ts[|ts| - 1] == 0)
  {
    if ts != [] {
      MinZero(ts[..|ts| - 1]);
    }
  }

  ghost predicate SomeNegative(ts: seq<KTime>) { exists i | 0 <= i < |ts| :: ts[i] < 0 }

  lemma {:induction false} MinOfNegative(ts: seq<KTime>)
    requires SomeNegative(ts)
    ensures MinKTime(ts) < 0 && AtMostAll(MinKTime(ts), ts)
    decreases |ts|
  {
    var init, last := ts[..|ts| - 1], ts[|ts| - 1];
    assert ts == init + [last] && forall i | 0 <= i < |init| :: init[i] == ts[i];
    if SomeNegative(init) { MinOfNegative(init); } else { MinZero(init); }
  }

  /** The running minimum is a minimum exactly when no time is 0, the last one is, or one is below 0. */
  lemma MinIff(ts: seq<KTime>)
    ensures AtMostAll(MinKTime(ts), ts) <==> Positive(ts) || SomeNegative(ts) || ts[|ts| - 1] == 0
  {
    if SomeNegative(ts) {
      MinOfNegative(ts);
    } else if Positive(ts) {
      MinOfPositive(ts);
    } else {
      MinZero(ts);
      var z :| 0 <= z < |ts| && ts[z] == 0;
      assert MinKTime(ts) <= ts[z] <==> MinKTime(ts) == 0;
    }
  }

  // ----- One poll -----

  /** The time to call ProcessedUntil with, if any, and the time to remember. */
  function Decide(oldKTime: KTime, minKTime: KTime): (Option<KTime>, KTime) {
    if oldKTime <= 0 then (None, minKTime)
    else if 0 < minKTime <= oldKTime then (Some(minKTime), 0)
    else (Some(oldKTime), minKTime)
  }

  /** The remembered time after a sequence of batches. */
  function Remembered(bs: seq<seq<KTime>>): KTime {
    if bs == [] then 0 else Decide(Remembered(bs[..|bs| - 1]), MinKTime(bs[|bs| - 1])).1
  }

  /** The call that the last of the batches leads to. */
  function Call(bs: seq<seq<KTime>>): Option<KTime>
    requires bs != []
  {
    Decide(Remembered(bs[..|bs| - 1]), MinKTime(bs[|bs| - 1])).0
  }

  lemma RememberedIs(bs: seq<seq<KTime>>)
    ensures Remembered(bs) == 0 || (bs != [] && Remembered(bs) == MinKTime(bs[|bs| - 1]))
  {}

  /** Over every sequence of batches, a call's time is at most the capture time of every trace in
      the current and in the previous batch exactly when none of those times is 0 or below. */
  lemma CallSafe(bs: seq<seq<KTime>>)
    requires bs != [] && Call(bs).Some?
    ensures |bs| >= 2 && Call(bs).value > 0
    ensures AtMostAll(Call(bs).value, bs[|bs| - 1]) && AtMostAll(Call(bs).value, bs[|bs| - 2])
            <==> Positive(bs[|bs| - 1]) && Positive(bs[|bs| - 2])
  {
    hide AtMostAll, Positive, MinKTime;
    var n, t := |bs|, Call(bs).value;
    var init := bs[..n - 1];
    RememberedIs(init);
    assert n >= 2 && init[n - 2] == bs[n - 2];
    AbovePositive(t, bs[n - 1]);
    AbovePositive(t, bs[n - 2]);
    if Positive(bs[n - 1]) && Positive(bs[n - 2]) {
      MinOfPositive(bs[n - 1]);
      MinOfPositive(bs[n - 2]);
      Below(t, MinKTime(bs[n - 2]), bs[n - 2]);
      Below(t, MinKTime(bs[n - 1]), bs[n - 1]);
      NoneBelow(t, bs[n - 1]);
    }
  }

  lemma AbovePositive(t: KTime, ts: seq<KTime>)
    requires t > 0
    ensures AtMostAll(t, ts) ==> Positive(ts)
  {}

  /** When there is a call, its time is the lesser of the two batches' minima; and there is one unless
      the previous batch's is not above 0 or has been used already. With capture times above 0 a
      minimum is above 0 exactly when its batch has a trace. */
  lemma CallIs(bs: seq<seq<KTime>>)
    requires |bs| >= 2
    ensures var n := |bs|; var prev, cur := MinKTime(bs[n - 2]), MinKTime(bs[n - 1]);
            && (Call(bs).Some? ==> Call(bs).value == if 0 < cur < prev then cur else prev)
            && (Call(bs).None? <==>
                prev <= 0 || (n > 2 && Call(bs[..n - 1]) == Some(prev) && Remembered(bs[..n - 1]) == 0))
            && (Positive(bs[n - 1]) ==> (cur > 0 <==> bs[n - 1] != []))
            && (Positive(bs[n - 2]) ==> (prev > 0 <==> bs[n - 2] != []))
  {
    hide AtMostAll, Positive, MinKTime;
    var n := |bs|;
    var init := bs[..n - 1];
    RememberedIs(init);
    assert init[n - 2] == bs[n - 2] && init[..n - 2] == bs[..n - 2];
    if Positive(bs[n - 1]) { MinOfPositive(bs[n - 1]); }
    if Positive(bs[n - 2]) { MinOfPositive(bs[n - 2]); }
    RememberedIs(bs[..n - 2]);
    assert n == 2 ==> bs[..n - 2] == [];
  }

  lemma Below(a: KTime, b: KTime, ts: seq<KTime>)
    requires AtMostAll(b, ts)
    ensures a <= b ==> AtMostAll(a, ts)
  {}

  lemma NoneBelow(a: KTime, ts: seq<KTime>)
    ensures ts == [] ==> AtMostAll(a, ts)
  {}

  /** A capture time of 0 makes the monitor forget an earlier trace of the same batch. */
  lemma ZeroForgets()
    ensures Call([[5, 0, 9], [9]]) == Some(9) && !AtMostAll(9, [5, 0, 9])
  {
    var b, c := [5, 0, 9], [9];
    assert b[..2] == [5, 0] && [5, 0][..1] == [5] && [5][..0] == [] && c[..0] == [];
    assert MinKTime([5]) == 5 && MinKTime([5, 0]) == 0 && MinKTime(b) == 9 && MinKTime(c) == 9;
    var one: seq<seq<KTime>>, none: seq<seq<KTime>> := [b], [];
    assert [b, c][..1] == one && one[..0] == none;
    assert Remembered(one) == 9;
    assert b[0] == 5;
  }

  /** A process record is dropped only when its exit time is at or below the capture time of every
      trace in the current and the previous batch. */
  lemma DroppedSafely(bs: seq<seq<KTime>>, w: World, pid: PID)
    requires |bs| >= 2 && Positive(bs[|bs| - 1]) && Positive(bs[|bs| - 2]) && Call(bs).Some?
    requires pid in w.m.infos && pid !in Step(w, ProcessedUntil(Call(bs).value)).m.infos
    ensures pid in w.m.exits && AtMostAll(w.m.exits[pid], bs[|bs| - 1]) && AtMostAll(w.m.exits[pid], bs[|bs| - 2])
  {
    hide Positive, Call, Instances, AtMostAll;
    CallSafe(bs);
    Below(w.m.exits[pid], Call(bs).value, bs[|bs| - 1]);
    Below(w.m.exits[pid], Call(bs).value, bs[|bs| - 2]);
  }

  /** The capture times among records. */
  function Times(rs: seq<Record>): seq<KTime> {
    if rs == [] then [] else (if rs[0].Trace? then [rs[0].time] else []) + Times(rs[1..])
  }

  /** The records that are counted, up to one that stops the monitor. */
  function Counted(rs: seq<Record>): (cs: seq<Record>)
    ensures forall i | 0 <= i < |cs| :: cs[i].Trace? || cs[i].Skipped?
  {
    if rs == [] || rs[0].Fatal? then [] else (if rs[0].NoData? then [] else [rs[0]]) + Counted(rs[1..])
  }

  /** The counted record that reaches the limit is a trace. */
  predicate Full(cs: seq<Record>, count: nat) {
    count < MAX_EVENTS <= count + |cs| && cs[MAX_EVENTS - 1 - count].Trace?
  }

  function Taken(cs: seq<Record>, count: nat): seq<Record> {
    if Full(cs, count) then cs[..MAX_EVENTS - count] else cs
  }

  lemma TakenFirst(cs: seq<Record>, count: nat)
    requires cs != [] && count + 1 != MAX_EVENTS
    ensures (Full(cs, count) <==> Full(cs[1..], count + 1)) && Taken(cs, count) != []
    ensures Taken(cs, count)[0] == cs[0] && Taken(cs, count)[1..] == Taken(cs[1..], count + 1)
  {}

  lemma {:induction false} BatchIs(rs: seq<Record>, count: nat)
    ensures var cs := Counted(rs);
            Batch(rs, count) == (Times(Taken(cs, count)), !Full(cs, count) && Fatal in rs)
    decreases |rs|
  {
    hide Full, Taken;
    if rs == [] || rs[0].Fatal? {
      NoneTaken(count);
    } else {
      var cs, rest := Counted(rs), rs[1..];
      assert rs == [rs[0]] + rest;
      if rs[0].NoData? {
        assert [] + Counted(rest) == Counted(rest);
        BatchIs(rest, count);
      } else {
        assert cs[1..] == Counted(rest);
        BatchIs(rest, count + 1);
        TimesFirst(cs);
        if count + 1 == MAX_EVENTS {
          LimitNow(cs, count);
        } else {
          TakenFirst(cs, count);
          TimesFirst(Taken(cs, count));
        }
      }
    }
  }

  lemma TimesFirst(cs: seq<Record>)
    requires cs != []
    ensures Times(cs) == if cs[0].Trace? then [cs[0].time] + Times(cs[1..]) else Times(cs[1..])
  {
    assert [] + Times(cs[1..]) == Times(cs[1..]);
  }

  lemma NoneTaken(count: nat)
    ensures !Full([], count) && Taken([], count) == []
  {}

  lemma LimitNow(cs: seq<Record>, count: nat)
    requires cs != [] && count + 1 == MAX_EVENTS
    ensures (Full(cs, count) <==> cs[0].Trace?) && !Full(cs[1..], count + 1) && Taken(cs[1..], count + 1) == cs[1..]
    ensures Taken(cs, count) == if cs[0].Trace? then [cs[0]] else cs
    ensures Times([cs[0]]) == if cs[0].Trace? then [cs[0].time] else []
  {
    assert [cs[0]][1..] == [];
    assert Times([]) == [];
  }

  /** A batch stops at the limit exactly when the counted record that reaches it is a trace. When that
      one is skipped, the batch goes on to the end, or to the record that stops the monitor. */
  lemma StopsAtLimit(rs: seq<Record>)
    ensures var cs := Counted(rs);
            if MAX_EVENTS <= |cs| && cs[MAX_EVENTS - 1].Trace? then Batch(rs, 0) == (Times(cs[..MAX_EVENTS]), false)
            else Batch(rs, 0) == (Times(cs), Fatal in rs)
  {
    BatchIs(rs, 0);
  }

  // ----- What the monitor does -----

  /** The monitor's actions on the outside: sending a trace or nil, and calling ProcessedUntil. */
  datatype Action = SendTrace(time: KTime) | SendNil | Calling(time: KTime)

  function Sends(ts: seq<KTime>): seq<Action> { seq(|ts|, i requires 0 <= i < |ts| => SendTrace(ts[i])) }

  /** What follows the traces of a batch. */
  function CallActions(call: Option<KTime>): seq<Action> {
    if call.None? then [] else [SendNil, Calling(call.value)]
  }

  /** All actions for a sequence of batches. */
  function Program(bs: seq<seq<KTime>>): seq<Action> {
    if bs == [] then [] else Program(bs[..|bs| - 1]) + Sends(bs[|bs| - 1]) + CallActions(Call(bs))
  }

  class TraceMonitor {
    var oldKTime: KTime
    var actions: seq<Action>
    /** The batches read so far. */
    var batches: seq<seq<KTime>>

    ghost predicate Valid()
      reads this
    {
      oldKTime == Remembered(batches) && actions == Program(batches)
    }

    constructor ()
      ensures Valid() && batches == []
    {
      oldKTime, actions, batches := 0, [], [];
    }

    /** Reads until the buffer is exhausted or the batch is full. */
    method ReadBatch(rs: seq<Record>) returns (minKTime: KTime, stop: bool, batch: seq<KTime>)
      modifies this`actions
      ensures (batch, stop) == Batch(rs, 0) && actions == old(actions) + Sends(batch) && minKTime == MinKTime(batch)
    {
      hide Batch, MinKTime;
      var i, eventCount := 0, 0;
      minKTime, stop, batch := 0, false, [];
      NoBatch();
      assert rs[0..] == rs && old(actions) + [] == actions && [] + Batch(rs, 0).0 == Batch(rs, 0).0;
      while i < |rs|
        invariant 0 <= i <= |rs| && !stop
        invariant actions == old(actions) + Sends(batch) && minKTime == MinKTime(batch)
        invariant var rest := Batch(rs[i..], eventCount); Batch(rs, 0) == (batch + rest.0, rest.1)
      {
        BatchNext(rs, i, eventCount);
        match rs[i]
        case NoData => i := i + 1;
        case Skipped =>
          eventCount := eventCount + 1;
          i := i + 1;
        case Fatal =>
          assert batch + [] == batch;
          stop := true;
          return;
        case Trace(t) =>
          eventCount := eventCount + 1;
          if minKTime == 0 || t < minKTime { minKTime := t; }
          actions := actions + [SendTrace(t)];
          SendOne(old(actions), batch, t);
          MinNext(batch, t);
          if eventCount == MAX_EVENTS {
            batch := batch + [t];
            return;
          }
          ghost var rest := Batch(rs[i + 1..], eventCount);
          assert batch + ([t] + rest.0) == (batch + [t]) + rest.0;
          batch := batch + [t];
          i := i + 1;
      }
      assert rs[i..] == [] && batch + [] == batch;
    }

    /** One iteration of the poll loop. */
    method Poll(rs: seq<Record>) returns (stop: bool)
      requires Valid()
      modifies this
      ensures stop == Batch(rs, 0).1
      ensures !stop ==> Valid() && batches == old(batches) + [Batch(rs, 0).0]
      ensures stop ==> batches == old(batches) && actions == Program(batches) + Sends(Batch(rs, 0).0)
    {
      hide Batch, MinKTime, Program, Remembered, Sends;
      var minKTime, batch;
      minKTime, stop, batch := ReadBatch(rs);
      if stop { return; }
      ProgramGrows(batches, batch);
      assert actions + [] == actions;
      ghost var sent := actions;
      if oldKTime > 0 {
        actions := actions + [SendNil];
        if minKTime > 0 && minKTime <= oldKTime {
          actions := actions + [Calling(minKTime)];
          minKTime := 0;
        } else {
          actions := actions + [Calling(oldKTime)];
        }
      }
      oldKTime := minKTime;
      batches := batches + [batch];
      assert actions == sent + CallActions(Decide(old(oldKTime), MinKTime(batch)).0);
    }
  }

  lemma NoBatch()
    ensures MinKTime([]) == 0 && forall count: nat :: Batch([], count) == ([], false)
  {}

  lemma MinNext(ts: seq<KTime>, t: KTime)
    ensures MinKTime(ts + [t]) == if MinKTime(ts) == 0 || t < MinKTime(ts) then t else MinKTime(ts)
  {
    assert (ts + [t])[..|ts|] == ts;
  }

  lemma BatchNext(rs: seq<Record>, i: nat, count: nat)
    requires i < |rs|
    ensures var rest := rs[i + 1..];
            Batch(rs[i..], count) ==
            match rs[i]
            case NoData => Batch(rest, count)
            case Skipped => Batch(rest, count + 1)
            case Fatal => ([], true)
            case Trace(t) =>
              if count + 1 == MAX_EVENTS then ([t], false)
              else ([t] + Batch(rest, count + 1).0, Batch(rest, count + 1).1)
  {
    assert rs[i..][1..] == rs[i + 1..];
  }

  lemma ProgramGrows(bs: seq<seq<KTime>>, b: seq<KTime>)
    ensures var d := Decide(Remembered(bs), MinKTime(b));
            Program(bs + [b]) == Program(bs) + Sends(b) + CallActions(d.0) && Remembered(bs + [b]) == d.1
  {
    hide MinKTime, Sends, Decide, CallActions;
    assert (bs + [b])[..|bs|] == bs;
  }

  lemma SendOne(before: seq<Action>, batch: seq<KTime>, t: KTime)
    ensures before + Sends(batch) + [SendTrace(t)] == before + Sends(batch + [t])
  {
    assert Sends(batch + [t]) == Sends(batch) + [SendTrace(t)];
  }

  // ----- The monitor and the handler over an unbuffered channel -----

  /** One step of either process: the monitor offers what it sends and is blocked, the idle handler
      takes what is offered, the handler finishes a trace, or the monitor makes a call. */
  datatype Event = Offer | Receive | Finish | DoCall

  /** A call, with what the handler had handled and what it was busy with at that moment. */
  datatype Made = Made(pos: nat, time: KTime, handled: seq<KTime>, busy: Option<KTime>)

  /** pos is the monitor's place in its program; busy is the trace in the handler's hands. */
  datatype Both = Both(pos: nat, offering: bool, busy: Option<KTime>, handled: seq<KTime>, calls: seq<Made>)

  const IDLE := Both(0, false, None, [], [])

  /** An event that cannot happen changes nothing. */
  function React(p: seq<Action>, s: Both, e: Event): Both {
    match e
    case Offer => if s.pos < |p| && !p[s.pos].Calling? then s.(offering := true) else s
    case Receive =>
      if s.offering && s.busy.None? && s.pos < |p| then
        s.(pos := s.pos + 1, offering := false, busy := if p[s.pos].SendTrace? then Some(p[s.pos].time) else None)
      else s
    case Finish => if s.busy.Some? then s.(busy := None, handled := s.handled + [s.busy.value]) else s
    case DoCall =>
      if !s.offering && s.pos < |p| && p[s.pos].Calling? then
        s.(pos := s.pos + 1, calls := s.calls + [Made(s.pos, p[s.pos].time, s.handled, s.busy)])
      else s
  }

  function Interleave(p: seq<Action>, es: seq<Event>): Both {
    if es == [] then IDLE else React(p, Interleave(p, es[..|es| - 1]), es[|es| - 1])
  }

  /** The traces sent by actions. */
  function SentBy(p: seq<Action>): seq<KTime> {
    if p == [] then [] else
    SentBy(p[..|p| - 1]) + if p[|p| - 1].SendTrace? then [p[|p| - 1].time] else []
  }

  /** Every call comes right after nil was sent. */
  ghost predicate Disciplined(p: seq<Action>) {
    forall k | 0 <= k < |p| && p[k].Calling? :: AfterNil(p, k)
  }

  predicate AfterNil(p: seq<Action>, k: nat)
    requires k < |p|
  {
    k > 0 && p[k - 1].SendNil?
  }

  function InHand(s: Both): seq<KTime> { if s.busy.Some? then [s.busy.value] else [] }

  ghost predicate InOrder(p: seq<Action>, s: Both) {
    && s.pos <= |p| && s.handled + InHand(s) == SentBy(p[..s.pos])
    && (s.offering ==> s.pos < |p| && !p[s.pos].Calling?)
    && (s.pos < |p| && p[s.pos].Calling? ==> s.busy.None?)
    && (forall c | c in s.calls :: CallInOrder(p, c))
  }

  /** At the call the handler was idle and had handled every trace sent before it. */
  ghost predicate CallInOrder(p: seq<Action>, c: Made) {
    && c.pos < |p| && p[c.pos] == Calling(c.time)
    && c.busy.None? && c.handled == SentBy(p[..c.pos])
  }

  lemma ReactInOrder(p: seq<Action>, s: Both, e: Event)
    requires Disciplined(p) && InOrder(p, s)
    ensures InOrder(p, React(p, s, e))
  {
    var s' := React(p, s, e);
    if s.pos < |p| { assert p[..s.pos + 1][..s.pos] == p[..s.pos]; }
    if s'.pos < |p| && p[s'.pos].Calling? { assert AfterNil(p, s'.pos); }
    if e.DoCall? && s' != s {
      assert s.handled + [] == s.handled;
      var c := Made(s.pos, p[s.pos].time, s.handled, s.busy);
      assert CallInOrder(p, c);
      assert SentBy(p[..s.pos + 1]) == SentBy(p[..s.pos]) + [];
    }
    if e.Receive? && s' != s { assert s.handled + [] == s.handled; }
    if e.Finish? && s' != s { assert s'.handled + [] == s'.handled; }
  }

  lemma {:induction false} InterleavingInOrder(p: seq<Action>, es: seq<Event>)
    requires Disciplined(p)
    ensures InOrder(p, Interleave(p, es))
    decreases |es|
  {
    if es == [] {
      assert p[..0] == [];
    } else {
      InterleavingInOrder(p, es[..|es| - 1]);
      ReactInOrder(p, Interleave(p, es[..|es| - 1]), es[|es| - 1]);
    }
  }

  // ----- The monitor's program is disciplined -----

  function Flat(bs: seq<seq<KTime>>): seq<KTime> {
    if bs == [] then [] else Flat(bs[..|bs| - 1]) + bs[|bs| - 1]
  }

  lemma {:induction false} SentByConcat(a: seq<Action>, b: seq<Action>)
    ensures SentBy(a + b) == SentBy(a) + SentBy(b)
    decreases |b|
  {
    if b == [] {
      assert a + b == a;
    } else {
      SentByConcat(a, b[..|b| - 1]);
      assert (a + b)[..|a + b| - 1] == a + b[..|b| - 1];
    }
  }

  lemma {:induction false} SentBySends(ts: seq<KTime>)
    ensures SentBy(Sends(ts)) == ts
    decreases |ts|
  {
    if ts != [] {
      SentBySends(ts[..|ts| - 1]);
      assert Sends(ts)[..|ts| - 1] == Sends(ts[..|ts| - 1]);
      assert ts == ts[..|ts| - 1] + [ts[|ts| - 1]];
    }
  }

  lemma SentByCall(call: Option<KTime>)
    ensures SentBy(CallActions(call)) == []
  {
    if call.Some? {
      assert [SendNil, Calling(call.value)][..1] == [SendNil];
      assert [SendNil][..0] == [];
      assert SentBy([SendNil]) == [];
    }
  }

  /** A call of the program belongs to one batch: its time is that batch's, and everything up to that
      batch is sent before it. */
  ghost predicate Belongs(bs: seq<seq<KTime>>, i: nat, p: seq<Action>, k: nat) {
    && i < |bs| && k < |p|
    && Call(bs[..i + 1]).Some? && p[k] == Calling(Call(bs[..i + 1]).value)
    && SentBy(p[..k]) == Flat(bs[..i + 1]) && AfterNil(p, k)
  }

  lemma BelongsLater(bs: seq<seq<KTime>>, i: nat, p: seq<Action>, k: nat, cs: seq<seq<KTime>>, q: seq<Action>)
    requires Belongs(bs, i, p, k) && bs <= cs && p <= q
    ensures Belongs(cs, i, q, k)
  {
    hide Call, Flat, SentBy;
    assert bs[..i + 1] == cs[..i + 1] && p[..k] == q[..k] && p[k] == q[k];
    assert k > 0 ==> p[k - 1] == q[k - 1];
  }

  lemma {:induction false} CallsBelong(bs: seq<seq<KTime>>, k: nat) returns (i: nat)
    requires k < |Program(bs)| && Program(bs)[k].Calling?
    ensures Belongs(bs, i, Program(bs), k)
    decreases |bs|
  {
    hide Call, SentBy;
    var init, last, p := bs[..|bs| - 1], bs[|bs| - 1], Program(bs);
    var q := Program(init);
    if k < |q| {
      i := CallsBelong(init, k);
      BelongsLater(init, i, q, k, bs, p);
    } else {
      i := |bs| - 1;
      assert bs[..i + 1] == bs;
      assert k == |q| + |last| + 1 && p[k - 1] == SendNil;
      assert p[..k] == q + Sends(last) + [SendNil];
      SentBefore(init, last);
    }
  }

  lemma SentBefore(init: seq<seq<KTime>>, last: seq<KTime>)
    ensures SentBy(Program(init) + Sends(last) + [SendNil]) == Flat(init) + last
  {
    hide Program, Flat;
    var before := Program(init) + Sends(last);
    SentByProgram(init);
    SentByConcat(Program(init), Sends(last));
    SentBySends(last);
    SentByConcat(before, [SendNil]);
    assert [SendNil][..0] == [] && SentBy([SendNil]) == [];
    assert SentBy(before) + [] == SentBy(before);
  }

  lemma {:induction false} SentByProgram(bs: seq<seq<KTime>>)
    ensures SentBy(Program(bs)) == Flat(bs)
    decreases |bs|
  {
    hide Call;
    if bs != [] {
      var init, last := bs[..|bs| - 1], bs[|bs| - 1];
      SentByProgram(init);
      SentByConcat(Program(init), Sends(last));
      SentBySends(last);
      SentByConcat(Program(init) + Sends(last), CallActions(Call(bs)));
      SentByCall(Call(bs));
      assert Flat(bs) + [] == Flat(bs);
    }
  }

  /** The times that actions call ProcessedUntil with. */
  function CalledBy(p: seq<Action>): seq<KTime> {
    if p == [] then [] else
    CalledBy(p[..|p| - 1]) + if p[|p| - 1].Calling? then [p[|p| - 1].time] else []
  }

  /** The times decided for batches, leaving out the batches that decide on none. */
  function Due(bs: seq<seq<KTime>>): seq<KTime> {
    if bs == [] then [] else
    Due(bs[..|bs| - 1]) + if Call(bs).Some? then [Call(bs).value] else []
  }

  lemma {:induction false} CalledByConcat(a: seq<Action>, b: seq<Action>)
    ensures CalledBy(a + b) == CalledBy(a) + CalledBy(b)
    decreases |b|
  {
    if b == [] {
      assert a + b == a;
    } else {
      CalledByConcat(a, b[..|b| - 1]);
      assert (a + b)[..|a + b| - 1] == a + b[..|b| - 1];
    }
  }

  lemma {:induction false} SendsCallNothing(ts: seq<KTime>)
    ensures CalledBy(Sends(ts)) == []
    decreases |ts|
  {
    if ts != [] {
      SendsCallNothing(ts[..|ts| - 1]);
      assert Sends(ts)[..|ts| - 1] == Sends(ts[..|ts| - 1]);
    }
  }

  lemma CalledByCall(call: Option<KTime>)
    ensures CalledBy(CallActions(call)) == if call.Some? then [call.value] else []
  {
    if call.Some? {
      assert [SendNil, Calling(call.value)][..1] == [SendNil];
      assert [SendNil][..0] == [];
      assert CalledBy([SendNil]) == [];
    }
  }

  /** Every batch that decides on a time calls ProcessedUntil with it, once, in the order of the
      batches, and there are no other calls. */
  lemma {:induction false} CalledByProgram(bs: seq<seq<KTime>>)
    ensures CalledBy(Program(bs)) == Due(bs)
    decreases |bs|
  {
    hide Call;
    if bs != [] {
      var init, last := bs[..|bs| - 1], bs[|bs| - 1];
      CalledByProgram(init);
      CalledByConcat(Program(init), Sends(last));
      SendsCallNothing(last);
      CalledByConcat(Program(init) + Sends(last), CallActions(Call(bs)));
      CalledByCall(Call(bs));
      assert CalledBy(Program(init)) + [] == CalledBy(Program(init));
    }
  }

  lemma ProgramDisciplined(bs: seq<seq<KTime>>)
    ensures Disciplined(Program(bs))
  {
    hide Program;
    forall k | 0 <= k < |Program(bs)| && Program(bs)[k].Calling? ensures AfterNil(Program(bs), k) {
      var i := CallsBelong(bs, k);
    }
  }

  /** Over every sequence of batches and every interleaving of monitor and handler: at each call of
      ProcessedUntil the handler is idle and has handled every trace read up to and including that
      batch, and the call's time is the one decided for the batch. */
  lemma CallsAfterHandling(bs: seq<seq<KTime>>, es: seq<Event>, c: Made) returns (i: nat)
    requires c in Interleave(Program(bs), es).calls
    ensures i < |bs| && Call(bs[..i + 1]) == Some(c.time)
    ensures c.busy.None? && c.handled == Flat(bs[..i + 1])
  {
    hide Program, Call, Interleave;
    ProgramDisciplined(bs);
    InterleavingInOrder(Program(bs), es);
    assert CallInOrder(Program(bs), c);
    i := CallsBelong(bs, c.pos);
  }

  lemma InterleaveMore(p: seq<Action>, es: seq<Event>, e: Event)
    ensures Interleave(p, es + [e]) == React(p, Interleave(p, es), e)
  {
    hide React;
    assert (es + [e])[..|es|] == es;
  }

  /** At rest before its action k. */
  predicate Resting(s: Both, k: nat) { s.pos == k && !s.offering && s.busy.None? }

  lemma ActionCarriedOut(p: seq<Action>, s: Both)
    requires s.pos < |p| && Resting(s, s.pos)
    ensures if p[s.pos].Calling? then Resting(React(p, s, DoCall), s.pos + 1)
            else Resting(React(p, React(p, React(p, s, Offer), Receive), Finish), s.pos + 1)
  {}

  /** Some interleaving carries a whole program out. */
  lemma {:induction false} RunsThrough(p: seq<Action>, k: nat) returns (es: seq<Event>)
    requires k <= |p|
    ensures Resting(Interleave(p, es), k)
    decreases k
  {
    if k == 0 { return []; }
    var before := RunsThrough(p, k - 1);
    hide Interleave, React;
    ActionCarriedOut(p, Interleave(p, before));
    if p[k - 1].Calling? {
      es := before + [DoCall];
      InterleaveMore(p, before, DoCall);
    } else {
      es := before + [Offer] + [Receive] + [Finish];
      InterleaveMore(p, before, Offer);
      InterleaveMore(p, before + [Offer], Receive);
      InterleaveMore(p, before + [Offer] + [Receive], Finish);
    }
  }
}
