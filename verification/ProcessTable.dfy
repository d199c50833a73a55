/** The eBPF map pid_page_to_mapping_info: its entries, its size counter, and longest-prefix lookup. */
module ProcessTable {
  import opened Words
  import opened Lpm
  import LpmLaws
  import opened ProcessModel

  // ----- Mappings as a maps read delivers them -----

  predicate ValidMapping(m: Mapping) {
    && m.length > 0 && m.vaddr + m.length < 0x1_0000_0000_0000_0000 && m.vaddr + m.length > 1
    && m.frame.end == Wrap(m.frame.start + m.length)
  }

  /** Valid, pairwise disjoint, and without repetition. */
  ghost predicate GoodMaps(ms: seq<Mapping>) {
    && (forall m | m in ms :: ValidMapping(m))
    && (forall m, n | m in ms && n in ms && m != n :: Apart(m, n))
    && (forall m :: multiset(ms)[m] <= 1)
  }

  lemma EndIsPlain(m: Mapping)
    requires ValidMapping(m)
    ensures m.End() == m.vaddr + m.length > m.vaddr
  {}

  lemma PrefixFromBlock(m: Mapping, p: Prefix) returns (b: Block)
    requires ValidMapping(m) && p in PrefixList(m)
    ensures b in Blocks(m.vaddr, m.vaddr + m.length) && p == PrefixOf(b)
    ensures b == NextBlock(b.key, m.vaddr + m.length) && b.Aligned() && m.vaddr <= b.key
            && b.End() <= m.vaddr + m.length
  {
    hide Blocks, Pow2;
    EndIsPlain(m);
    var bs := Blocks(m.vaddr, m.vaddr + m.length);
    var i :| 0 <= i < |PrefixesOf(bs)| && PrefixesOf(bs)[i] == p;
    b := bs[i];
    LpmLaws.Greedy(m.vaddr, m.vaddr + m.length, i);
  }

  lemma PrefixInside(m: Mapping, p: Prefix)
    requires ValidMapping(m) && p in PrefixList(m)
    ensures m.Contains(p.key) && p != DUMMY && p.length <= 64
  {
    hide Blocks, Pow2;
    var b := PrefixFromBlock(m, p);
    LpmLaws.PowPositive(b.exp);
    if b.key == 0 {
      TwoFits(m.length);
    }
  }

  lemma TwoFits(length: Word)
    requires length > 1
    ensures NextBlock(0, length).exp >= 1
  {
    assert Pow2(1) == 2;
    FitExpIsLargest(0, length, 63, 1);
  }

  lemma ApartPrefixes(m: Mapping, n: Mapping, p: Prefix)
    requires ValidMapping(m) && ValidMapping(n) && p in PrefixList(m) && p in PrefixList(n)
    ensures !Apart(m, n)
  {
    hide PrefixList;
    PrefixInside(m, p);
    PrefixInside(n, p);
  }

  // ----- Entries -----

  /** Entry k of the table is the dummy or a prefix of one of ms with that mapping's value. */
  ghost predicate EntryOk(t: Table, k: (PID, Prefix), ms: seq<Mapping>)
    requires k in t
  {
    k.1 == DUMMY || exists m :: m in ms && k.1 in PrefixList(m) && t[k] == EntryOf(m)
  }

  /** The table holds nothing but the dummy and mapping prefixes of live pids, and every dummy. */
  ghost predicate TableOk(t: Table, live: map<PID, seq<Mapping>>) {
    && (forall k | k in t :: k.0 in live && EntryOk(t, k, live[k.0]))
    && (forall pid | pid in live :: (pid, DUMMY) in t)
  }

  /** Nothing of ms is missing from the table. */
  ghost predicate Complete(t: Table, pid: PID, ms: seq<Mapping>) {
    forall m, p | m in ms && p in PrefixList(m) :: (pid, p) in t
  }

  lemma RemovedSize(t: Table, ks: set<(PID, Prefix)>)
    ensures |t - ks| == |t| - |t.Keys * ks|
  {
    assert (t - ks).Keys == t.Keys - ks;
    assert |t.Keys| == |t.Keys - ks| + |t.Keys * ks| by {
      assert t.Keys == (t.Keys - ks) + (t.Keys * ks);
    }
  }

  /** Deleting the prefixes of stale mappings leaves exactly the others' entries. */
  lemma PruneTable(t: Table, live: map<PID, seq<Mapping>>, pid: PID, stale: seq<Mapping>, kept: seq<Mapping>)
    requires TableOk(t, live) && pid in live && GoodMaps(live[pid])
    requires forall m | m in live[pid] :: m in stale || m in kept
    requires forall m | m in stale :: m in live[pid]
    ensures TableOk(t - Keys(pid, stale), live[pid := kept])
    ensures (forall m | m in stale :: m !in kept) && (forall m | m in kept :: m in live[pid]) &&
            Complete(t, pid, live[pid]) ==>
              Complete(t - Keys(pid, stale), pid, kept)
  {
    hide PrefixList;
    var ks, live' := Keys(pid, stale), live[pid := kept];
    var t' := t - ks;
    forall k | k in t' ensures k.0 in live' && EntryOk(t', k, live'[k.0]) {
      assert EntryOk(t, k, live[k.0]);
      if k.0 == pid && k.1 != DUMMY {
        var m :| m in live[pid] && k.1 in PrefixList(m) && t[k] == EntryOf(m);
        assert m !in stale;
      }
    }
    forall q | q in live' ensures (q, DUMMY) in t' {
      if (q, DUMMY) in ks {
        var m :| m in stale && DUMMY in PrefixList(m);
        PrefixInside(m, DUMMY);
      }
    }
    if (forall m | m in stale :: m !in kept) && (forall m | m in kept :: m in live[pid])
       && Complete(t, pid, live[pid]) {
      forall m, p | m in kept && p in PrefixList(m) ensures (pid, p) in t' {
        if (pid, p) in ks {
          var n :| n in stale && p in PrefixList(n);
          ApartPrefixes(m, n, p);
        }
      }
    }
  }

  /** Deleting a pid's dummy and prefixes leaves no entry of it. */
  lemma ExitTable(t: Table, live: map<PID, seq<Mapping>>, pid: PID)
    requires TableOk(t, live) && pid in live
    ensures TableOk(t - (Keys(pid, live[pid]) + {(pid, DUMMY)}), live - {pid})
  {
    hide PrefixList;
    var ks, live' := Keys(pid, live[pid]) + {(pid, DUMMY)}, live - {pid};
    var t' := t - ks;
    forall k | k in t' ensures k.0 in live' && EntryOk(t', k, live'[k.0]) {
      assert EntryOk(t, k, live[k.0]);
    }
  }

  // ----- Installing -----

  /** Installing prefixes that are not present adds exactly as many entries as it counts. */
  lemma {:induction false} InstallPrefixesCounts(t: Table, pid: PID, ps: seq<Prefix>, e: Entry, ok: Prefix -> bool)
    requires forall p | p in ps :: (pid, p) !in t
    requires forall i, j | 0 <= i < j < |ps| :: ps[i] != ps[j]
    ensures var r := InstallPrefixes(t, pid, ps, e, ok);
            && |r.0| == |t| + r.1
            && (forall k | k in r.0 :: (k in t && r.0[k] == t[k]) || (k.0 == pid && k.1 in ps && r.0[k] == e))
            && (forall k | k in t :: k in r.0)
            && ((forall p | p in ps :: ok(p)) ==> forall p | p in ps :: (pid, p) in r.0)
    decreases |ps|
  {
    if ps != [] && ok(ps[0]) {
      var t' := t[(pid, ps[0]) := e];
      assert t'.Keys == t.Keys + {(pid, ps[0])};
      forall p | p in ps[1..] ensures (pid, p) !in t' {
        var i :| 1 <= i < |ps| && ps[i] == p;
        assert ps[0] != ps[i];
      }
      InstallPrefixesCounts(t', pid, ps[1..], e, ok);
    }
  }

  lemma PrefixesDistinct(m: Mapping, i: nat, j: nat)
    requires ValidMapping(m) && i < j < |PrefixList(m)|
    ensures PrefixList(m)[i] != PrefixList(m)[j]
  {
    hide Blocks, Pow2;
    EndIsPlain(m);
    var bs := Blocks(m.vaddr, m.vaddr + m.length);
    LpmLaws.InOrder(m.vaddr, m.vaddr + m.length, i, j);
    LpmLaws.PowPositive(bs[i].exp);
  }

  lemma FreshPrefixes(t: Table, live: map<PID, seq<Mapping>>, pid: PID, m: Mapping, p: Prefix)
    requires TableOk(t, live) && pid in live && ValidMapping(m) && p in PrefixList(m)
    requires forall n | n in live[pid] :: ValidMapping(n) && Apart(m, n)
    ensures (pid, p) !in t
  {
    hide PrefixList;
    PrefixInside(m, p);
    if (pid, p) in t {
      assert EntryOk(t, (pid, p), live[pid]);
      var n :| n in live[pid] && p in PrefixList(n);
      ApartPrefixes(m, n, p);
    }
  }

  lemma InstalledEntries(t: Table, t': Table, live: map<PID, seq<Mapping>>, pid: PID, m: Mapping)
    requires TableOk(t, live) && pid in live && forall k | k in t :: k in t'
    requires forall k | k in t' ::
               (k in t && t'[k] == t[k]) || (k.0 == pid && k.1 in PrefixList(m) && t'[k] == EntryOf(m))
    ensures TableOk(t', live[pid := live[pid] + [m]])
  {
    hide PrefixList, EntryOf;
    var ms := live[pid] + [m];
    forall k | k in t' ensures k.0 in live[pid := ms] && EntryOk(t', k, live[pid := ms][k.0]) {
      if k in t && t'[k] == t[k] {
        assert EntryOk(t, k, live[k.0]);
        if k.1 != DUMMY {
          var n :| n in live[k.0] && k.1 in PrefixList(n) && t[k] == EntryOf(n);
          assert n in live[pid := ms][k.0];
        }
      } else {
        assert m in ms;
      }
    }
  }

  /** Every prefix of the mappings can be installed. */
  ghost predicate Accepts(ok: Prefix -> bool, ms: seq<Mapping>) {
    forall m, p | m in ms && p in PrefixList(m) :: ok(p)
  }

  lemma AcceptsParts(ok: Prefix -> bool, init: seq<Mapping>, last: Mapping)
    ensures Accepts(ok, init + [last]) ==> Accepts(ok, init) && Accepts(ok, [last])
  {
    hide PrefixList;
    var all := init + [last];
    assert last in all && forall m | m in init :: m in all;
  }

  lemma InstallMapping(t: Table, live: map<PID, seq<Mapping>>, pid: PID, m: Mapping, ok: Prefix -> bool)
    requires TableOk(t, live) && pid in live && ValidMapping(m)
    requires forall n | n in live[pid] :: ValidMapping(n) && Apart(m, n)
    ensures var r := InstallPrefixes(t, pid, PrefixList(m), EntryOf(m), ok);
            && TableOk(r.0, live[pid := live[pid] + [m]]) && |r.0| == |t| + r.1
            && (Accepts(ok, [m]) && Complete(t, pid, live[pid]) ==> Complete(r.0, pid, live[pid] + [m]))
  {
    hide InstallPrefixes, PrefixList, TableOk, EntryOf, ValidMapping;
    var ps := PrefixList(m);
    forall i, j | 0 <= i < j < |ps| ensures ps[i] != ps[j] { PrefixesDistinct(m, i, j); }
    forall p | p in ps ensures (pid, p) !in t { FreshPrefixes(t, live, pid, m, p); }
    InstallPrefixesCounts(t, pid, ps, EntryOf(m), ok);
    var t' := InstallPrefixes(t, pid, ps, EntryOf(m), ok).0;
    InstalledEntries(t, t', live, pid, m);
    assert m in [m];
  }

  lemma {:induction false} InstallAllTable(t: Table, live: map<PID, seq<Mapping>>, pid: PID, adds: seq<Mapping>,
                                           ok: Prefix -> bool)
    requires TableOk(t, live) && pid in live && GoodMaps(live[pid] + adds)
    ensures var r := InstallAll(t, pid, adds, ok);
            && TableOk(r.0, live[pid := live[pid] + adds]) && |r.0| == |t| + r.1
            && (Accepts(ok, adds) && Complete(t, pid, live[pid]) ==> Complete(r.0, pid, live[pid] + adds))
    decreases |adds|
  {
    hide TableOk, Complete, GoodMaps, InstallPrefixes, PrefixList, EntryOf, Accepts;
    if adds == [] {
      assert live[pid] + adds == live[pid];
      assert live[pid := live[pid]] == live;
    } else {
      var init, last := adds[..|adds| - 1], adds[|adds| - 1];
      var live' := live[pid := live[pid] + init];
      assert adds == init + [last];
      GoodInit(live[pid], init, last);
      assert live[pid] + adds == (live[pid] + init) + [last];
      AcceptsParts(ok, init, last);
      InstallAllTable(t, live, pid, init, ok);
      InstallMapping(InstallAll(t, pid, init, ok).0, live', pid, last, ok);
      assert live'[pid := live'[pid] + [last]] == live[pid := live[pid] + adds];
    }
  }

  lemma GoodInit(ms: seq<Mapping>, init: seq<Mapping>, last: Mapping)
    requires GoodMaps(ms + (init + [last]))
    ensures GoodMaps(ms + init) && ValidMapping(last)
    ensures forall n | n in ms + init :: ValidMapping(n) && Apart(last, n)
  {
    var all, front := ms + (init + [last]), ms + init;
    assert all == front + [last];
    assert last in all && forall n | n in front :: n in all;
    forall m ensures multiset(front)[m] <= 1 { assert multiset(all)[m] <= 1; }
    forall n | n in front ensures n != last {
      assert multiset(all)[last] <= 1;
      assert multiset(all) == multiset(front) + multiset{last};
    }
  }

  // ----- Longest-prefix lookup -----

  predicate Hits(t: Table, pid: PID, a: Word, p: Prefix) {
    (pid, p) in t && p.length <= 64 && LpmLaws.Matches(p, a)
  }

  /** p is the longest prefix of pid in the table that matches a. */
  ghost predicate IsLookup(t: Table, pid: PID, a: Word, p: Prefix) {
    Hits(t, pid, a, p) && forall q :: Hits(t, pid, a, q) ==> q.length <= p.length
  }

  /** Every lookup other than of address 0 answers with the file and bias of the one mapping of ms
      that contains the address, and there is an answer whenever there is such a mapping. */
  ghost predicate LookupsRight(t: Table, pid: PID, ms: seq<Mapping>) {
    && (forall a: Word, m | a != 0 && m in ms && m.Contains(a) :: Answered(t, pid, a))
    && (forall a: Word, p | a != 0 && IsLookup(t, pid, a, p) ::
          exists m :: m in ms && m.Contains(a) && t[(pid, p)] == EntryOf(m))
  }

  ghost predicate Answered(t: Table, pid: PID, a: Word) {
    exists p :: IsLookup(t, pid, a, p)
  }

  /** A matching prefix other than the dummy comes from the mapping around the address. */
  lemma HitInside(t: Table, live: map<PID, seq<Mapping>>, pid: PID, a: Word, p: Prefix) returns (m: Mapping)
    requires TableOk(t, live) && pid in live && GoodMaps(live[pid]) && Hits(t, pid, a, p) && p != DUMMY
    ensures m in live[pid] && p in PrefixList(m) && m.Contains(a) && t[(pid, p)] == EntryOf(m)
  {
    hide PrefixList, Pow2, Blocks;
    assert EntryOk(t, (pid, p), live[pid]);
    m :| m in live[pid] && p in PrefixList(m) && t[(pid, p)] == EntryOf(m);
    BlockMatch(m, p, a);
  }

  lemma BlockMatch(m: Mapping, p: Prefix, a: Word)
    requires ValidMapping(m) && p in PrefixList(m) && p.length <= 64 && LpmLaws.Matches(p, a)
    ensures m.Contains(a)
  {
    hide PrefixList, Pow2, Blocks;
    var b := PrefixFromBlock(m, p);
    LpmLaws.PrefixMatchesBlock(b, a);
  }

  lemma DummyHit(a: Word)
    ensures LpmLaws.Matches(DUMMY, a) <==> a == 0
  {
    assert Pow2(0) == 1;
  }

  /** The prefix of m whose block contains a. */
  lemma PrefixAt(m: Mapping, a: Word) returns (p: Prefix)
    requires ValidMapping(m) && m.Contains(a)
    ensures p in PrefixList(m) && p.length <= 64 && LpmLaws.Matches(p, a)
  {
    hide Pow2, Blocks;
    EndIsPlain(m);
    var end := m.vaddr + m.length;
    var i := LpmLaws.Covering(m.vaddr, end, a);
    var b := Blocks(m.vaddr, end)[i];
    LpmLaws.Greedy(m.vaddr, end, i);
    LpmLaws.PrefixMatchesBlock(b, a);
    p := PrefixOf(b);
    assert PrefixesOf(Blocks(m.vaddr, end))[i] == p;
  }

  /** Two prefixes of one mapping that match the same address are the same. */
  lemma SamePrefix(m: Mapping, p: Prefix, q: Prefix, a: Word)
    requires ValidMapping(m) && p in PrefixList(m) && q in PrefixList(m)
    requires p.length <= 64 && q.length <= 64 && LpmLaws.Matches(p, a) && LpmLaws.Matches(q, a)
    ensures p == q
  {
    hide Pow2, Blocks, PrefixList;
    var b := PrefixFromBlock(m, p);
    var c := PrefixFromBlock(m, q);
    LpmLaws.PrefixMatchesBlock(b, a);
    LpmLaws.PrefixMatchesBlock(c, a);
    var end := m.vaddr + m.length;
    var bs := Blocks(m.vaddr, end);
    var i :| 0 <= i < |bs| && bs[i] == b;
    var j :| 0 <= j < |bs| && bs[j] == c;
    if i < j { LpmLaws.InOrder(m.vaddr, end, i, j); }
    if j < i { LpmLaws.InOrder(m.vaddr, end, j, i); }
  }

  lemma OnlyAnswer(t: Table, live: map<PID, seq<Mapping>>, pid: PID, a: Word, m: Mapping, p: Prefix)
    requires TableOk(t, live) && pid in live && GoodMaps(live[pid]) && a != 0
    requires m in live[pid] && m.Contains(a) && p in PrefixList(m) && Hits(t, pid, a, p)
    ensures IsLookup(t, pid, a, p)
  {
    hide PrefixList, LpmLaws.Matches;
    forall q | Hits(t, pid, a, q) ensures q.length <= p.length {
      DummyHit(a);
      var n := HitInside(t, live, pid, a, q);
      assert n == m by { assert n != m ==> Apart(n, m); }
      SamePrefix(m, p, q, a);
    }
  }

  /** Some address of every prefix is not 0. */
  lemma NonZeroAddress(m: Mapping, p: Prefix) returns (a: Word)
    requires ValidMapping(m) && p in PrefixList(m)
    ensures a != 0 && p.length <= 64 && LpmLaws.Matches(p, a) && m.Contains(a)
  {
    hide Pow2, Blocks, PrefixList;
    var b := PrefixFromBlock(m, p);
    LpmLaws.PowPositive(b.exp);
    a := b.End() - 1;
    if b.key == 0 {
      TwoFits(m.length);
      Pow2Monotone(1, b.exp);
      assert Pow2(1) == 2 by { Pow2Of8(); }
    }
    LpmLaws.PrefixMatchesBlock(b, a);
  }

  /** Lookups are right exactly when no prefix of a recorded mapping is missing. */
  lemma LookupsRightIffComplete(t: Table, live: map<PID, seq<Mapping>>, pid: PID)
    requires TableOk(t, live) && pid in live && GoodMaps(live[pid])
    ensures LookupsRight(t, pid, live[pid]) <==> Complete(t, pid, live[pid])
  {
    hide PrefixList, LpmLaws.Matches, TableOk;
    var ms := live[pid];
    if Complete(t, pid, ms) {
      forall a: Word, m | a != 0 && m in ms && m.Contains(a) ensures Answered(t, pid, a) {
        var p := PrefixAt(m, a);
        OnlyAnswer(t, live, pid, a, m, p);
      }
      forall a: Word, p | a != 0 && IsLookup(t, pid, a, p)
        ensures exists m :: m in ms && m.Contains(a) && t[(pid, p)] == EntryOf(m)
      {
        DummyHit(a);
        var m := HitInside(t, live, pid, a, p);
      }
    }
    if LookupsRight(t, pid, ms) {
      forall m, p | m in ms && p in PrefixList(m) ensures (pid, p) in t {
        var a := NonZeroAddress(m, p);
        assert Answered(t, pid, a);
        var q :| IsLookup(t, pid, a, q);
        DummyHit(a);
        var n := HitInside(t, live, pid, a, q);
        assert n == m by { assert n != m ==> Apart(n, m); }
        SamePrefix(m, p, q, a);
      }
    }
  }

  /** Address 0 always finds the dummy, even inside a mapping. */
  lemma ZeroFindsDummy(t: Table, live: map<PID, seq<Mapping>>, pid: PID)
    requires TableOk(t, live) && pid in live && GoodMaps(live[pid])
    ensures IsLookup(t, pid, 0, DUMMY)
  {
    hide PrefixList;
    DummyHit(0);
  }

  /** Outside every mapping nothing but the dummy is found. */
  lemma NothingElsewhere(t: Table, live: map<PID, seq<Mapping>>, pid: PID, a: Word, p: Prefix)
    requires TableOk(t, live) && pid in live && GoodMaps(live[pid]) && Hits(t, pid, a, p)
    requires forall m | m in live[pid] :: !m.Contains(a)
    ensures p == DUMMY && a == 0
  {
    hide PrefixList, LpmLaws.Matches;
    DummyHit(a);
    if p != DUMMY { var m := HitInside(t, live, pid, a, p); }
  }
}
