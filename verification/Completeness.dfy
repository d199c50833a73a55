/** Matching finds what it should: a pattern with constants for its captures, in any order of operands. */
module Completeness {
  import opened Expressions
  import opened Matching
  import opened OperandSort

  // ----- Sorting operands of distinct kinds -----

  predicate SameKind(a: Expr, b: Expr) {
    || (a.MemRef? && b.MemRef?)
    || (a.Op? && b.Op?)
    || (a.Named? && b.Named?)
    || (a.ImmediateCapture? && b.ImmediateCapture?)
    || (a.Immediate? && b.Immediate?)
    || (a.Cleared? && b.Cleared?)
    || (a.Extended? && b.Extended?)
  }

  /** No two operands are of the same kind, so that none have the same rank. */
  ghost predicate Distinct(os: seq<Expr>) {
    forall i, j | 0 <= i < j < |os| :: !SameKind(os[i], os[j])
  }

  lemma RankIsKind(a: Expr, b: Expr)
    ensures Rank(a) == Rank(b) <==> SameKind(a, b)
  {}

  lemma {:induction false} SameSorted(a: seq<Expr>, b: seq<Expr>)
    requires |a| == |b| && multiset(a) == multiset(b) && SortedByRank(a) && SortedByRank(b) && Distinct(a)
    ensures a == b
    decreases |a|
  {
    hide Rank, SortedByRank, Distinct;
    if a != [] {
      var n := |a| - 1;
      LastIsHighest(a, b);
      WithoutLast(a, b);
      SameSorted(a[..n], b[..n]);
      assert a == a[..n] + [a[n]];
      assert b == b[..n] + [b[n]];
    }
  }

  lemma WithoutLast(a: seq<Expr>, b: seq<Expr>)
    requires a != [] && |a| == |b| && multiset(a) == multiset(b) && a[|a| - 1] == b[|b| - 1]
    requires SortedByRank(a) && SortedByRank(b) && Distinct(a)
    ensures var n := |a| - 1;
            && multiset(a[..n]) == multiset(b[..n])
            && SortedByRank(a[..n]) && SortedByRank(b[..n]) && Distinct(a[..n])
  {
    hide Rank;
    BagWithoutLast(a);
    BagWithoutLast(b);
  }

  lemma BagWithoutLast(a: seq<Expr>)
    requires a != []
    ensures multiset(a[..|a| - 1]) == multiset(a) - multiset{a[|a| - 1]}
  {
    assert a == a[..|a| - 1] + [a[|a| - 1]];
  }

  lemma SameRank(a: seq<Expr>, i: nat, j: nat)
    requires Distinct(a) && i < |a| && j < |a| && Rank(a[i]) == Rank(a[j])
    ensures i == j
  {
    RankIsKind(a[i], a[j]);
    RankIsKind(a[j], a[i]);
    hide Rank, SameKind;
  }

  lemma Highest(a: seq<Expr>, x: Expr)
    requires x in a && SortedByRank(a)
    ensures Rank(x) <= Rank(a[|a| - 1])
  {
    hide Rank;
    var i :| 0 <= i < |a| && a[i] == x;
    if i < |a| - 1 { assert Rank(a[i]) <= Rank(a[|a| - 1]); }
  }

  lemma LastIsHighest(a: seq<Expr>, b: seq<Expr>)
    requires a != [] && |a| == |b| && multiset(a) == multiset(b) && SortedByRank(a) && SortedByRank(b) && Distinct(a)
    ensures a[|a| - 1] == b[|b| - 1]
  {
    hide Rank, SortedByRank;
    var n := |a| - 1;
    assert a[n] in multiset(b) && b[n] in multiset(a);
    Highest(b, a[n]);
    Highest(a, b[n]);
    var j :| 0 <= j < |a| && a[j] == b[n];
    SameRank(a, j, n);
  }

  lemma {:induction false} DistinctPermuted(a: seq<Expr>, b: seq<Expr>)
    requires multiset(a) == multiset(b) && Distinct(a)
    ensures Distinct(b)
  {
    SameLength(a, b);
    forall i, j | 0 <= i < j < |b| ensures !SameKind(b[i], b[j]) {
      assert b[i] in multiset(a) && b[j] in multiset(a);
      var k :| 0 <= k < |a| && a[k] == b[i];
      var l :| 0 <= l < |a| && a[l] == b[j];
      assert SameKind(b[i], b[j]) <==> SameKind(b[j], b[i]);
      hide SameKind;
      if k == l {
        Twice(b, i, j);
        Once(a, k);
      }
    }
  }

  lemma Twice(b: seq<Expr>, i: nat, j: nat)
    requires i < j < |b|
    ensures b[i] == b[j] ==> multiset(b)[b[i]] >= 2
  {
    assert b == b[..i] + [b[i]] + b[i + 1..j] + [b[j]] + b[j + 1..];
  }

  lemma Once(a: seq<Expr>, k: nat)
    requires k < |a| && Distinct(a)
    ensures multiset(a)[a[k]] == 1
  {
    hide Rank;
    var x, y := a[..k], a[k + 1..];
    assert a == x + [a[k]] + y;
    assert a[k] !in x && a[k] !in y;
  }

  /** Any order of operands of distinct kinds is sorted into the same list. */
  lemma RankedSame(a: seq<Expr>, b: seq<Expr>)
    requires multiset(a) == multiset(b) && Distinct(a)
    ensures Ranked(a) == Ranked(b)
  {
    hide Ranked, Rank;
    RankedSorts(a);
    RankedSorts(b);
    DistinctPermuted(a, Ranked(a));
    SameLength(Ranked(a), Ranked(b));
    SameSorted(Ranked(a), Ranked(b));
  }

  // ----- Instances -----

  /** The term is the pattern with constants for its captures, operands of a distinct kind each and in
      any order, and loads of any width. */
  ghost predicate Instance(e: Expr, p: Expr, c: Captures)
    decreases p, 0
  {
    match p
    case ImmediateCapture(id) => id in c && e == Immediate(c[id])
    case Immediate(_) => e == p
    case Named(_) => e == p
    case MemRef(segment, at, _) => e.MemRef? && e.segment == segment && Instance(e.at, at, c)
    case Extended(v, bits, sign) => e.Extended? && e.bits == bits && e.sign == sign && Instance(e.v, v, c)
    case Cleared(v, bits) => e.Cleared? && e.bits == bits && Instance(e.v, v, c)
    case Op(typ, ps) =>
      && e.Op? && e.typ == typ && Distinct(e.operands)
      && exists qs :: multiset(qs) == multiset(e.operands) && InstanceAll(qs, ps, c)
  }

  ghost predicate InstanceAll(qs: seq<Expr>, ps: seq<Expr>, c: Captures)
    decreases ps, 1
  {
    |qs| == |ps| && forall i | 0 <= i < |ps| :: Instance(qs[i], ps[i], c)
  }

  /** Constants take the place of captures, which rank next to each other. */
  lemma InstanceRank(e: Expr, p: Expr, c: Captures)
    requires Instance(e, p, c)
    ensures Rank(e) == if p.ImmediateCapture? then 5 else Rank(p)
  {}

  lemma SameOrder(q: Expr, p: Expr, q': Expr, p': Expr, c: Captures)
    requires Instance(q, p, c) && Instance(q', p', c) && Rank(q) != Rank(q')
    ensures Rank(q) <= Rank(q') <==> Rank(p) <= Rank(p')
  {
    InstanceRank(q, p, c);
    InstanceRank(q', p', c);
  }

  lemma {:induction false} InsertAligned(qs: seq<Expr>, ps: seq<Expr>, x: Expr, y: Expr, c: Captures)
    requires InstanceAll(qs, ps, c) && Instance(x, y, c) && forall q | q in qs :: Rank(q) != Rank(x)
    ensures InstanceAll(Insert(qs, x), Insert(ps, y), c)
    decreases |qs|
  {
    hide Rank, Instance;
    if qs != [] {
      var n := |qs| - 1;
      assert qs[n] in qs;
      SameOrder(qs[n], ps[n], x, y, c);
      if Rank(qs[n]) > Rank(x) { InsertAligned(qs[..n], ps[..n], x, y, c); }
    }
  }

  lemma {:induction false} RankedAligned(qs: seq<Expr>, ps: seq<Expr>, c: Captures)
    requires InstanceAll(qs, ps, c) && Distinct(qs)
    ensures InstanceAll(Ranked(qs), Ranked(ps), c)
    decreases |qs|
  {
    hide Rank, Instance, Insert;
    if qs != [] {
      var n := |qs| - 1;
      RankedAligned(qs[..n], ps[..n], c);
      forall q | q in Ranked(qs[..n]) ensures Rank(q) != Rank(qs[n]) {
        RankedFrom(qs[..n], q);
        RankIsKind(q, qs[n]);
      }
      InsertAligned(Ranked(qs[..n]), Ranked(ps[..n]), qs[n], ps[n], c);
    }
  }

  lemma RankedFrom(os: seq<Expr>, o: Expr)
    requires o in Ranked(os)
    ensures o in os
  {
    hide Ranked;
    RankedSorts(os);
    assert o in multiset(Ranked(os));
  }

  // ----- Completeness -----

  /** The cells of the bag hold the constants. */
  ghost predicate Holds(bag: multiset<nat>, caps: Captures, c: Captures) {
    forall id | id in bag :: id in caps && id in c && caps[id] == c[id]
  }

  lemma HoldsLater(a: multiset<nat>, b: multiset<nat>, caps: Captures, m: Matched, c: Captures)
    requires Linear(a + b) && Holds(a, caps, c) && Framed(b, caps, m) && Holds(b, m.caps, c)
    ensures Holds(a + b, m.caps, c)
  {
    forall id | id in a + b ensures id in m.caps && id in c && m.caps[id] == c[id] {
      if id in a {
        assert (a + b)[id] <= 1;
        assert SameCell(id, caps, m.caps);
      }
    }
  }

  lemma LinearParts(a: multiset<nat>, b: multiset<nat>)
    requires Linear(a + b)
    ensures Linear(a) && Linear(b)
  {
    forall id ensures a[id] <= 1 && b[id] <= 1 { assert (a + b)[id] <= 1; }
  }

  /** An instance of a pattern matches, and the constants are what is captured. */
  lemma {:induction false} MatchComplete(e: Expr, p: Expr, caps: Captures, c: Captures)
    requires Permutes(Ranked) && Instance(e, p, c) && Linear(Bag(p))
    ensures var m := Match(e, p, caps, Ranked); m.ok && Holds(Bag(p), m.caps, c)
    decreases p, 2
  {
    hide Ranked, Linear, Rank;
    match p
    case ImmediateCapture(id) =>
    case Immediate(_) =>
    case Named(_) =>
    case MemRef(_, at, _) => MatchComplete(e.at, at, caps, c);
    case Extended(v, _, _) => MatchComplete(e.v, v, caps, c);
    case Cleared(v, _) => MatchComplete(e.v, v, caps, c);
    case Op(typ, ps) => OperandsComplete(e, p, caps, c);
  }

  lemma {:induction false} OperandsComplete(e: Expr, p: Expr, caps: Captures, c: Captures)
    requires Permutes(Ranked) && p.Op? && Instance(e, p, c) && Linear(Bag(p))
    ensures var m := Match(e, p, caps, Ranked); m.ok && Holds(Bag(p), m.caps, c)
    decreases p, 1
  {
    hide Ranked, Linear, Rank, Permutes;
    var os, ps := e.operands, p.operands;
    var qs :| multiset(qs) == multiset(os) && InstanceAll(qs, ps, c);
    hide Instance;
    assert multiset(Ranked(os)) == multiset(os) && multiset(Ranked(ps)) == multiset(ps) by {
      RankedSorts(os);
      RankedSorts(ps);
    }
    SameLength(qs, os);
    SameLength(Ranked(os), os);
    SameLength(Ranked(ps), ps);
    RankedSame(os, qs);
    DistinctPermuted(os, qs);
    RankedAligned(qs, ps, c);
    PermutedBag(Ranked(ps), ps);
    forall y | y in Ranked(ps) ensures y in ps { RankedFrom(ps, y); }
    MatchAllComplete(Ranked(os), Ranked(ps), ps, caps, c);
  }

  lemma {:induction false} MatchAllComplete(os: seq<Expr>, ps: seq<Expr>, all: seq<Expr>, caps: Captures, c: Captures)
    requires Permutes(Ranked) && InstanceAll(os, ps, c) && Linear(BagAll(ps)) && forall p | p in ps :: p in all
    ensures var m := MatchAll(os, ps, caps, Ranked); m.ok && Holds(BagAll(ps), m.caps, c)
    decreases all, |ps|
  {
    hide Ranked, Linear, Rank, Instance, Bag, Match, Holds, Permutes;
    if ps == [] {
      NothingHeld(caps, c);
    } else {
      var n := |ps| - 1;
      LinearParts(BagAll(ps[..n]), Bag(ps[n]));
      MatchAllComplete(os[..n], ps[..n], all, caps, c);
      var m := MatchAll(os[..n], ps[..n], caps, Ranked);
      assert ps[n] in ps;
      var k :| 0 <= k < |all| && all[k] == ps[n];
      MatchComplete(os[n], ps[n], m.caps, c);
      MatchFrame(os[n], ps[n], m.caps, Ranked);
      HoldsLater(BagAll(ps[..n]), Bag(ps[n]), m.caps, Match(os[n], ps[n], m.caps, Ranked), c);
    }
  }

  lemma NothingHeld(caps: Captures, c: Captures)
    ensures Holds(multiset{}, caps, c)
  {}
}
