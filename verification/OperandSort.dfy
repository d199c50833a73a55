/** operands.Match as it runs: copy both operand lists, sort the copies in place, compare in order. */
module OperandSort {
  import opened Expressions
  import opened Matching

  /** cmpOrder: the coarse key operands are sorted by. */
  function Rank(e: Expr): nat {
    match e
    case MemRef(_, _, _) => 1
    case Op(_, _) => 2
    case Named(_) => 3
    case ImmediateCapture(_) => 4
    case Immediate(_) => 5
    case Cleared(_, _) => 6
    case Extended(_, _, _) => 0
  }

  predicate SortedByRank(os: seq<Expr>) {
    forall i, j | 0 <= i < j < |os| :: Rank(os[i]) <= Rank(os[j])
  }

  /** x put behind every element of no higher rank. */
  function Insert(os: seq<Expr>, x: Expr): seq<Expr> {
    if os == [] || Rank(os[|os| - 1]) <= Rank(x) then os + [x]
    else Insert(os[..|os| - 1], x) + [os[|os| - 1]]
  }

  function Ranked(os: seq<Expr>): seq<Expr> {
    if os == [] then [] else Insert(Ranked(os[..|os| - 1]), os[|os| - 1])
  }

  lemma {:induction false} InsertIsPermutation(os: seq<Expr>, x: Expr)
    ensures multiset(Insert(os, x)) == multiset(os) + multiset{x}
    decreases |os|
  {
    if os != [] && Rank(os[|os| - 1]) > Rank(x) {
      InsertIsPermutation(os[..|os| - 1], x);
      assert os == os[..|os| - 1] + [os[|os| - 1]];
    }
  }

  lemma InsertedFrom(os: seq<Expr>, x: Expr, o: Expr)
    requires o in Insert(os, x)
    ensures o == x || o in os
  {
    InsertIsPermutation(os, x);
    assert o in multiset(Insert(os, x));
  }

  lemma {:induction false} InsertKeepsSorted(os: seq<Expr>, x: Expr)
    requires SortedByRank(os)
    ensures SortedByRank(Insert(os, x))
    decreases |os|
  {
    hide Rank;
    if os != [] && Rank(os[|os| - 1]) > Rank(x) {
      var init, last := os[..|os| - 1], os[|os| - 1];
      InsertKeepsSorted(init, x);
      var r := Insert(init, x);
      forall i | 0 <= i < |r| ensures Rank(r[i]) <= Rank(last) {
        InsertedFrom(init, x, r[i]);
      }
    }
  }

  lemma {:induction false} RankedSorts(os: seq<Expr>)
    ensures multiset(Ranked(os)) == multiset(os) && SortedByRank(Ranked(os))
    decreases |os|
  {
    hide Rank, Insert;
    if os != [] {
      RankedSorts(os[..|os| - 1]);
      InsertIsPermutation(Ranked(os[..|os| - 1]), os[|os| - 1]);
      InsertKeepsSorted(Ranked(os[..|os| - 1]), os[|os| - 1]);
      assert os == os[..|os| - 1] + [os[|os| - 1]];
    }
  }

  lemma RankedPermutes()
    ensures Permutes(Ranked)
  {
    forall os ensures multiset(Ranked(os)) == multiset(os) { RankedSorts(os); }
  }

  lemma {:induction false} InsertBefore(os: seq<Expr>, x: Expr, j: nat)
    requires j <= |os| && (j > 0 ==> Rank(os[j - 1]) <= Rank(x))
    requires forall k | j <= k < |os| :: Rank(os[k]) > Rank(x)
    ensures Insert(os, x) == os[..j] + [x] + os[j..]
    decreases |os|
  {
    if j == |os| {
      assert os[..j] == os;
    } else {
      var init := os[..|os| - 1];
      InsertBefore(init, x, j);
      assert init[..j] == os[..j] && init[j..] + [os[|os| - 1]] == os[j..];
    }
  }

  /** The inner loop: swap the element at i down past the elements of higher rank. */
  method SinkInto(a: array<Expr>, i: nat)
    requires i < a.Length
    modifies a
    ensures a[..i + 1] == Insert(old(a[..i]), old(a[i])) && a[i + 1..] == old(a[i + 1..])
  {
    hide Rank;
    ghost var sorted, x := a[..i], a[i];
    var j := i;
    while j > 0 && Rank(a[j]) < Rank(a[j - 1])
      invariant 0 <= j <= i && a[j] == x
      invariant forall k | 0 <= k < j :: a[k] == sorted[k]
      invariant forall k | j < k <= i :: a[k] == sorted[k - 1] && Rank(a[k]) > Rank(x)
      invariant forall k | i < k < a.Length :: a[k] == old(a[k])
    {
      a[j], a[j - 1] := a[j - 1], a[j];
      j := j - 1;
    }
    assert a[..i + 1] == sorted[..j] + [x] + sorted[j..];
    forall k | j <= k < i ensures Rank(sorted[k]) > Rank(x) { assert a[k + 1] == sorted[k]; }
    InsertBefore(sorted, x, j);
  }

  method SortByRank(a: array<Expr>)
    modifies a
    ensures a[..] == Ranked(old(a[..]))
  {
    ghost var was := a[..];
    for i := 0 to a.Length
      invariant a[..i] == Ranked(was[..i]) && a[i..] == was[i..]
    {
      assert a[i] == a[i..][0] == was[i] && a[i + 1..] == a[i..][1..] == was[i + 1..];
      assert was[..i + 1][..i] == was[..i];
      SinkInto(a, i);
    }
    assert a[..a.Length] == a[..] && was[..a.Length] == was;
  }

  /** Neither list is touched: the method may modify nothing that existed before. */
  method MatchOperands(os: array<Expr>, other: array<Expr>, caps: Captures) returns (m: Matched)
    ensures Permutes(Ranked)
    ensures os.Length != other.Length ==> m == Matched(false, caps)
    ensures os.Length == other.Length ==>
              multiset(Ranked(os[..])) == multiset(os[..]) && |Ranked(os[..])| == |Ranked(other[..])| &&
              m == MatchAll(Ranked(os[..]), Ranked(other[..]), caps, Ranked)
  {
    RankedPermutes();
    if os.Length != other.Length { return Matched(false, caps); }
    SameLength(Ranked(os[..]), os[..]);
    SameLength(Ranked(other[..]), other[..]);
    var osCopy := RankedCopy(os);
    var otherCopy := RankedCopy(other);
    m := CompareInOrder(osCopy, otherCopy, caps);
  }

  method RankedCopy(os: array<Expr>) returns (copy: array<Expr>)
    ensures fresh(copy) && copy[..] == Ranked(os[..])
  {
    copy := new Expr[os.Length](i requires 0 <= i < os.Length reads os => os[i]);
    assert copy[..] == os[..];
    SortByRank(copy);
  }

  method CompareInOrder(os: array<Expr>, ps: array<Expr>, caps: Captures) returns (m: Matched)
    requires os.Length == ps.Length && Permutes(Ranked)
    ensures m == MatchAll(os[..], ps[..], caps, Ranked)
  {
    m := Matched(true, caps);
    for i := 0 to os.Length
      invariant m == MatchAll(os[..i], ps[..i], caps, Ranked) && m.ok
    {
      assert os[..i + 1][..i] == os[..i] && ps[..i + 1][..i] == ps[..i];
      m := Match(os[i], ps[i], m.caps, Ranked);
      if !m.ok {
        assert os[..][..i + 1] == os[..i + 1] && ps[..][..i + 1] == ps[..i + 1];
        StopsEarly(os[..], ps[..], i + 1, caps);
        return;
      }
    }
    assert os[..os.Length] == os[..] && ps[..os.Length] == ps[..];
  }

  /** A failure on a prefix is the failure of the whole. */
  lemma {:induction false} StopsEarly(os: seq<Expr>, ps: seq<Expr>, n: nat, caps: Captures)
    requires |os| == |ps| && n <= |os| && Permutes(Ranked)
    requires !MatchAll(os[..n], ps[..n], caps, Ranked).ok
    ensures MatchAll(os, ps, caps, Ranked) == MatchAll(os[..n], ps[..n], caps, Ranked)
    decreases |os|
  {
    if n == |os| {
      assert os[..n] == os && ps[..n] == ps;
    } else {
      assert os[..|os| - 1][..n] == os[..n] && ps[..|os| - 1][..n] == ps[..n];
      StopsEarly(os[..|os| - 1], ps[..|os| - 1], n, caps);
    }
  }
}
