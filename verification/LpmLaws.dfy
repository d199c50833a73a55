/** What the prefix list of a range is: an exact partition, the smallest one, at most 126 long. */
module LpmLaws {
  import opened Words
  import opened Lpm

  // ----- Partition -----

  lemma {:induction false} InOrder(start: Word, end: Word, i: nat, j: nat)
    requires i < j < |Blocks(start, end)|
    ensures Blocks(start, end)[i].End() <= Blocks(start, end)[j].key
    decreases j
  {
    var b := NextBlock(start, end);
    var rest := Blocks(b.End(), end);
    if i == 0 {
      assert rest[j - 1] in rest;
    } else {
      InOrder(b.End(), end, i - 1, j - 1);
    }
  }

  lemma {:induction false} Covering(start: Word, end: Word, a: int) returns (i: nat)
    requires start <= a < end
    ensures i < |Blocks(start, end)| && Blocks(start, end)[i].Contains(a)
    decreases end - start
  {
    var b := NextBlock(start, end);
    if a < b.End() {
      i := 0;
    } else {
      i := Covering(b.End(), end, a);
      i := i + 1;
    }
  }

  /** Every block is the largest aligned one that starts at its key and stays inside the range. */
  lemma {:induction false} Greedy(start: Word, end: Word, i: nat)
    requires i < |Blocks(start, end)|
    ensures var b := Blocks(start, end)[i];
            start <= b.key < end && b == NextBlock(b.key, end) && b.Aligned() && b.End() <= end
    decreases i
  {
    hide Pow2, FitExp;
    NextFits(start, end);
    var b := NextBlock(start, end);
    hide NextBlock;
    if i > 0 { Greedy(b.End(), end, i - 1); }
  }

  lemma NextFits(start: Word, end: Word)
    requires start < end
    ensures var b := NextBlock(start, end); b.key == start && b.Aligned() && start < b.End() <= end
  {
    PowPositive(NextBlock(start, end).exp);
  }

  ghost predicate Covered(bs: seq<Block>, a: int) {
    exists i | 0 <= i < |bs| :: bs[i].Contains(a)
  }

  /** The blocks are aligned, ascending, disjoint, and cover exactly [start, end). */
  lemma Partition(start: Word, end: Word)
    ensures var bs := Blocks(start, end);
            && (forall i | 0 <= i < |bs| :: bs[i].Aligned())
            && (forall i, j | 0 <= i < j < |bs| :: bs[i].End() <= bs[j].key)
            && (forall a :: start <= a < end <==> Covered(bs, a))
  {
    var bs := Blocks(start, end);
    forall i | 0 <= i < |bs| ensures bs[i].Aligned() { Greedy(start, end, i); }
    forall i, j | 0 <= i < j < |bs| ensures bs[i].End() <= bs[j].key { InOrder(start, end, i, j); }
    forall a ensures start <= a < end <==> Covered(bs, a) {
      if start <= a < end { var i := Covering(start, end, a); }
      if i :| 0 <= i < |bs| && bs[i].Contains(a) { Greedy(start, end, i); }
    }
  }

  /** A prefix matches an address exactly when its block contains it. */
  lemma PrefixMatchesBlock(b: Block, a: Word)
    requires b.Aligned() && b.exp <= 64 && b.End() <= 0x1_0000_0000_0000_0000
    ensures Matches(PrefixOf(b), a) <==> b.Contains(a)
  {
    var d := Pow2(b.exp);
    DivMod(a, d);
    DivMod(b.key, d);
    if a / d == b.key / d {
      assert a == b.key + a % d;
    }
    if b.Contains(a) {
      ModUnique(a, b.key / d, a - b.key, d);
    }
  }

  /** The leading `length` bits agree. */
  predicate Matches(p: Prefix, a: Word)
    requires p.length <= 64
  {
    a / Pow2(64 - p.length) == p.key / Pow2(64 - p.length)
  }

  // ----- Minimality -----

  lemma MulMonotone(a: int, b: int, d: nat)
    requires a <= b
    ensures a * d <= b * d
  {
    assert (b - a) * d >= 0;
    assert (b - a) * d == b * d - a * d;
  }

  lemma MulBelow(a: int, b: int, d: nat)
    requires a * d < b * d
    ensures a < b
  {
    if b <= a { MulMonotone(b, a, d); }
  }

  lemma NestedMultiples(i: int, j: int, c: int, d: nat, a: int)
    requires i * d <= a < i * d + d && j * d <= a < j * d + c * d
    ensures j * d <= i * d && i * d + d <= j * d + c * d
  {
    assert (i + 1) * d == i * d + d && (j + c) * d == j * d + c * d;
    MulBelow(j, i + 1, d);
    MulBelow(i, j + c, d);
    MulMonotone(j, i, d);
    MulMonotone(i + 1, j + c, d);
  }

  /** Aligned blocks that share an address are nested. */
  lemma Nested(small: Block, big: Block, a: int)
    requires small.Aligned() && big.Aligned() && small.exp <= big.exp
    requires small.Contains(a) && big.Contains(a)
    ensures big.key <= small.key && small.End() <= big.End()
  {
    hide Pow2;
    var d, e, c := small.Size(), big.Size(), Pow2(big.exp - small.exp);
    Pow2Split(small.exp, big.exp - small.exp);
    DivMod(small.key, d);
    DivMod(big.key, e);
    MulAssoc(big.key / e, c, d);
    assert e == c * d;
    NestedMultiples(small.key / d, (big.key / e) * c, c, d, a);
  }

  /** Aligned blocks inside [start, end) that together contain every address of it. */
  ghost predicate Cover(cs: seq<Block>, start: Word, end: Word) {
    && (forall c | c in cs :: c.Aligned() && start <= c.key && c.End() <= end)
    && (forall a | start <= a < end :: Covered(cs, a))
  }

  lemma SmallExp(c: Block, start: Word, end: Word)
    requires start <= c.key && c.End() <= end
    ensures c.exp <= 63
  {
    if c.exp >= 64 {
      Pow2Monotone(64, c.exp);
      Pow2Of64();
    }
  }

  /** Any block of a cover that contains a greedy key starts there. */
  lemma CoverStarts(cs: seq<Block>, start: Word, end: Word, i: nat, c: Block)
    requires Cover(cs, start, end) && i < |Blocks(start, end)| && c in cs
    requires c.Contains(Blocks(start, end)[i].key)
    ensures c.key == Blocks(start, end)[i].key
  {
    hide Blocks, Pow2;
    var b := Blocks(start, end)[i];
    Greedy(start, end, i);
    SmallExp(c, start, end);
    var m := Covering(start, end, c.key);
    hide Cover;
    var g := Blocks(start, end)[m];
    Greedy(start, end, m);
    PowPositive(c.exp);
    if m < i {
      InOrder(start, end, m, i);
      if c.exp <= g.exp {
        Nested(c, g, c.key);
      } else {
        Nested(g, c, c.key);
        assert g.key == c.key;
        FitExpIsLargest(c.key, end - c.key, 63, c.exp);
      }
    } else if m > i {
      InOrder(start, end, i, m);
      PowPositive(b.exp);
    }
  }

  lemma PowPositive(n: nat)
    ensures Pow2(n) >= 1
  {}

  function Keys(bs: seq<Block>): set<nat> {
    set b | b in bs :: b.key
  }

  lemma {:induction false} KeysAtMost(bs: seq<Block>)
    ensures |Keys(bs)| <= |bs|
    decreases |bs|
  {
    if bs != [] {
      var init, last := bs[..|bs| - 1], bs[|bs| - 1];
      KeysAtMost(init);
      assert bs == init + [last];
      assert Keys(bs) == Keys(init) + {last.key};
    }
  }

  lemma {:induction false} KeysExactly(bs: seq<Block>)
    requires forall i, j | 0 <= i < j < |bs| :: bs[i].key < bs[j].key
    ensures |Keys(bs)| == |bs|
    decreases |bs|
  {
    if bs != [] {
      var init, last := bs[..|bs| - 1], bs[|bs| - 1];
      KeysExactly(init);
      assert bs == init + [last];
      assert Keys(bs) == Keys(init) + {last.key};
      assert last.key !in Keys(init);
    }
  }

  lemma SubsetSize<T>(a: set<T>, b: set<T>)
    requires a <= b
    ensures |a| <= |b|
  {
    assert b == a + (b - a);
  }

  /** No cover of the range by aligned blocks inside it is smaller. */
  lemma Minimal(cs: seq<Block>, start: Word, end: Word)
    requires Cover(cs, start, end)
    ensures |Blocks(start, end)| <= |cs|
  {
    hide Blocks, Pow2;
    var bs := Blocks(start, end);
    forall i, j | 0 <= i < j < |bs| ensures bs[i].key < bs[j].key {
      InOrder(start, end, i, j);
      PowPositive(bs[i].exp);
    }
    forall k | k in Keys(bs) ensures k in Keys(cs) {
      var i :| 0 <= i < |bs| && bs[i].key == k;
      Greedy(start, end, i);
      assert Covered(cs, k);
      var j :| 0 <= j < |cs| && cs[j].Contains(k);
      CoverStarts(cs, start, end, i, cs[j]);
    }
    KeysExactly(bs);
    KeysAtMost(cs);
    SubsetSize(Keys(bs), Keys(cs));
  }

  /** The greedy blocks are themselves such a cover, so the bound is met. */
  lemma BlocksCover(start: Word, end: Word)
    ensures Cover(Blocks(start, end), start, end)
  {
    hide Blocks, Pow2;
    var bs := Blocks(start, end);
    forall c | c in bs ensures c.Aligned() && start <= c.key && c.End() <= end {
      var i :| 0 <= i < |bs| && bs[i] == c;
      Greedy(start, end, i);
    }
    forall a | start <= a < end ensures Covered(bs, a) {
      var i := Covering(start, end, a);
    }
  }

  // ----- Shape -----

  predicate Rising(bs: seq<Block>) { forall i, j | 0 <= i < j < |bs| :: bs[i].exp < bs[j].exp }

  predicate Falling(bs: seq<Block>) { forall i, j | 0 <= i < j < |bs| :: bs[i].exp > bs[j].exp }

  lemma PowBelow(a: nat, b: nat)
    requires Pow2(a) < Pow2(b)
    ensures a < b
  {
    if a >= b { Pow2Monotone(b, a); }
  }

  lemma AlignedNext(x: nat, e: nat)
    requires x % Pow2(e) == 0
    ensures (x + Pow2(e)) % Pow2(e) == 0
    ensures x % Pow2(e + 1) != 0 ==> (x + Pow2(e)) % Pow2(e + 1) == 0
  {
    assert Pow2(e + 1) == 2 * Pow2(e);
    hide Pow2;
    ModShift(x, 1, Pow2(e));
    NextMultiple(x, Pow2(e), x / Pow2(e));
  }

  /** Of two consecutive multiples of d, one is a multiple of 2d. */
  lemma NextMultiple(x: nat, d: nat, q: nat)
    requires d > 0 && x % d == 0 && q == x / d
    ensures x % (2 * d) == 0 || (x + d) % (2 * d) == 0
  {
    DivMod(x, d);
    var h := q / 2;
    if q % 2 == 0 {
      assert q == 2 * h;
      assert q * d == h * (2 * d) + 0;
      ModUnique(x, h, 0, 2 * d);
    } else {
      assert q == 2 * h + 1;
      assert q * d + d == (h + 1) * (2 * d) + 0;
      ModUnique(x + d, h + 1, 0, 2 * d);
    }
  }

  /** Once the room left is below the alignment, sizes only fall. */
  lemma {:induction false} Falls(cur: Word, end: Word, q: nat)
    requires cur <= end && cur % Pow2(q) == 0 && end - cur < Pow2(q)
    ensures Falling(Blocks(cur, end)) && forall b | b in Blocks(cur, end) :: b.exp < q
    decreases end - cur
  {
    if cur < end {
      hide Pow2;
      var b := NextBlock(cur, end);
      RoomAfter(cur, end, q);
      AlignedNext(cur, b.exp);
      Falls(b.End(), end, b.exp);
    }
  }

  lemma RoomAfter(cur: Word, end: Word, q: nat)
    requires cur < end && cur % Pow2(q) == 0 && end - cur < Pow2(q)
    ensures var b := NextBlock(cur, end); b.exp < q && end - b.End() < Pow2(b.exp)
  {
    hide Pow2;
    var b := NextBlock(cur, end);
    PowBelow(b.exp, q);
    DividesSmaller(cur, b.exp + 1, q);
    Limit(cur, end);
  }

  /** A block is not doubled because of the room or because of its alignment. */
  lemma Limit(cur: Word, end: Word)
    requires cur < end
    ensures var b := NextBlock(cur, end);
            end - b.End() < Pow2(b.exp) || (b.exp <= 62 && cur % Pow2(b.exp + 1) != 0)
  {
    var b := NextBlock(cur, end);
    assert Pow2(b.exp + 1) == 2 * Pow2(b.exp);
    if Pow2(b.exp + 1) <= end - cur && cur % Pow2(b.exp + 1) == 0 {
      SmallExp(Block(cur, b.exp + 1), cur, end);
      FitExpIsLargest(cur, end - cur, 63, b.exp + 1);
    } else if Pow2(b.exp + 1) <= end - cur {
      SmallExp(Block(cur, b.exp + 1), cur, end);
    }
  }

  lemma RisingCons(b: Block, bs: seq<Block>)
    requires Rising(bs) && forall x | x in bs :: b.exp < x.exp
    ensures Rising([b] + bs)
  {}

  lemma FallingCons(b: Block, bs: seq<Block>)
    requires Falling(bs) && forall x | x in bs :: b.exp > x.exp
    ensures Falling([b] + bs)
  {}

  lemma NotSmaller(x: nat, low: nat, e: nat)
    requires x % Pow2(low) == 0 && x % Pow2(e + 1) != 0
    ensures low <= e
  {
    if low > e { DividesSmaller(x, e + 1, low); }
  }

  /** Sizes rise strictly up to some position and fall strictly from there. */
  lemma {:induction false} Unimodal(cur: Word, end: Word, low: nat) returns (k: nat)
    requires cur <= end && cur % Pow2(low) == 0
    ensures k <= |Blocks(cur, end)|
    ensures Rising(Blocks(cur, end)[..k]) && Falling(Blocks(cur, end)[k..])
    ensures forall b | b in Blocks(cur, end)[..k] :: b.exp >= low
    ensures cur == 0 ==> k == 0
    decreases end - cur
  {
    hide Pow2, Rising, Falling;
    if cur >= end {
      k := 0;
      EmptyShapes();
    } else {
      var b := NextBlock(cur, end);
      var rest := Blocks(b.End(), end);
      assert Blocks(cur, end) == [b] + rest;
      Limit(cur, end);
      AlignedNext(cur, b.exp);
      ZeroMod(Pow2(b.exp + 1));
      if end - b.End() < Pow2(b.exp) {
        k := 0;
        EmptyShapes();
        Falls(b.End(), end, b.exp);
        FallingCons(b, rest);
        assert Blocks(cur, end)[0..] == [b] + rest;
      } else {
        NotSmaller(cur, low, b.exp);
        var k' := Unimodal(b.End(), end, b.exp + 1);
        k := k' + 1;
        RisingCons(b, rest[..k']);
        assert Blocks(cur, end)[..k] == [b] + rest[..k'];
        assert Blocks(cur, end)[k..] == rest[k'..];
      }
    }
  }

  lemma ZeroMod(d: nat)
    requires d > 0
    ensures 0 % d == 0
  {}

  lemma EmptyShapes()
    ensures Rising([]) && Falling([])
  {}

  lemma {:induction false} RisingLength(bs: seq<Block>, top: nat)
    requires Rising(bs) && forall b | b in bs :: b.exp < top
    ensures |bs| <= top
    decreases |bs|
  {
    if bs != [] {
      var init, last := bs[..|bs| - 1], bs[|bs| - 1];
      forall b | b in init ensures b.exp < last.exp {
        var i :| 0 <= i < |init| && init[i] == b;
        assert bs[i].exp < bs[|bs| - 1].exp;
      }
      RisingLength(init, last.exp);
      assert last in bs;
    }
  }

  lemma {:induction false} FallingLength(bs: seq<Block>, top: nat)
    requires Falling(bs) && forall b | b in bs :: b.exp < top
    ensures |bs| <= top
    decreases |bs|
  {
    if bs != [] {
      var head, tail := bs[0], bs[1..];
      forall b | b in tail ensures b.exp < head.exp {
        var i :| 0 <= i < |tail| && tail[i] == b;
        assert bs[0].exp > bs[i + 1].exp;
      }
      FallingLength(tail, head.exp);
      assert head in bs;
    }
  }

  /** Only a range that starts at 0 can use the block of size 2^63. */
  lemma HalfSpace(start: Word, end: Word, b: Block)
    requires b in Blocks(start, end) && start > 0
    ensures b.exp <= 62
  {
    hide Blocks, Pow2;
    var i :| 0 <= i < |Blocks(start, end)| && Blocks(start, end)[i] == b;
    Greedy(start, end, i);
    if b.exp == 63 { HalfSpaceKey(b, end); }
  }

  lemma HalfSpaceKey(b: Block, end: Word)
    requires b.exp == 63 && b.Aligned() && b.End() <= end
    ensures b.key == 0
  {
    hide Pow2;
    Pow2Of64();
  }

  /** Block sizes rise strictly and then fall strictly, and there are at most 126 of them. */
  lemma RiseThenFall(start: Word, end: Word)
    ensures var bs := Blocks(start, end);
            && (exists k | 0 <= k <= |bs| :: Rising(bs[..k]) && Falling(bs[k..]))
            && |bs| <= 126
  {
    hide Blocks, Pow2;
    var bs := Blocks(start, end);
    if start < end {
      assert start % Pow2(0) == 0 by { assert Pow2(0) == 1 by { PowZero(); } }
      var k := Unimodal(start, end, 0);
      if start > 0 {
        forall b | b in bs ensures b.exp < 63 { HalfSpace(start, end, b); }
        RisingLength(bs[..k], 63);
        FallingLength(bs[k..], 63);
      } else {
        forall b | b in bs[k..] ensures b.exp < 64 {}
        FallingLength(bs[k..], 64);
      }
    } else {
      NoneLeft(start, end);
      assert Rising(bs[..0]) && Falling(bs[0..]);
    }
  }

  lemma PowZero()
    ensures Pow2(0) == 1
  {}
}
