/** Splitting an address range into longest-prefix-match keys, as in lpm/lpm.go. */
module Lpm {
  import opened Words

  /** An aligned block of 2^exp addresses. */
  datatype Block = Block(key: nat, exp: nat)
  {
    function Size(): nat { Pow2(exp) }
    function End(): nat { key + Size() }
    predicate Contains(a: int) { key <= a < End() }
    predicate Aligned() { key % Size() == 0 }
  }

  /** A trie key and the number of its leading bits that count. */
  datatype Prefix = Prefix(key: Word, length: nat)

  datatype Result = Prefixes(list: seq<Prefix>) | EmptyRange

  // ----- Specification -----

  /** x & -x. */
  function RightmostSetBit(x: nat): nat {
    if x == 0 then 0 else if x % 2 == 1 then 1 else 2 * RightmostSetBit(x / 2)
  }

  function LeadingZeros64(x: Word): nat
    decreases 0x1_0000_0000_0000_0000 - x
  {
    if x == 0 then 64 else if x >= 0x8000_0000_0000_0000 then 0 else 1 + LeadingZeros64(2 * x)
  }

  /** The largest e <= most for which 2^e divides x and is at most room. */
  function FitExp(x: nat, room: nat, most: nat): (e: nat)
    requires room >= 1
    ensures e <= most && Pow2(e) <= room && x % Pow2(e) == 0
  {
    if most == 0 || (Pow2(most) <= room && x % Pow2(most) == 0) then most
    else FitExp(x, room, most - 1)
  }

  /** The next block of a range: as large as alignment and the remaining room allow. */
  function NextBlock(start: Word, end: Word): Block
    requires start < end
  {
    Block(start, FitExp(start, end - start, 63))
  }

  function Blocks(start: Word, end: Word): (bs: seq<Block>)
    ensures forall b | b in bs :: start <= b.key && b.End() <= end && b.exp <= 63
    decreases end - start
  {
    if start >= end then [] else
    var b := NextBlock(start, end);
    [b] + Blocks(b.End(), end)
  }

  function PrefixOf(b: Block): Prefix
    requires b.key < 0x1_0000_0000_0000_0000 && b.exp <= 64
  {
    Prefix(b.key, 64 - b.exp)
  }

  // ----- Powers of two -----

  lemma {:induction false} FitExpIsLargest(x: nat, room: nat, most: nat, e: nat)
    requires room >= 1 && e <= most && Pow2(e) <= room && x % Pow2(e) == 0
    ensures e <= FitExp(x, room, most)
    decreases most
  {
    if e < most { FitExpIsLargest(x, room, most - 1, e); }
  }

  lemma {:induction false} LeadingZerosOfPow2(k: nat)
    requires k <= 63
    ensures Pow2(k) < 0x1_0000_0000_0000_0000 && LeadingZeros64(Pow2(k)) == 63 - k
    decreases 63 - k
  {
    Pow2Of64();
    Pow2Monotone(k, 63);
    if k < 63 {
      Pow2Monotone(k, 62);
      Pow2Split(1, 62);
      LeadingZerosOfPow2(k + 1);
    }
  }

  lemma DividesSmaller(x: nat, a: nat, b: nat)
    requires a <= b && x % Pow2(b) == 0
    ensures x % Pow2(a) == 0
  {
    hide Pow2;
    Pow2Split(a, b - a);
    DivMod(x, Pow2(b));
    MulAssoc(x / Pow2(b), Pow2(b - a), Pow2(a));
    ModShift(0, (x / Pow2(b)) * Pow2(b - a), Pow2(a));
  }

  lemma HalveDivides(x: nat, v: nat)
    requires x % 2 == 0
    ensures (x / 2) % Pow2(v) == 0 <==> x % Pow2(v + 1) == 0
  {
    var h, d := x / 2, Pow2(v);
    if h % d == 0 {
      DivMod(h, d);
      assert x == (h / d) * (2 * d);
      ModUnique(x, h / d, 0, 2 * d);
    }
    if x % (2 * d) == 0 {
      DivMod(x, 2 * d);
      assert h == (x / (2 * d)) * d;
      ModUnique(h, x / (2 * d), 0, d);
    }
  }

  /** x & -x is the largest power of two dividing x. */
  lemma {:induction false} RightmostSetBitExp(x: nat) returns (v: nat)
    requires x > 0
    ensures RightmostSetBit(x) == Pow2(v) && x % Pow2(v) == 0 && x % Pow2(v + 1) != 0
    decreases x
  {
    if x % 2 == 1 {
      v := 0;
      assert Pow2(1) == 2;
    } else {
      v := RightmostSetBitExp(x / 2);
      HalveDivides(x, v);
      HalveDivides(x, v + 1);
      v := v + 1;
    }
  }

  /** getRightmostSetBit on machine words. */
  function Mask(x: bv64): bv64 { x & -x }

  function NatOf(x: bv64): nat { x as nat }

  lemma DoubledBits(y: bv64)
    requires y < 0x8000_0000_0000_0000
    ensures (y << 1) as nat == 2 * (y as nat)
  {}

  lemma DoubledAndOne(y: bv64)
    requires y < 0x8000_0000_0000_0000
    ensures ((y << 1) | 1) as nat == 2 * (y as nat) + 1
  {}

  lemma OddWord(x: bv64, y: bv64)
    requires x & 1 == 1 && y == x >> 1
    ensures x == (y << 1) | 1 && Mask(x) == 1 && y < 0x8000_0000_0000_0000
  {}

  lemma EvenWord(x: bv64, y: bv64)
    requires x & 1 == 0 && y == x >> 1
    ensures x == y << 1 && Mask(x) == Mask(y) << 1 && y < 0x8000_0000_0000_0000 && Mask(y) < 0x8000_0000_0000_0000
  {}

  lemma OddValue(x: bv64)
    requires x & 1 == 1
    ensures NatOf(x) % 2 == 1 && NatOf(Mask(x)) == 1
  {
    hide Mask;
    var y := x >> 1;
    OddWord(x, y);
    DoubledAndOne(y);
  }

  lemma EvenValue(x: bv64) returns (y: bv64)
    requires x & 1 == 0
    ensures NatOf(x) == 2 * NatOf(y) && NatOf(Mask(x)) == 2 * NatOf(Mask(y))
  {
    hide Mask;
    y := x >> 1;
    EvenWord(x, y);
    DoubledBits(y);
    DoubledBits(Mask(y));
  }

  lemma LowBit(x: bv64)
    ensures x & 1 == 1 || x & 1 == 0
  {}

  lemma ZeroWord(x: bv64)
    ensures x == 0 <==> NatOf(x) == 0
    ensures x == 0 ==> NatOf(Mask(x)) == 0
  {}

  /** The specification is what the source computes on machine words. */
  lemma {:induction false} RightmostSetBitIsMask(x: bv64)
    ensures NatOf(Mask(x)) == RightmostSetBit(NatOf(x))
    decreases NatOf(x)
  {
    hide Mask, NatOf;
    ZeroWord(x);
    LowBit(x);
    if x != 0 {
      if x & 1 == 1 {
        OddValue(x);
      } else {
        var y := EvenValue(x);
        RightmostSetBitIsMask(y);
      }
    }
  }

  /** On machine words: the bit kept by x & -x is set in x, alone, and lowest. */
  lemma RightmostSetBitMask(x: bv64)
    requires x != 0
    ensures var r := x & -x; r != 0 && x & r == r && r & (r - 1) == 0 && x & (r - 1) == 0
  {}

  // ----- The algorithm -----

  method CalculateRmb(currentVal: Word, end: Word) returns (rmb: Word)
    requires currentVal < end
    ensures rmb == NextBlock(currentVal, end).Size()
  {
    hide Pow2;
    ghost var k: nat := 63;
    var room := end - currentVal;
    Pow2Of64();
    if currentVal == 0 {
      rmb := 0x8000_0000_0000_0000;
    } else {
      ghost var v := RightmostSetBitExp(currentVal);
      ExpBelow64(currentVal, v);
      k := v;
      Pow2Monotone(k, 63);
      rmb := RightmostSetBit(currentVal);
      LargestBelow(currentVal, room, v);
    }
    while rmb > room
      invariant k <= 63 && rmb == Pow2(k) && currentVal % Pow2(k) == 0
      invariant FitExp(currentVal, room, 63) <= k
      decreases rmb
    {
      ghost var e := FitExp(currentVal, room, 63);
      HalfOf(k);
      rmb := rmb / 2;
      k := k - 1;
      DividesSmaller(currentVal, k, k + 1);
    }
    FitExpIsLargest(currentVal, room, 63, k);
  }

  lemma ExpBelow64(x: Word, v: nat)
    requires x > 0 && x % Pow2(v) == 0
    ensures v < 64
  {
    if v >= 64 {
      DividesSmaller(x, 64, v);
      Pow2Of64();
    }
  }

  lemma LargestBelow(x: nat, room: nat, v: nat)
    requires room >= 1 && x % Pow2(v + 1) != 0
    ensures FitExp(x, room, 63) <= v
  {
    var e := FitExp(x, room, 63);
    if e > v { DividesSmaller(x, v + 1, e); }
  }

  lemma HalfOf(k: nat)
    ensures k > 0 ==> Pow2(k) / 2 == Pow2(k - 1)
    ensures k == 0 ==> Pow2(k) == 1
  {}

  lemma TakeNext(all: seq<Block>, idx: nat, cur: Word, end: Word)
    requires cur < end && idx <= |all| && all[idx..] == Blocks(cur, end)
    ensures idx < |all| && all[idx] == NextBlock(cur, end) && all[idx].key == cur
    ensures all[idx].End() <= end && all[idx + 1..] == Blocks(all[idx].End(), end)
  {
    assert all[idx..][0] == all[idx] && all[idx..][1..] == all[idx + 1..];
  }

  lemma NoneLeft(cur: Word, end: Word)
    requires cur >= end
    ensures Blocks(cur, end) == []
  {}

  method CalculatePrefixList(start: Word, end: Word) returns (r: Result)
    ensures end <= start <==> r == EmptyRange
    ensures start < end ==> r == Prefixes(PrefixesOf(Blocks(start, end)))
  {
    hide Blocks, Pow2, NextBlock, LeadingZeros64, PrefixesOf;
    if end <= start { return EmptyRange; }
    ghost var all := Blocks(start, end);
    var listSize, currentVal: Word := 0, start;
    while currentVal < end
      invariant currentVal <= end && listSize <= |all| && all[listSize..] == Blocks(currentVal, end)
      decreases |all| - listSize
    {
      TakeNext(all, listSize, currentVal, end);
      listSize := listSize + 1;
      var rmb := CalculateRmb(currentVal, end);
      currentVal := currentVal + rmb;
    }
    NoneLeft(currentVal, end);
    var list := new Prefix[listSize](_ => Prefix(0, 0));
    var idx := 0;
    currentVal := start;
    while currentVal < end
      invariant currentVal <= end && idx <= |all| == list.Length && all[idx..] == Blocks(currentVal, end)
      invariant forall j | 0 <= j < idx :: list[j] == PrefixOf(all[j])
      decreases |all| - idx
    {
      TakeNext(all, idx, currentVal, end);
      LeadingZerosOfPow2(all[idx].exp);
      var rmb := CalculateRmb(currentVal, end);
      list[idx] := Prefix(currentVal, 1 + LeadingZeros64(rmb));
      currentVal := currentVal + rmb;
      idx := idx + 1;
    }
    NoneLeft(currentVal, end);
    assert list[..] == PrefixesOf(all);
    return Prefixes(list[..]);
  }

  function PrefixesOf(bs: seq<Block>): (ps: seq<Prefix>)
    requires forall b | b in bs :: b.key < 0x1_0000_0000_0000_0000 && b.exp <= 64
    ensures |ps| == |bs| && forall i | 0 <= i < |bs| :: ps[i] == PrefixOf(bs[i])
  {
    if bs == [] then [] else [PrefixOf(bs[0])] + PrefixesOf(bs[1..])
  }
}
