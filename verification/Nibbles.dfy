/** The .NET runtime's nibble encoding, and the search of a method's bounds encoded in it. */
module Nibbles {
  type Nibble = x: int | 0 <= x < 16
  type Byte = x: int | 0 <= x < 256
  type Word32 = x: int | 0 <= x < 0x1_0000_0000

  // ----- Streams of nibbles -----

  /** Low nibble first. */
  function NibblesOf(bs: seq<Byte>): seq<Nibble> {
    if bs == [] then [] else [bs[0] % 16, bs[0] / 16] + NibblesOf(bs[1..])
  }

  /** The nibbles left, or a stream on which reading has failed. */
  datatype Stream = Stream(left: seq<Nibble>, failed: bool)

  function Take(s: Stream): (Nibble, Stream) {
    if s.failed then (0, s) else if s.left == [] then (0, s.(failed := true)) else (s.left[0], s.(left := s.left[1..]))
  }

  /** Three bits per nibble, the most significant first; bit 3 says that more follow. */
  function Number(s: Stream, val: Word32, more: nat): (Word32, Stream)
    decreases more
  {
    if more == 0 then (0, s.(failed := true)) else
    var (n, s') := Take(s);
    var val' := (val * 8 + n % 8) % 0x1_0000_0000;
    if n < 8 then (val', s') else Number(s', val', more - 1)
  }

  const MAX_NIBBLES := 11

  function Decode(s: Stream): (Word32, Stream) { Number(s, 0, MAX_NIBBLES) }

  // ----- Encoding -----

  /** The groups of three bits of x, all marked as followed by more. */
  function Leading(x: nat): seq<Nibble> {
    if x == 0 then [] else Leading(x / 8) + [8 + x % 8]
  }

  function Encode(x: Word32): seq<Nibble> { Leading(x / 8) + [x % 8] }

  function Pow8(n: nat): nat { if n == 0 then 1 else 8 * Pow8(n - 1) }

  lemma {:induction false} LeadingLength(x: nat, n: nat)
    requires x < Pow8(n)
    ensures |Leading(x)| <= n
    decreases x
  {
    if x > 0 { LeadingLength(x / 8, n - 1); }
  }

  lemma GroupRead(x: Word32, rest: seq<Nibble>, more: nat)
    requires more > 0
    ensures Number(Stream([8 + x % 8] + rest, false), x / 8, more) == Number(Stream(rest, false), x, more - 1)
  {
    assert ([8 + x % 8] + rest)[1..] == rest;
    assert (8 + x % 8) % 8 == x % 8 && (x / 8 * 8 + x % 8) % 0x1_0000_0000 == x;
  }

  lemma {:induction false} LeadingRead(x: Word32, rest: seq<Nibble>, more: nat)
    requires |Leading(x)| < more
    ensures Number(Stream(Leading(x) + rest, false), 0, more) == Number(Stream(rest, false), x, more - |Leading(x)|)
    decreases x
  {
    hide Number;
    if x == 0 {
      assert [] + rest == rest;
    } else {
      LeadingRead(x / 8, [8 + x % 8] + rest, more);
      assert Leading(x) + rest == Leading(x / 8) + ([8 + x % 8] + rest);
      GroupRead(x, rest, more - |Leading(x / 8)|);
    }
  }

  lemma LastRead(x: Word32, rest: seq<Nibble>, more: nat)
    requires more > 0
    ensures Number(Stream([x % 8] + rest, false), x / 8, more) == (x, Stream(rest, false))
  {
    assert ([x % 8] + rest)[1..] == rest;
    assert (x / 8 * 8 + x % 8 % 8) % 0x1_0000_0000 == x;
  }

  /** Decoding inverts the encoding of every 32-bit number, whatever follows it. */
  lemma DecodeEncode(x: Word32, rest: seq<Nibble>)
    ensures Decode(Stream(Encode(x) + rest, false)) == (x, Stream(rest, false))
  {
    hide Number, Leading, Pow8;
    PowersOf8();
    LeadingLength(x / 8, 10);
    LeadingRead(x / 8, [x % 8] + rest, MAX_NIBBLES);
    assert Encode(x) + rest == Leading(x / 8) + ([x % 8] + rest);
    LastRead(x, rest, MAX_NIBBLES - |Leading(x / 8)|);
  }

  /** Reading fails exactly when none of the next eleven nibbles ends a number. */
  lemma {:induction false} NumberFails(ns: seq<Nibble>, val: Word32, more: nat)
    ensures Number(Stream(ns, false), val, more).1.failed <==> forall k | 0 <= k < |ns| && k < more :: ns[k] >= 8
    decreases more
  {
    if more > 0 && ns != [] && ns[0] >= 8 {
      var val' := (val * 8 + ns[0] % 8) % 0x1_0000_0000;
      NumberFails(ns[1..], val', more - 1);
      forall k | 0 < k < |ns| ensures ns[1..][k - 1] == ns[k] {}
    }
  }

  lemma DecodeFails(ns: seq<Nibble>)
    ensures Decode(Stream(ns, false)).1.failed <==> forall k | 0 <= k < |ns| && k < 11 :: ns[k] >= 8
  {
    NumberFails(ns, 0, MAX_NIBBLES);
  }

  /** Nibbles packed two to a byte, the earlier one in the lower half. */
  function Packed(ns: seq<Nibble>): seq<Byte> {
    if ns == [] then [] else if |ns| == 1 then [ns[0]] else
    var low: int, high: int := ns[0], ns[1];
    [low + 16 * high] + Packed(ns[2..])
  }

  lemma {:induction false} PackedNibbles(ns: seq<Nibble>)
    ensures ns <= NibblesOf(Packed(ns))
    decreases |ns|
  {
    if |ns| > 1 {
      PackedNibbles(ns[2..]);
      assert Packed(ns)[1..] == Packed(ns[2..]);
      assert ns == [ns[0], ns[1]] + ns[2..];
    }
  }

  lemma PowersOf8()
    ensures Pow8(10) == 0x4000_0000
  {
    assert Pow8(2) == 64;
    assert Pow8(4) == 4096;
    assert Pow8(6) == 0x4_0000;
    assert Pow8(8) == 0x100_0000;
  }

  // ----- The reader -----

  class NibbleReader {
    const data: seq<Byte>
    var pos: nat
    var cachedNibble: Byte
    var err: bool

    /** The cached nibble has its upper half set, so that 0 means none. */
    predicate Valid()
      reads this
    {
      pos <= |data| && (cachedNibble == 0 || cachedNibble >= 0xf0)
    }

    function View(): Stream
      requires Valid()
      reads this
    {
      Stream((if cachedNibble != 0 then [cachedNibble % 16] else []) + NibblesOf(data[pos..]), err)
    }

    constructor (data: seq<Byte>)
      ensures Valid() && View() == Stream(NibblesOf(data), false)
    {
      this.data, pos, cachedNibble, err := data, 0, 0, false;
      new;
      assert data[0..] == data;
    }

    method ReadNibble() returns (n: Nibble)
      requires Valid()
      modifies this
      ensures Valid() && (n, View()) == Take(old(View()))
    {
      if err { return 0; }
      if cachedNibble != 0 {
        n := cachedNibble % 16;
        cachedNibble := 0;
        assert old(View()).left[1..] == View().left;
        return;
      }
      if pos == |data| {
        err := true;
        return 0;
      }
      var b := data[pos];
      assert data[pos..][1..] == data[pos + 1..];
      pos := pos + 1;
      n := b % 16;
      cachedNibble := 0xf0 + b / 16;
      assert cachedNibble % 16 == b / 16;
      assert old(View()).left == [b % 16, b / 16] + NibblesOf(data[pos..]);
      assert old(View()).left[1..] == View().left;
    }

    method Uint32() returns (r: Word32)
      requires Valid()
      modifies this
      ensures Valid() && (r, View()) == Decode(old(View()))
    {
      var val: Word32 := 0;
      for i := 0 to MAX_NIBBLES
        invariant Valid() && Decode(old(View())) == Number(View(), val, MAX_NIBBLES - i)
      {
        var n := ReadNibble();
        val := (val * 8 + n % 8) % 0x1_0000_0000;
        if n < 8 { return val; }
      }
      err := true;
      return 0;
    }
  }

  // ----- Bounds of a method -----

  /** Offset from the native offset before, IL offset shifted by the special values, source flags. */
  datatype Bound = Bound(delta: Word32, il: Word32, flags: Word32)

  function Int32(x: int): int {
    var m := x % 0x1_0000_0000;
    if m < 0x8000_0000 then m else m - 0x1_0000_0000
  }

  predicate IsCall(flags: Word32) { flags / 16 % 2 == 1 }

  function NextIL(il: Word32, x: Word32): Word32 { if Int32(x - 3) >= 0 then Int32(x - 3) else il }

  /** Native offset of the last of the bounds. */
  function Native(bs: seq<Bound>): Word32 {
    if bs == [] then 0 else (Native(bs[..|bs| - 1]) + bs[|bs| - 1].delta) % 0x1_0000_0000
  }

  function NativeAt(bs: seq<Bound>, k: nat): Word32
    requires k < |bs|
  {
    Native(bs[..k + 1])
  }

  /** IL offset of the last bound that has one. */
  function LastIL(bs: seq<Bound>): Word32 {
    if bs == [] then 0 else NextIL(LastIL(bs[..|bs| - 1]), bs[|bs| - 1].il)
  }

  /** IL offset in force at the last call instruction. */
  function LastCall(bs: seq<Bound>): Word32 {
    if bs == [] then 0 else if IsCall(bs[|bs| - 1].flags) then LastIL(bs) else LastCall(bs[..|bs| - 1])
  }

  predicate Beyond(native: Word32, pc: Word32, findCall: bool) { if findCall then native >= pc else native > pc }

  /** The first bound at or after i that is beyond the native offset, or the number of bounds. */
  function FirstBeyond(bs: seq<Bound>, pc: Word32, findCall: bool, i: nat): (j: nat)
    requires i <= |bs|
    ensures i <= j <= |bs| && (j < |bs| ==> Beyond(NativeAt(bs, j), pc, findCall))
    ensures forall k | i <= k < j :: !Beyond(NativeAt(bs, k), pc, findCall)
    decreases |bs| - i
  {
    if i == |bs| || Beyond(NativeAt(bs, i), pc, findCall) then i else FirstBeyond(bs, pc, findCall, i + 1)
  }

  /** What is in force before bound j; nothing when there is no such bound. */
  function InForce(bs: seq<Bound>, j: nat, findCall: bool): Word32
    requires j <= |bs|
  {
    if j == |bs| then 0 else if findCall then LastCall(bs[..j]) else LastIL(bs[..j])
  }

  /** The answer from the decoded list: what is in force before the first bound beyond. */
  function Search(bs: seq<Bound>, pc: Word32, findCall: bool): Word32 {
    InForce(bs, FirstBeyond(bs, pc, findCall, 0), findCall)
  }

  // ----- The search while decoding -----

  function Walk(s: Stream, n: nat, native: Word32, il: Word32, call: Word32, pc: Word32, findCall: bool): Word32
    decreases n
  {
    if n == 0 then 0 else
    var (delta, s1) := Decode(s);
    var native' := (native + delta) % 0x1_0000_0000;
    if findCall && native' >= pc then call
    else if native' > pc then il else
    var (x, s2) := Decode(s1);
    var il' := NextIL(il, x);
    var (flags, s3) := Decode(s2);
    var call' := if IsCall(flags) then il' else call;
    if s3.failed then 0 else Walk(s3, n - 1, native', il', call', pc, findCall)
  }

  method MapPCOffsetToILOffset(boundsInfo: seq<Byte>, pcOffset: Word32, findCall: bool) returns (r: Word32)
    ensures var (n, s) := Decode(Stream(NibblesOf(boundsInfo), false));
            r == Walk(s, n, 0, 0, 0, pcOffset, findCall)
  {
    hide Decode, NextIL, IsCall;
    var nr := new NibbleReader(boundsInfo);
    var numEntries := nr.Uint32();
    var nativeOffset: Word32, ilOffset: Word32, lastCallILOffset: Word32 := 0, 0, 0;
    ghost var start := nr.View();
    for i := 0 to numEntries
      invariant nr.Valid() && fresh(nr)
      invariant Walk(start, numEntries, 0, 0, 0, pcOffset, findCall) ==
                Walk(nr.View(), numEntries - i, nativeOffset, ilOffset, lastCallILOffset, pcOffset, findCall)
    {
      var delta := nr.Uint32();
      nativeOffset := (nativeOffset + delta) % 0x1_0000_0000;
      if findCall && nativeOffset >= pcOffset {
        return lastCallILOffset;
      } else if nativeOffset > pcOffset {
        return ilOffset;
      }
      var x := nr.Uint32();
      ilOffset := NextIL(ilOffset, x);
      var sourceFlags := nr.Uint32();
      if IsCall(sourceFlags) { lastCallILOffset := ilOffset; }
      if nr.err { break; }
    }
    return 0;
  }

  // ----- Streaming against decoding first -----

  function EncodeBounds(bs: seq<Bound>): seq<Nibble> {
    if bs == [] then [] else Encode(bs[0].delta) + Encode(bs[0].il) + Encode(bs[0].flags) + EncodeBounds(bs[1..])
  }

  lemma DecodeBound(b: Bound, more: seq<Nibble>)
    ensures var s := Stream(Encode(b.delta) + Encode(b.il) + Encode(b.flags) + more, false);
            var (d, s1) := Decode(s); var (x, s2) := Decode(s1); var (f, s3) := Decode(s2);
            Bound(d, x, f) == b && s3 == Stream(more, false)
  {
    hide Decode, Encode;
    DecodeEncode(b.delta, Encode(b.il) + Encode(b.flags) + more);
    DecodeEncode(b.il, Encode(b.flags) + more);
    DecodeEncode(b.flags, more);
    assert Encode(b.delta) + Encode(b.il) + Encode(b.flags) + more ==
           Encode(b.delta) + (Encode(b.il) + Encode(b.flags) + more);
    assert Encode(b.il) + Encode(b.flags) + more == Encode(b.il) + (Encode(b.flags) + more);
  }

  lemma WalkStep(b: Bound, more: seq<Nibble>, n: nat, native: Word32, il: Word32, call: Word32, pc: Word32,
                 findCall: bool)
    requires n > 0
    ensures var native' := (native + b.delta) % 0x1_0000_0000;
            var il' := NextIL(il, b.il);
            Walk(Stream(Encode(b.delta) + Encode(b.il) + Encode(b.flags) + more, false), n, native, il, call, pc,
                 findCall)
            == if Beyond(native', pc, findCall) then (if findCall then call else il)
               else Walk(Stream(more, false), n - 1, native', il', if IsCall(b.flags) then il' else call, pc, findCall)
  {
    hide Decode, Encode, NextIL, IsCall;
    DecodeBound(b, more);
  }

  lemma Extended(bs: seq<Bound>, i: nat)
    requires i < |bs|
    ensures Native(bs[..i + 1]) == (Native(bs[..i]) + bs[i].delta) % 0x1_0000_0000
    ensures LastIL(bs[..i + 1]) == NextIL(LastIL(bs[..i]), bs[i].il)
    ensures LastCall(bs[..i + 1]) == if IsCall(bs[i].flags) then LastIL(bs[..i + 1]) else LastCall(bs[..i])
  {
    hide NextIL, IsCall;
    assert bs[..i + 1][..i] == bs[..i];
  }

  lemma EncodedFrom(bs: seq<Bound>, i: nat, rest: seq<Nibble>)
    requires i < |bs|
    ensures EncodeBounds(bs[i..]) + rest ==
            Encode(bs[i].delta) + Encode(bs[i].il) + Encode(bs[i].flags) + (EncodeBounds(bs[i + 1..]) + rest)
  {
    hide Encode;
    assert bs[i..][1..] == bs[i + 1..];
  }

  function WalkFrom(bs: seq<Bound>, i: nat, rest: seq<Nibble>, pc: Word32, findCall: bool): Word32
    requires i <= |bs|
  {
    Walk(Stream(EncodeBounds(bs[i..]) + rest, false), |bs| - i, Native(bs[..i]), LastIL(bs[..i]), LastCall(bs[..i]),
         pc, findCall)
  }

  lemma WalkFromStep(bs: seq<Bound>, i: nat, rest: seq<Nibble>, pc: Word32, findCall: bool)
    requires i < |bs|
    ensures WalkFrom(bs, i, rest, pc, findCall) ==
            if Beyond(NativeAt(bs, i), pc, findCall) then InForce(bs, i, findCall)
            else WalkFrom(bs, i + 1, rest, pc, findCall)
  {
    hide Encode, NextIL, IsCall, Walk, Native, LastIL, LastCall, EncodeBounds, Beyond;
    Extended(bs, i);
    EncodedFrom(bs, i, rest);
    WalkStep(bs[i], EncodeBounds(bs[i + 1..]) + rest, |bs| - i, Native(bs[..i]), LastIL(bs[..i]), LastCall(bs[..i]),
             pc, findCall);
  }

  lemma WalkEnds(bs: seq<Bound>, rest: seq<Nibble>, pc: Word32, findCall: bool)
    ensures WalkFrom(bs, |bs|, rest, pc, findCall) == 0 == InForce(bs, |bs|, findCall)
  {}

  lemma {:induction false} WalkSearches(bs: seq<Bound>, i: nat, rest: seq<Nibble>, pc: Word32, findCall: bool)
    requires i <= |bs|
    ensures WalkFrom(bs, i, rest, pc, findCall) == InForce(bs, FirstBeyond(bs, pc, findCall, i), findCall)
    decreases |bs| - i
  {
    hide WalkFrom, InForce, Beyond, NativeAt;
    if i < |bs| {
      WalkFromStep(bs, i, rest, pc, findCall);
      WalkSearches(bs, i + 1, rest, pc, findCall);
    } else {
      WalkEnds(bs, rest, pc, findCall);
    }
  }

  /** For every list of bounds, the search that stops while decoding answers as decoding the whole
      list and then searching it. */
  lemma StreamingIsSearch(bs: seq<Bound>, rest: seq<Nibble>, pc: Word32, findCall: bool)
    requires |bs| < 0x1_0000_0000
    ensures var (n, s) := Decode(Stream(Encode(|bs|) + (EncodeBounds(bs) + rest), false));
            Walk(s, n, 0, 0, 0, pc, findCall) == Search(bs, pc, findCall)
  {
    hide Decode, Encode, Walk, FirstBeyond, InForce;
    DecodeEncode(|bs|, EncodeBounds(bs) + rest);
    WalkSearches(bs, 0, rest, pc, findCall);
    assert bs[..0] == [] && bs[0..] == bs;
  }

  // ----- Bounds by what they mean -----

  /** Where a bound points: into the IL, or at one of the runtime's special places. */
  datatype Place = ILOffset(il: nat) | NoMapping | Prolog | Epilog

  /** A bound at a native offset; the flags other than that of a call instruction do not matter. */
  datatype Mark = Mark(native: Word32, place: Place, call: bool, lowFlags: nat, highFlags: nat)
  {
    predicate Valid() { (place.ILOffset? ==> place.il < 0x8000_0000) && lowFlags < 0x10 && highFlags < 0x800_0000 }
  }

  type Marks = ms: seq<Mark> | forall m | m in ms :: m.Valid() witness []

  /** Special places are -1, -2 and -3, and all are shifted by 3. */
  function PlaceCode(p: Place): int {
    match p
    case ILOffset(il) => il + 3
    case NoMapping => 2
    case Prolog => 1
    case Epilog => 0
  }

  /** Bit 0x10 marks a call instruction. */
  function FlagsCode(m: Mark): int { m.highFlags * 0x20 + (if m.call then 0x10 else 0) + m.lowFlags }

  function LastNative(ms: Marks): Word32 { if ms == [] then 0 else ms[|ms| - 1].native }

  function Coded(ms: Marks): (bs: seq<Bound>)
    ensures |bs| == |ms|
  {
    if ms == [] then [] else
    var init: Marks, m := ms[..|ms| - 1], ms[|ms| - 1];
    Coded(init) + [Bound((m.native - LastNative(init)) % 0x1_0000_0000, PlaceCode(m.place), FlagsCode(m))]
  }

  ghost predicate NoIL(ms: Marks, i: nat, j: nat)
    requires i <= j <= |ms|
  {
    forall k | i <= k < j :: !ms[k].place.ILOffset?
  }

  ghost predicate NoCall(ms: Marks, i: nat, j: nat)
    requires i <= j <= |ms|
  {
    forall k | i <= k < j :: !ms[k].call
  }

  /** The IL offset of the last of the first j marks that has one, 0 when none has. */
  ghost predicate IsLastIL(ms: Marks, j: nat, r: Word32)
    requires j <= |ms|
  {
    || (r == 0 && NoIL(ms, 0, j))
    || exists k | 0 <= k < j :: ms[k].place == ILOffset(r) && NoIL(ms, k + 1, j)
  }

  /** The IL offset in force at the last call of the first j marks, 0 when there is none. */
  ghost predicate IsLastCall(ms: Marks, j: nat, r: Word32)
    requires j <= |ms|
  {
    || (r == 0 && NoCall(ms, 0, j))
    || exists k | 0 <= k < j :: ms[k].call && NoCall(ms, k + 1, j) && IsLastIL(ms, k + 1, r)
  }

  /** Mark j is the first past pc, or for call sites the first at or past it. */
  ghost predicate IsFirstPast(ms: Marks, pc: Word32, findCall: bool, j: nat) {
    && j < |ms| && (if findCall then ms[j].native >= pc else ms[j].native > pc)
    && forall i | 0 <= i < j :: if findCall then ms[i].native < pc else ms[i].native <= pc
  }

  lemma {:induction false} CodedPrefix(ms: Marks, j: nat)
    requires j <= |ms|
    ensures Coded(ms)[..j] == Coded(ms[..j])
    decreases |ms|
  {
    if j < |ms| {
      CodedPrefix(ms[..|ms| - 1], j);
      assert ms[..|ms| - 1][..j] == ms[..j];
    } else {
      assert ms[..j] == ms;
    }
  }

  lemma CodedLast(ms: Marks)
    requires ms != []
    ensures var init: Marks, m := ms[..|ms| - 1], ms[|ms| - 1];
            && Coded(ms)[..|ms| - 1] == Coded(init)
            && Coded(ms)[|ms| - 1] ==
               Bound((m.native - LastNative(init)) % 0x1_0000_0000, PlaceCode(m.place), FlagsCode(m))
  {}

  lemma {:induction false} NativeCoded(ms: Marks)
    ensures Native(Coded(ms)) == LastNative(ms)
    decreases |ms|
  {
    if ms != [] {
      hide Coded;
      CodedLast(ms);
      NativeCoded(ms[..|ms| - 1]);
    }
  }

  lemma MeantIL(il: Word32, m: Mark)
    requires m.Valid()
    ensures NextIL(il, PlaceCode(m.place)) == if m.place.ILOffset? then m.place.il else il
  {}

  /** What is no place at all, after the shift a negative number, is ignored too. */
  lemma NoPlace(il: Word32, x: Word32)
    ensures NextIL(il, x) == if 3 <= x < 0x8000_0003 then x - 3 else il
  {}

  lemma MeantCall(m: Mark)
    requires m.Valid()
    ensures IsCall(FlagsCode(m)) <==> m.call
  {}

  lemma OneMoreIL(ms: Marks, j: nat, il: Word32)
    requires 0 < j <= |ms| && IsLastIL(ms, j - 1, il)
    ensures IsLastIL(ms, j, if ms[j - 1].place.ILOffset? then ms[j - 1].place.il else il)
  {
    if !ms[j - 1].place.ILOffset? && !NoIL(ms, 0, j) {
      var k :| 0 <= k < j - 1 && ms[k].place == ILOffset(il) && NoIL(ms, k + 1, j - 1);
      assert NoIL(ms, k + 1, j);
    }
  }

  lemma {:induction false} LastILMeans(ms: Marks, j: nat)
    requires j <= |ms|
    ensures IsLastIL(ms, j, LastIL(Coded(ms[..j])))
    decreases j
  {
    if j > 0 {
      hide Coded, NextIL, PlaceCode, IsLastIL;
      var mine: Marks := ms[..j];
      CodedLast(mine);
      assert mine[..j - 1] == ms[..j - 1];
      LastILMeans(ms, j - 1);
      MeantIL(LastIL(Coded(ms[..j - 1])), ms[j - 1]);
      OneMoreIL(ms, j, LastIL(Coded(ms[..j - 1])));
    }
  }

  lemma OneMoreCall(ms: Marks, j: nat, call: Word32, il: Word32)
    requires 0 < j <= |ms| && IsLastCall(ms, j - 1, call) && IsLastIL(ms, j, il)
    ensures IsLastCall(ms, j, if ms[j - 1].call then il else call)
  {
    hide IsLastIL;
    if !ms[j - 1].call && !NoCall(ms, 0, j) {
      var k :| 0 <= k < j - 1 && ms[k].call && NoCall(ms, k + 1, j - 1) && IsLastIL(ms, k + 1, call);
      assert NoCall(ms, k + 1, j);
    }
  }

  lemma {:induction false} LastCallMeans(ms: Marks, j: nat)
    requires j <= |ms|
    ensures IsLastCall(ms, j, LastCall(Coded(ms[..j])))
    decreases j
  {
    if j > 0 {
      hide Coded, IsCall, FlagsCode, LastIL, IsLastIL, IsLastCall;
      var mine: Marks := ms[..j];
      CodedLast(mine);
      assert mine[..j - 1] == ms[..j - 1];
      MeantCall(ms[j - 1]);
      LastILMeans(ms, j);
      LastCallMeans(ms, j - 1);
      OneMoreCall(ms, j, LastCall(Coded(ms[..j - 1])), LastIL(Coded(mine)));
    }
  }

  lemma MarkNative(ms: Marks, k: nat)
    requires k < |ms|
    ensures NativeAt(Coded(ms), k) == ms[k].native
  {
    hide Coded, Native;
    CodedPrefix(ms, k + 1);
    NativeCoded(ms[..k + 1]);
  }

  lemma FirstPast(ms: Marks, pc: Word32, findCall: bool)
    ensures var j := FirstBeyond(Coded(ms), pc, findCall, 0);
            if j < |ms| then IsFirstPast(ms, pc, findCall, j) else forall k :: !IsFirstPast(ms, pc, findCall, k)
  {
    hide Coded, NativeAt, FirstBeyond;
    forall k | 0 <= k < |ms| ensures NativeAt(Coded(ms), k) == ms[k].native { MarkNative(ms, k); }
    var j := FirstBeyond(Coded(ms), pc, findCall, 0);
  }

  /** On the encoding of any marks the search answers with the IL offset of the last mark before the
      first one past pc; for call sites with the one in force at the last call before it; and with 0
      when no mark is past pc. */
  lemma MeantAnswer(ms: Marks, rest: seq<Nibble>, pc: Word32, findCall: bool)
    requires |ms| < 0x1_0000_0000
    ensures var (n, s) := Decode(Stream(Encode(|ms|) + (EncodeBounds(Coded(ms)) + rest), false));
            var r := Walk(s, n, 0, 0, 0, pc, findCall);
            && (forall j | IsFirstPast(ms, pc, findCall, j) ::
                  if findCall then IsLastCall(ms, j, r) else IsLastIL(ms, j, r))
            && ((forall j :: !IsFirstPast(ms, pc, findCall, j)) ==> r == 0)
  {
    hide Decode, Encode, Walk, Coded, EncodeBounds, LastIL, LastCall, FirstBeyond, IsLastIL, IsLastCall;
    StreamingIsSearch(Coded(ms), rest, pc, findCall);
    FirstPast(ms, pc, findCall);
    var j := FirstBeyond(Coded(ms), pc, findCall, 0);
    if j < |ms| {
      CodedPrefix(ms, j);
      LastILMeans(ms, j);
      LastCallMeans(ms, j);
    }
  }

  /** So it does on the bytes of the encoding. */
  lemma MeantBytes(ms: Marks, pc: Word32, findCall: bool) returns (r: Word32)
    requires |ms| < 0x1_0000_0000
    ensures var bytes := Packed(Encode(|ms|) + EncodeBounds(Coded(ms)));
            var (n, s) := Decode(Stream(NibblesOf(bytes), false));
            r == Walk(s, n, 0, 0, 0, pc, findCall)
    ensures forall j | IsFirstPast(ms, pc, findCall, j) :: if findCall then IsLastCall(ms, j, r) else IsLastIL(ms, j, r)
    ensures (forall j :: !IsFirstPast(ms, pc, findCall, j)) ==> r == 0
  {
    hide Decode, Encode, Walk, Coded, EncodeBounds, IsLastIL, IsLastCall, IsFirstPast, NibblesOf, Packed;
    var ns := Encode(|ms|) + EncodeBounds(Coded(ms));
    PackedNibbles(ns);
    var all := NibblesOf(Packed(ns));
    var rest := all[|ns|..];
    assert all == Encode(|ms|) + (EncodeBounds(Coded(ms)) + rest);
    MeantAnswer(ms, rest, pc, findCall);
    var (n, s) := Decode(Stream(all, false));
    r := Walk(s, n, 0, 0, 0, pc, findCall);
  }
}
