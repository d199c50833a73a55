/** Exactly when an extracted layout is right: for every machine and key. */
module TsdExact {
  import opened Words
  import opened Expressions
  import opened Matching
  import opened X86
  import opened X86Soundness
  import opened LoadWidths
  import opened Tsd

  // ----- Memories with one byte set -----

  function OneSet(at: Word, thread: Word): Memory {
    Memory(x => if x == at then 1 else 0, segment => if segment == FS then thread else 0)
  }

  /** What a load of n bytes sees of a byte set d bytes on. */
  function Seen(d: nat, n: nat): nat { if d < n then Pow2(8 * d) else 0 }

  lemma SeenNext(d: nat, next: nat, n: nat)
    requires 0 < n <= 8 && if d == 0 then next >= 8 else next == d - 1
    ensures Seen(d, n) == (if d == 0 then 1 else 0) + 256 * Seen(next, n - 1)
  {
    hide Pow2;
    ZeroPower();
    ByteStep(d);
  }

  lemma SeenFrom(at: Word, x: Word, n: nat)
    requires 0 < n <= 8
    ensures Seen(Wrap(at - x), n) == (if x == at then 1 else 0) + 256 * Seen(Wrap(at - Wrap(x + 1)), n - 1)
  {
    hide Wrap, Seen;
    NextDistance(at, x);
    SeenNext(Wrap(at - x), Wrap(at - Wrap(x + 1)), n);
  }

  lemma OneSetIs(at: Word, thread: Word, x: Word)
    ensures OneSet(at, thread).bytes(x) == if x == at then 1 else 0
  {}

  lemma NothingSeen(at: Word, thread: Word, x: Word)
    ensures LoadBytes(OneSet(at, thread).bytes, x, 0) == 0 == Seen(Wrap(at - x), 0)
  {}

  lemma {:induction false} OneSetBytes(at: Word, thread: Word, x: Word, n: nat)
    requires n <= 8
    ensures LoadBytes(OneSet(at, thread).bytes, x, n) == Seen(Wrap(at - x), n)
    decreases n
  {
    hide LoadBytes, Seen, Wrap, OneSet;
    if n == 0 {
      NothingSeen(at, thread, x);
    } else {
      OneSetIs(at, thread, x);
      OneSetBytes(at, thread, Wrap(x + 1), n - 1);
      LowestByte(OneSet(at, thread).bytes, x, n);
      SeenFrom(at, x, n);
    }
  }

  lemma NextDistance(at: Word, x: Word)
    ensures var d: int, next: int := Wrap(at - x), Wrap(at - Wrap(x + 1));
            (d == 0 <==> x == at) && (if d == 0 then next >= 8 else next == d - 1)
  {}

  lemma ByteStep(d: nat)
    ensures d > 0 ==> Pow2(8 * d) == 256 * Pow2(8 * (d - 1))
  {
    hide Pow2;
    if d > 0 {
      Pow2Split(8, 8 * (d - 1));
      Pow2Of8();
    }
  }

  /** A load finds the byte when it is within reach. */
  lemma OneSetLoad(at: Word, thread: Word, segment: nat, x: Word, n: nat)
    ensures var d := Wrap(at - Plus(if segment == FS then thread else 0, x));
            Load(OneSet(at, thread), segment, x, n) == if d < n && d < 8 then Pow2(8 * d) else 0
  {
    hide LoadBytes, Pow2, Wrap, Plus;
    var mem, k := OneSet(at, thread), if n < 8 then n else 8;
    if n > 8 { LongLoad(mem, segment, x, n); }
    var from := Plus(mem.segmentBase(segment), x);
    OneSetBytes(at, thread, from, k);
    var d := Wrap(at - from);
    Pow2Of64();
    if d < k { Pow2Monotone(8 * d, 63); WrapId(Pow2(8 * d)); } else { WrapId(0); }
  }

  lemma Finds(at: Word, thread: Word, segment: nat, x: Word, n: nat, d: nat)
    requires d == Wrap(at - Plus(if segment == FS then thread else 0, x)) && d < n && d < 8
    ensures Load(OneSet(at, thread), segment, x, n) == Pow2(8 * d) > 0
  {
    hide Load, OneSet, Plus, Wrap, Pow2;
    OneSetLoad(at, thread, segment, x, n);
    ByteValue(d);
  }

  lemma Misses(at: Word, thread: Word, segment: nat, x: Word, n: nat)
    requires var d := Wrap(at - Plus(if segment == FS then thread else 0, x)); d >= n || d >= 8
    ensures Load(OneSet(at, thread), segment, x, n) == 0
  {
    hide Load, OneSet, Plus, Wrap, Pow2;
    OneSetLoad(at, thread, segment, x, n);
  }

  lemma ByteValue(d: nat)
    requires d < 8
    ensures 0 < Pow2(8 * d) <= 0x100_0000_0000_0000
  {
    hide Pow2;
    Pow2Monotone(0, 8 * d);
    Pow2Monotone(8 * d, 56);
    Pow2Split(8, 56);
    Pow2Of64();
    assert Pow2(0) == 1 by { ZeroPower(); }
  }

  lemma ZeroPower()
    ensures Pow2(0) == 1
  {}

  // ----- Narrow loads -----

  function AtRest(mem: Memory): Machine { Machine(seq(18, _ => 0), mem) }

  /** The layout's address and the one a term with these widths has, for key 0. */
  predicate Right(n: nat, caps: Captures, width: nat -> nat, m: Machine) {
    ShapeAddress(n, caps, Blind(m, width).load, m.regs[RDI]) ==
    TsdAddress(InfoOf(n, caps), m.mem, LowBits(m.regs[RDI], 32))
  }

  lemma KeyZero(k: Word)
    ensures LowBits(0, 32) == 0 && Times(0, k) == 0
  {}

  /** Shapes 1 and 2 at key 0, from what is read of the thread pointer. */
  function FromThread(n: nat, caps: Captures, thread: Word): Word {
    var index := if n == 1 then 0 else Plus(0, Cell(caps, MULTIPLIER2));
    Plus(Plus(thread, Times(LowBits(index, 32), Cell(caps, MULTIPLIER))), Cell(caps, OFFSET))
  }

  lemma ThreadAddresses(n: nat, caps: Captures, width: nat -> nat, m: Machine)
    requires m.regs[RDI] == 0 && 0 < n < 3
    ensures ShapeAddress(n, caps, Blind(m, width).load, 0) == FromThread(n, caps, Load(m.mem, FS, 0x10, width(FS)))
    ensures TsdAddress(InfoOf(n, caps), m.mem, LowBits(0, 32)) ==
            Wrap(Load(m.mem, FS, 0x10, 8) + InfoOf(n, caps).offset)
  {
    hide Load, Wrap, Plus, Times, LowBits, Int16;
    KeyZero(Cell(caps, MULTIPLIER));
  }

  lemma ThreadLoads(w: nat)
    requires w < 8
    ensures Load(OneSet(0x100, 0), FS, 0x10, w) == 0 == Load(OneSet(0x100, 0), FS, 0x10, 8)
    ensures Load(OneSet(0x10 + w, 0), FS, 0x10, w) == 0 < Load(OneSet(0x10 + w, 0), FS, 0x10, 8)
  {
    hide Load, Pow2, OneSet;
    Misses(0x100, 0, FS, 0x10, w);
    Misses(0x100, 0, FS, 0x10, 8);
    Misses(0x10 + w, 0, FS, 0x10, w);
    Finds(0x10 + w, 0, FS, 0x10, 8, w);
  }

  lemma ThreadApart(n: nat, caps: Captures, width: nat -> nat, a: Machine, b: Machine)
    requires 0 < n < 3 && a.regs[RDI] == 0 == b.regs[RDI]
    requires Load(a.mem, FS, 0x10, width(FS)) == Load(b.mem, FS, 0x10, width(FS))
    requires Load(a.mem, FS, 0x10, 8) == 0 < Load(b.mem, FS, 0x10, 8)
    ensures !Right(n, caps, width, a) || !Right(n, caps, width, b)
  {
    hide Load, InfoOf, Wrap, ShapeAddress, TsdAddress, LowBits, FromThread, Blind;
    ThreadAddresses(n, caps, width, a);
    ThreadAddresses(n, caps, width, b);
    ShiftedWrap(InfoOf(n, caps).offset, Load(b.mem, FS, 0x10, 8));
  }

  /** A thread pointer read in part: not both of two memories that differ in the rest can be right. */
  lemma ThreadFails(n: nat, caps: Captures, width: nat -> nat) returns (m: Machine)
    requires 0 < n < 3 && width(FS) < 8
    ensures !Right(n, caps, width, m)
  {
    hide Load, OneSet, Right;
    var w := width(FS);
    var a, b := AtRest(OneSet(0x100, 0)), AtRest(OneSet(0x10 + w, 0));
    ThreadLoads(w);
    ThreadApart(n, caps, width, a, b);
    m := if Right(n, caps, width, a) then b else a;
  }

  lemma ShiftedWrap(x: int, d: Word)
    requires d > 0
    ensures Wrap(0 + x) != Wrap(d + x)
  {}

  lemma PointerLoads(o: Word, w: nat, thread: nat)
    requires w < 8
    ensures var mem := OneSet(Wrap(o + w), Wrap(o + 64));
            && Load(mem, FS, 0, thread) == 0 == Load(mem, FS, 0, 8)
            && Load(mem, 0, Plus(0, o), w) == 0 < Load(mem, 0, Plus(0, o), 8)
  {
    hide Load, Pow2, OneSet, Plus, Wrap;
    Distances(o, w);
    var at, base := Wrap(o + w), Wrap(o + 64);
    Misses(at, base, FS, 0, thread);
    Misses(at, base, FS, 0, 8);
    Misses(at, base, 0, o, w);
    Finds(at, base, 0, o, 8, w);
  }

  lemma PointerApart(caps: Captures, width: nat -> nat, m: Machine)
    requires m.regs[RDI] == 0 && Fits(0, caps)
    requires var o := Cell(caps, OFFSET);
             Load(m.mem, 0, Plus(Load(m.mem, FS, 0, width(FS)), o), width(0)) !=
             Load(m.mem, 0, Plus(Load(m.mem, FS, 0, 8), o), 8)
    ensures !Right(0, caps, width, m)
  {
    hide Load, InfoOf, ShapeAddress, TsdAddress, LowBits, Blind, Fits, Plus;
    Addresses(caps, width, m);
  }

  /** A pointer read in part, with the byte behind the part set. */
  lemma PointerFails(caps: Captures, width: nat -> nat) returns (m: Machine)
    requires width(0) < 8 && Fits(0, caps)
    ensures !Right(0, caps, width, m)
  {
    hide Load, OneSet, Right, Fits, Plus, Wrap;
    var o := Cell(caps, OFFSET);
    m := AtRest(OneSet(Wrap(o + width(0)), Wrap(o + 64)));
    PointerLoads(o, width(0), width(FS));
    PointerApart(caps, width, m);
  }

  lemma Distances(o: Word, w: nat)
    requires w < 8
    ensures var at, thread := Wrap(o + w), Wrap(o + 64);
            Wrap(at - Plus(thread, 0)) >= 8 && Wrap(at - Plus(0, o)) == w && Plus(0, o) == o
  {
    assert Wrap(w - 64) >= 8 && Wrap(w) == w;
    hide Wrap, Plus;
    PlusZero(Wrap(o + 64));
    PlusZero(o);
    PlusCommutes(0, o);
    WrapDiff(o + w, o + 64);
    WrapDiff(o + w, o);
    WrapId(o);
  }

  lemma WrapDiff(a: int, b: int)
    ensures Wrap(Wrap(a) - Wrap(b)) == Wrap(a - b)
  {}

  /** Shape 0 at key 0. */
  lemma Addresses(caps: Captures, width: nat -> nat, m: Machine)
    requires m.regs[RDI] == 0 && Fits(0, caps)
    ensures var o := Cell(caps, OFFSET);
            && ShapeAddress(0, caps, Blind(m, width).load, 0) ==
               Load(m.mem, 0, Plus(Load(m.mem, FS, 0, width(FS)), o), width(0))
            && TsdAddress(InfoOf(0, caps), m.mem, LowBits(0, 32)) == Load(m.mem, 0, Plus(Load(m.mem, FS, 0, 8), o), 8)
  {
    var k, o := Cell(caps, MULTIPLIER), Cell(caps, OFFSET);
    hide Load, Wrap, Plus, Times, LowBits, Int16;
    KeyZero(k);
    var thread := Load(m.mem, FS, 0, 8);
    PlusZero(Load(m.mem, 0, Plus(Load(m.mem, FS, 0, width(FS)), o), width(0)));
    NarrowedSum(thread, Int16(o), 0);
    WrapId(0);
    PlusZero(thread);
    var slot := Load(m.mem, 0, Plus(thread, o), 8);
    PointerPlus(slot, 0);
    PlusZero(slot);
  }

  lemma BothLoads(o: Word, w: nat, pointer: nat)
    requires w < 8 <= pointer
    ensures var mem := OneSet(o, Wrap(o - w));
            && Load(mem, FS, 0, w) == 0 && Load(mem, 0, Plus(0, o), pointer) == 1
            && Load(mem, 0, Plus(Load(mem, FS, 0, 8), o), 8) == 0
  {
    hide Load, Pow2, OneSet, Plus, Wrap;
    ByteValue(w);
    var p, thread := Pow2(8 * w), Wrap(o - w);
    Reaches(o, w, p);
    Misses(o, thread, FS, 0, w);
    Finds(o, thread, FS, 0, 8, w);
    Finds(o, thread, 0, o, pointer, 0);
    ZeroPower();
    Misses(o, thread, 0, Plus(p, o), 8);
  }

  /** A thread pointer read in part before a pointer is: the two addresses it is read from differ. */
  lemma ThreadThenPointerFails(caps: Captures, width: nat -> nat) returns (m: Machine)
    requires width(FS) < 8 <= width(0) && Fits(0, caps)
    ensures !Right(0, caps, width, m)
  {
    hide Load, OneSet, Right, Fits, Plus, Wrap;
    var o := Cell(caps, OFFSET);
    m := AtRest(OneSet(o, Wrap(o - width(FS))));
    BothLoads(o, width(FS), width(0));
    PointerApart(caps, width, m);
  }

  lemma Reaches(o: Word, w: nat, p: Word)
    requires w < 8 && 0 < p <= 0x100_0000_0000_0000
    ensures var thread := Wrap(o - w);
            && Wrap(o - Plus(thread, 0)) == w && Plus(0, o) == o && Wrap(o - Plus(0, o)) == 0
            && Wrap(o - Plus(0, Plus(p, o))) >= 8
  {}

  /** Whichever load is narrow, some machine has the layout wrong. */
  lemma NarrowFails(n: nat, caps: Captures, width: nat -> nat) returns (m: Machine)
    requires n < 3 && Fits(n, caps) && !(width(FS) >= 8 && (n == 0 ==> width(0) >= 8))
    ensures !Right(n, caps, width, m)
  {
    hide Right, Fits;
    if n > 0 {
      m := ThreadFails(n, caps, width);
    } else if width(0) < 8 {
      m := PointerFails(caps, width);
    } else {
      m := ThreadThenPointerFails(caps, width);
    }
  }

  // ----- Keys whose sum with multiplier2 wraps -----

  const HALF: nat := 0x1_0000_0000

  /** Nothing the multiplier can see is dropped for any key. */
  predicate NeverDrops(caps: Captures) {
    var k, k2 := Cell(caps, MULTIPLIER), Cell(caps, MULTIPLIER2);
    k == 0 || (k2 % HALF == 0 && (k2 / HALF * k) % HALF == 0)
  }

  lemma TimesHalf(h: nat, k: Word)
    requires h < HALF
    ensures Times(h * HALF, k) == 0 <==> (h * k) % HALF == 0
  {
    hide Times;
    TimesWraps(h * HALF, k);
    var x := h * k;
    assert h * HALF * k == x * HALF;
    DivMod(x, HALF);
    var q, r := x / HALF, x % HALF;
    assert x * HALF == q * (HALF * HALF) + r * HALF;
    ModUnique(x * HALF, q, r * HALF, HALF * HALF);
  }

  /** The upper half of key + multiplier2. */
  function Upper(caps: Captures, rdi: Word): nat { Plus(LowBits(rdi, 32), Cell(caps, MULTIPLIER2)) / HALF }

  lemma DroppedUpper(caps: Captures, rdi: Word)
    ensures Upper(caps, rdi) < HALF && Dropped(caps, rdi) == Upper(caps, rdi) * HALF
  {
    hide Pow2, Plus;
    Pow2Of64();
  }

  lemma UpperIs(caps: Captures, rdi: Word)
    requires rdi < HALF
    ensures var k2 := Cell(caps, MULTIPLIER2);
            var q, r := k2 / HALF, k2 % HALF;
            Upper(caps, rdi) == if rdi + r < HALF then q else if q + 1 < HALF then q + 1 else 0
  {
    assert LowBits(rdi, 32) == rdi by { Pow2Of64(); }
    hide LowBits;
  }

  lemma LowKey(caps: Captures, rdi: Word)
    ensures LowBits(rdi, 32) < HALF && Upper(caps, LowBits(rdi, 32)) == Upper(caps, rdi)
  {
    hide Pow2, Plus;
    Pow2Of64();
  }

  lemma Next(q: nat, k: nat)
    requires (q * k) % HALF == 0 && ((q + 1) * k) % HALF == 0
    ensures k % HALF == 0
  {
    DivMod(q * k, HALF);
    assert (q + 1) * k == k + (q * k / HALF) * HALF;
    ModShift(k, q * k / HALF, HALF);
  }

  lemma Full(k: nat)
    ensures (HALF * k) % HALF == 0
  {
    ModShift(0, k, HALF);
  }

  /** The layout of a shape with multiplier2 is right for every key exactly when the multiplier is 0,
      or multiplier2 has no lower half and the multiplier hides its upper one. */
  lemma NeverDropsIff(caps: Captures)
    requires Cell(caps, MULTIPLIER) < 256
    ensures (forall rdi: Word :: Times(Dropped(caps, rdi), Cell(caps, MULTIPLIER)) == 0) <==> NeverDrops(caps)
  {
    hide Times, Dropped, Upper, LowBits;
    var k, k2 := Cell(caps, MULTIPLIER), Cell(caps, MULTIPLIER2);
    var q, r := k2 / HALF, k2 % HALF;
    forall rdi: Word ensures Times(Dropped(caps, rdi), k) == 0 <==> (Upper(caps, rdi) * k) % HALF == 0 {
      DroppedUpper(caps, rdi);
      TimesHalf(Upper(caps, rdi), k);
    }
    if NeverDrops(caps) {
      forall rdi: Word ensures (Upper(caps, rdi) * k) % HALF == 0 {
        LowKey(caps, rdi);
        UpperIs(caps, LowBits(rdi, 32));
      }
    }
    if forall rdi: Word :: Times(Dropped(caps, rdi), k) == 0 {
      UpperIs(caps, 0);
      assert Times(Dropped(caps, 0), k) == 0;
      if r > 0 {
        UpperIs(caps, HALF - r);
        assert Times(Dropped(caps, HALF - r), k) == 0;
        Full(k);
        Next(q, k);
      }
    }
  }

  // ----- The exact condition -----

  /** A narrow load in the address makes the layout wrong on some machine. */
  lemma NarrowUnnamed(code: seq<Decoded>, sort: Sorter) returns (m: Machine)
    requires Permutes(sort) && Extract(code, sort).Extracted? && ConstantsFit(code, sort)
    requires FinalRax(code).MemRef? && !NoNarrow(FinalRax(code).at)
    ensures !NamesSlot(code, sort, m)
  {
    hide FinalRax, NoNarrow, Eval, Shape, CapsBefore, InfoOf, TsdAddress, ShapeAddress, Fits, LowBits, Match, Blind,
         WidthsAre;
    var res := FinalRax(code);
    var n := ShapeFound(res, sort);
    UnderPattern(res, n, sort);
    var before := CapsBefore(res, n, sort);
    var width := ShapeWidths(res.at, n, before, sort);
    m := NarrowFails(n, Attempt(res, n, sort).caps, width);
    MatchedValue(res.at, n, before, sort, width, m);
  }

  function WithKey(rdi: Word): Machine { Machine(seq(18, _ => 0)[RDI := rdi], OneSet(0, 0)) }

  lemma KeysNamed(code: seq<Decoded>, sort: Sorter, n: nat, caps: Captures)
    requires Permutes(sort) && Extract(code, sort).Extracted? && FinalRax(code).MemRef?
    requires forall m: Machine ::
               NamesSlot(code, sort, m) <==> (n == 2 ==> Times(Dropped(caps, m.regs[RDI]), Cell(caps, MULTIPLIER)) == 0)
    ensures (forall m: Machine :: NamesSlot(code, sort, m)) <==>
            (n == 2 ==> forall rdi: Word :: Times(Dropped(caps, rdi), Cell(caps, MULTIPLIER)) == 0)
  {
    hide NamesSlot, Times, Dropped, Extract, FinalRax;
    forall rdi: Word ensures WithKey(rdi).regs[RDI] == rdi {}
    if forall m: Machine :: NamesSlot(code, sort, m) {
      forall rdi: Word | n == 2 ensures Times(Dropped(caps, rdi), Cell(caps, MULTIPLIER)) == 0 {
        assert NamesSlot(code, sort, WithKey(rdi));
      }
    }
  }

  /** Of every followed code from which a layout with constants that fit is extracted, the layout names
      the slot on every machine exactly when no load in the address is narrow and, in shape 2, no key
      wraps visibly. */
  lemma ExtractionIff(code: seq<Decoded>, sort: Sorter)
    requires Permutes(sort) && AllFollowed(Body(code)) && Extract(code, sort).Extracted? && ConstantsFit(code, sort)
    ensures FinalRax(code).MemRef?
    ensures var n := ShapeFound(FinalRax(code), sort);
            (forall m: Machine :: NamesSlot(code, sort, m)) <==>
            NoNarrow(FinalRax(code).at) && (n == 2 ==> NeverDrops(Attempt(FinalRax(code), n, sort).caps))
  {
    hide FinalRax, NamesSlot, NoNarrow, NeverDrops, Times, Dropped, AllFollowed, Extract, Attempt, ShapeFound, Body,
         RetireAll, Load;
    var res := FinalRax(code);
    var n := ShapeFound(res, sort);
    var caps := Attempt(res, n, sort).caps;
    ExtractionSound(AtRest(OneSet(0, 0)), code, sort);
    if NoNarrow(res.at) {
      forall m: Machine
        ensures NamesSlot(code, sort, m) <==>
                (n == 2 ==> Times(Dropped(caps, m.regs[RDI]), Cell(caps, MULTIPLIER)) == 0)
      {
        ExtractionSound(m, code, sort);
      }
      KeysNamed(code, sort, n, caps);
      NeverDropsIff(caps);
    } else {
      var m := NarrowUnnamed(code, sort);
    }
  }
}
