/** Choosing an access path to a thread-local variable from the relocations, and following it. */
module Tls {
  import opened Words
  import opened Options

  // ----- ELF side -----

  datatype Kind = TlsDesc | DtpMod | TpOff

  /** A TLS relocation; the name is empty when it refers to the defining module. */
  datatype Reloc = Reloc(slot: Word, name: string, kind: Kind, addend: Int64)

  datatype Variant = VariantI | VariantII

  datatype Segment = Segment(memsz: Word, align: Word)

  /** An ELF file; variant is None for an unsupported machine, and broken says that reading the
      relocations fails after those listed. */
  datatype File = File(relocs: seq<Reloc>, broken: bool, variant: Option<Variant>, executable: bool,
                       segment: Option<Segment>)

  datatype Sym = Sym(name: string, value: Word, size: Word, defined: bool, threadLocal: bool)

  datatype Access = TlsDescriptor | LocalExec | InitialExec | LocalDynamic | GeneralDynamic

  datatype Var = Var(access: Access, slot: Word, addend: Word, variant: Variant)

  datatype Resolved = NotThreadLocal | Unsupported | BadRelocs | BadSegment | Found(v: Var)

  // ----- What each captured variable ends up holding -----

  datatype Search = Named(kind: Kind) | AnyModule | ExactOffset

  predicate IsNamed(r: Reloc, sym: Sym) { r.name != "" && r.name == sym.name }

  predicate Matches(s: Search, sym: Sym, r: Reloc) {
    && r.slot != 0
    && match s
       case Named(kind) => IsNamed(r, sym) && r.kind == kind
       case AnyModule => r.name == "" && r.kind.DtpMod?
       case ExactOffset => r.name == "" && r.kind.TpOff? && r.addend == Signed(sym.value)
  }

  /** The first relocation that matches. */
  function First(rs: seq<Reloc>, s: Search, sym: Sym): (r: Option<Reloc>)
    ensures r.Some? <==> exists x :: x in rs && Matches(s, sym, x)
    ensures r.Some? ==> r.value in rs && Matches(s, sym, r.value)
  {
    if rs == [] then None else
    var init, last := rs[..|rs| - 1], rs[|rs| - 1];
    assert rs == init + [last];
    var r := First(init, s, sym);
    if r.Some? then r else if Matches(s, sym, last) then Some(last) else None
  }

  predicate Eligible(r: Reloc, sym: Sym) {
    r.name == "" && r.kind.TlsDesc? && 0 <= r.addend <= Signed(sym.value)
  }

  /** The symbol-less descriptor with the largest addend at or below the symbol. */
  function Best(rs: seq<Reloc>, sym: Sym): (r: Option<Reloc>)
    ensures r.Some? <==> exists x :: x in rs && Eligible(x, sym)
    ensures r.Some? ==>
              && r.value in rs && Eligible(r.value, sym)
              && forall x | x in rs && Eligible(x, sym) :: x.addend <= r.value.addend
  {
    if rs == [] then None else
    var init, last := rs[..|rs| - 1], rs[|rs| - 1];
    assert rs == init + [last];
    var r := Best(init, sym);
    if Eligible(last, sym) && (r.None? || last.addend > r.value.addend) then Some(last) else r
  }

  datatype Path = Path(access: Access, slot: Word, addend: Word)

  function SlotOf(r: Option<Reloc>): Word { if r.None? then 0 else r.value.slot }

  function Residual(r: Option<Reloc>, sym: Sym): Word { if r.None? then 0 else Wrap(sym.value - r.value.addend) }

  /** The access paths in the order they are preferred; slot 0 stands for none. */
  function Paths(rs: seq<Reloc>, sym: Sym): seq<Path> {
    [Path(InitialExec, SlotOf(First(rs, Named(TpOff), sym)), 0),
     Path(InitialExec, SlotOf(First(rs, ExactOffset, sym)), 0),
     Path(TlsDescriptor, SlotOf(First(rs, Named(TlsDesc), sym)), 0),
     Path(TlsDescriptor, SlotOf(Best(rs, sym)), Residual(Best(rs, sym), sym)),
     Path(GeneralDynamic, SlotOf(First(rs, Named(DtpMod), sym)), 0),
     Path(LocalDynamic, SlotOf(First(rs, AnyModule, sym)), sym.value)]
  }

  function Preferred(ps: seq<Path>): (p: Option<Path>)
    ensures p.Some? ==> p.value in ps && p.value.slot != 0
    ensures p.None? <==> forall q | q in ps :: q.slot == 0
  {
    if ps == [] then None else if ps[0].slot != 0 then Some(ps[0]) else Preferred(ps[1..])
  }

  // ----- The executable's own TLS block -----

  predicate PowerOfTwo(x: nat) { x == 1 || (x > 1 && x % 2 == 0 && PowerOfTwo(x / 2)) }

  /** Rounding up by clearing the bits below a power of two. */
  function RoundUp(x: Word, align: Word): int
    requires align > 0
  {
    (x + align - 1) / align * align
  }

  /** The least multiple of align at or above the size. */
  predicate LeastMultiple(b: int, size: nat, align: nat)
    requires align > 0
  {
    b % align == 0 && size <= b < size + align
  }

  lemma RoundUpIsLeast(x: Word, align: Word)
    requires align > 0
    ensures LeastMultiple(RoundUp(x, align), x, align)
    ensures forall b | LeastMultiple(b, x, align) :: b == RoundUp(x, align)
  {
    var q := (x + align - 1) / align;
    DivMod(x + align - 1, align);
    ModShift(0, q, align);
    forall b | LeastMultiple(b, x, align) ensures b == RoundUp(x, align) {
      DivMod(b, align);
      GapAbsorbed(b / align - q, b - q * align, align);
    }
  }

  const MAX_INT32 := 0x7fff_ffff

  function StaticTlsOffset(g: Option<Segment>, variant: Variant, sym: Sym): Option<Word> {
    if g.None? || g.value.memsz > MAX_INT32 then None else
    var align := if g.value.align < 1 then 1 else g.value.align;
    if !PowerOfTwo(align) || sym.value > g.value.memsz || sym.size > g.value.memsz - sym.value then None else
    match variant
    case VariantI => Some(Wrap(RoundUp(16, align) + sym.value))
    case VariantII => Some(Wrap(sym.value - RoundUp(g.value.memsz, align)))
  }

  lemma {:induction false} PowersOfTwo(x: nat)
    ensures PowerOfTwo(x) <==> exists k: nat :: x == Pow2(k)
    decreases x
  {
    if x > 1 {
      PowersOfTwo(x / 2);
      if PowerOfTwo(x) {
        var k: nat :| x / 2 == Pow2(k);
        assert x == Pow2(k + 1);
      }
      if k: nat :| x == Pow2(k) { assert k > 0 && x / 2 == Pow2(k - 1); }
    } else if x == 1 {
      assert x == Pow2(0);
    }
  }

  /** A static offset is given exactly for a symbol that lies within the segment, when its size fits 32
      bits and its alignment is none or a power of two. */
  lemma StaticOffsetIff(g: Option<Segment>, variant: Variant, sym: Sym)
    ensures StaticTlsOffset(g, variant, sym).Some? <==>
            && g.Some? && g.value.memsz < 0x8000_0000
            && (g.value.align == 0 || exists k: nat :: g.value.align == Pow2(k))
            && sym.value + sym.size <= g.value.memsz
  {
    hide Pow2, RoundUp, PowerOfTwo, Wrap;
    if g.Some? {
      PowersOfTwo(g.value.align);
      PowersOfTwo(1);
      OneIsPower();
    }
  }

  lemma OneIsPower()
    ensures PowerOfTwo(1)
  {}

  lemma BlockBound(b: int, size: nat, align: Word, k: nat)
    requires align == Pow2(k) && size < 0x8000_0000 && LeastMultiple(b, size, align)
    ensures 0 <= b <= 0x8000_0000_0000_0000
  {
    hide Pow2;
    Pow2Of64();
    if k >= 64 { Pow2Monotone(64, k); }
    if k <= 62 {
      Pow2Monotone(k, 62);
      Pow2Split(1, 62);
      assert Pow2(1) == 2 by { Pow2Of8(); }
    }
  }

  /** The whole symbol is in the block: past the 16 reserved bytes above the thread pointer, or below it. */
  lemma StaticOffsetInside(g: Option<Segment>, variant: Variant, sym: Sym)
    requires StaticTlsOffset(g, variant, sym).Some?
    ensures var o := StaticTlsOffset(g, variant, sym).value;
            if variant.VariantI? then o >= 16 + sym.value else Signed(o) + sym.size <= 0
  {
    hide Pow2, PowerOfTwo, RoundUp, LeastMultiple, Wrap, Signed;
    var align := if g.value.align < 1 then 1 else g.value.align;
    PowersOfTwo(align);
    var k: nat :| align == Pow2(k);
    if variant.VariantI? {
      BlockSize(16, align, k);
      AboveReserved(RoundUp(16, align), sym.value);
    } else {
      BlockSize(g.value.memsz, align, k);
      BelowPointer(RoundUp(g.value.memsz, align), sym.value, sym.size, g.value.memsz);
    }
  }

  lemma BlockSize(size: Word, align: Word, k: nat)
    requires align == Pow2(k) && size < 0x8000_0000
    ensures size <= RoundUp(size, align) <= 0x8000_0000_0000_0000
  {
    hide Pow2, RoundUp;
    RoundUpIsLeast(size, align);
    BlockBound(RoundUp(size, align), size, align, k);
  }

  lemma AboveReserved(b: int, v: Word)
    requires 16 <= b <= 0x8000_0000_0000_0000 && v < 0x8000_0000
    ensures Wrap(b + v) >= 16 + v
  {}

  lemma BelowPointer(b: int, v: Word, size: Word, memsz: Word)
    requires memsz <= b <= 0x8000_0000_0000_0000 && v + size <= memsz < 0x8000_0000
    ensures Signed(Wrap(v - b)) + size <= 0
  {}

  function Resolution(f: File, sym: Option<Sym>): Resolved {
    if sym.None? || !sym.value.defined || !sym.value.threadLocal then NotThreadLocal
    else if f.variant.None? then Unsupported
    else if f.broken && First(f.relocs, Named(TpOff), sym.value).None? then BadRelocs else
    var p, variant := Preferred(Paths(f.relocs, sym.value)), f.variant.value;
    if p.Some? then Found(Var(p.value.access, p.value.slot, p.value.addend, variant))
    else if !f.executable then Unsupported else
    var offset := StaticTlsOffset(f.segment, variant, sym.value);
    if offset.None? then BadSegment else Found(Var(LocalExec, 0, offset.value, variant))
  }

  /** The fold over the relocations stops at the first that names the symbol in a TPOFF64. */
  method Resolve(f: File, sym: Option<Sym>) returns (r: Resolved)
    ensures r == Resolution(f, sym)
  {
    hide Signed, StaticTlsOffset, Matches, First, Best;
    if sym.Some? { MatchHasSlot(f.relocs, Named(TpOff), sym.value); }
    if sym.None? || !sym.value.defined || !sym.value.threadLocal { return NotThreadLocal; }
    if f.variant.None? { return Unsupported; }
    var paths, stopped := Visit(f.relocs, sym.value);
    if f.broken && !stopped { return BadRelocs; }
    var i := 0;
    while i < |paths|
      invariant 0 <= i <= |paths| && Preferred(paths) == Preferred(paths[i..])
    {
      if paths[i].slot != 0 {
        return Found(Var(paths[i].access, paths[i].slot, paths[i].addend, f.variant.value));
      }
      assert paths[i..][1..] == paths[i + 1..];
      i := i + 1;
    }
    if f.executable {
      var offset := StaticTlsOffset(f.segment, f.variant.value, sym.value);
      if offset.None? { return BadSegment; }
      return Found(Var(LocalExec, 0, offset.value, f.variant.value));
    }
    return Unsupported;
  }

  /** The variables that the visitor of relocations captures; slot 0 stands for none. */
  datatype Captured = Captured(tlsdesc: Word, tpmod: Word, tpoff: Word, tlsdescNoSym: Word, tpmodNoSym: Word,
                               tpoffNoSym: Word,
                               tlsdescAddend: Word, matched: int)

  function Held(rs: seq<Reloc>, sym: Sym): Captured {
    var best := Best(rs, sym);
    Captured(SlotOf(First(rs, Named(TlsDesc), sym)), SlotOf(First(rs, Named(DtpMod), sym)),
             SlotOf(First(rs, Named(TpOff), sym)),
             SlotOf(best), SlotOf(First(rs, AnyModule, sym)), SlotOf(First(rs, ExactOffset, sym)),
             Residual(best, sym), if best.None? then -1 else best.value.addend)
  }

  function Take(slot: Word, s: Search, sym: Sym, r: Reloc): Word {
    if slot != 0 then slot else if Matches(s, sym, r) then r.slot else 0
  }

  function TakeAll(c: Captured, r: Reloc, sym: Sym): Captured {
    var better := Eligible(r, sym) && r.addend > c.matched;
    Captured(Take(c.tlsdesc, Named(TlsDesc), sym, r), Take(c.tpmod, Named(DtpMod), sym, r),
             Take(c.tpoff, Named(TpOff), sym, r),
             if better then r.slot else c.tlsdescNoSym, Take(c.tpmodNoSym, AnyModule, sym, r),
             Take(c.tpoffNoSym, ExactOffset, sym, r), if better then Wrap(sym.value - r.addend) else c.tlsdescAddend,
             if better then r.addend else c.matched)
  }

  /** The visitor: keeps the first match of each type, and the best symbol-less descriptor. */
  method OnReloc(c: Captured, r: Reloc, sym: Sym) returns (c': Captured)
    requires c.matched >= -1
    ensures c' == TakeAll(c, r, sym)
  {
    hide Signed, Wrap;
    c' := c;
    if r.name != "" && r.name == sym.name {
      match r.kind
      case TlsDesc => if c.tlsdesc == 0 { c' := c'.(tlsdesc := r.slot); }
      case DtpMod => if c.tpmod == 0 { c' := c'.(tpmod := r.slot); }
      case TpOff => if c.tpoff == 0 { c' := c'.(tpoff := r.slot); }
    } else if r.name == "" {
      match r.kind
      case TlsDesc =>
        if r.addend > c.matched && r.addend <= Signed(sym.value) {
          c' := c'.(tlsdescNoSym := r.slot, matched := r.addend, tlsdescAddend := Wrap(sym.value - r.addend));
        }
      case DtpMod => if c.tpmodNoSym == 0 { c' := c'.(tpmodNoSym := r.slot); }
      case TpOff => if c.tpoffNoSym == 0 && r.addend == Signed(sym.value) { c' := c'.(tpoffNoSym := r.slot); }
    }
  }

  method Visit(rs: seq<Reloc>, sym: Sym) returns (paths: seq<Path>, stopped: bool)
    ensures Preferred(paths) == Preferred(Paths(rs, sym)) && stopped == First(rs, Named(TpOff), sym).Some?
  {
    hide Held, TakeAll, Preferred;
    NothingVisited(rs, sym);
    var c, i := Captured(0, 0, 0, 0, 0, 0, 0, -1), 0;
    while i < |rs| && c.tpoff == 0
      invariant 0 <= i <= |rs| && c == Held(rs[..i], sym) && c.matched >= -1
    {
      HeldNext(rs, i, sym);
      c := OnReloc(c, rs[i], sym);
      i := i + 1;
    }
    paths := PathsOf(c, sym);
    stopped := c.tpoff != 0;
    HeldPaths(rs, sym, i);
  }

  function PathsOf(c: Captured, sym: Sym): seq<Path> {
    [Path(InitialExec, c.tpoff, 0), Path(InitialExec, c.tpoffNoSym, 0), Path(TlsDescriptor, c.tlsdesc, 0),
     Path(TlsDescriptor, c.tlsdescNoSym, c.tlsdescAddend), Path(GeneralDynamic, c.tpmod, 0),
     Path(LocalDynamic, c.tpmodNoSym, sym.value)]
  }

  /** Stopping at a named TPOFF64 loses nothing. */
  lemma HeldPaths(rs: seq<Reloc>, sym: Sym, i: nat)
    requires i <= |rs| && (i == |rs| || Held(rs[..i], sym).tpoff != 0)
    ensures Preferred(PathsOf(Held(rs[..i], sym), sym)) == Preferred(Paths(rs, sym))
    ensures Held(rs[..i], sym).tpoff != 0 <==> First(rs, Named(TpOff), sym).Some?
  {
    hide First, Best, Preferred;
    MatchHasSlot(rs, Named(TpOff), sym);
    if i == |rs| {
      assert rs[..i] == rs;
    } else {
      FirstStays(rs, i, Named(TpOff), sym);
      FirstPreferred(PathsOf(Held(rs[..i], sym), sym), Paths(rs, sym));
    }
  }

  lemma HeldNext(rs: seq<Reloc>, i: nat, sym: Sym)
    requires i < |rs|
    ensures Held(rs[..i + 1], sym) == TakeAll(Held(rs[..i], sym), rs[i], sym) && Held(rs[..i + 1], sym).matched >= -1
  {
    hide First, Best, Matches, Wrap, Signed;
    FirstNext(rs, i, Named(TpOff), sym);
    FirstNext(rs, i, Named(TlsDesc), sym);
    FirstNext(rs, i, Named(DtpMod), sym);
    FirstNext(rs, i, AnyModule, sym);
    FirstNext(rs, i, ExactOffset, sym);
    BestNext(rs, i, sym);
  }

  lemma FirstPreferred(ps: seq<Path>, qs: seq<Path>)
    requires ps != [] && qs != [] && ps[0] == qs[0] && ps[0].slot != 0
    ensures Preferred(ps) == Preferred(qs)
  {}

  lemma NothingVisited(rs: seq<Reloc>, sym: Sym)
    ensures Held(rs[..0], sym) == Captured(0, 0, 0, 0, 0, 0, 0, -1)
  {}

  lemma FirstNext(rs: seq<Reloc>, i: nat, s: Search, sym: Sym)
    requires i < |rs|
    ensures SlotOf(First(rs[..i + 1], s, sym)) == Take(SlotOf(First(rs[..i], s, sym)), s, sym, rs[i])
  {
    hide Matches;
    assert rs[..i + 1][..i] == rs[..i];
    MatchHasSlot(rs[..i], s, sym);
  }

  lemma MatchHasSlot(rs: seq<Reloc>, s: Search, sym: Sym)
    ensures First(rs, s, sym).Some? ==> First(rs, s, sym).value.slot != 0
  {}

  lemma BestNext(rs: seq<Reloc>, i: nat, sym: Sym)
    requires i < |rs|
    ensures var r := Best(rs[..i], sym);
            Best(rs[..i + 1], sym) ==
            if Eligible(rs[i], sym) && (r.None? || rs[i].addend > r.value.addend) then Some(rs[i]) else r
    ensures Best(rs[..i], sym).Some? ==> Best(rs[..i], sym).value.addend >= 0
  {
    hide Signed;
    assert rs[..i + 1][..i] == rs[..i];
  }

  lemma {:induction false} FirstStays(rs: seq<Reloc>, i: nat, s: Search, sym: Sym)
    requires i <= |rs| && First(rs[..i], s, sym).Some?
    ensures First(rs, s, sym) == First(rs[..i], s, sym)
    decreases |rs|
  {
    if i < |rs| {
      var init := rs[..|rs| - 1];
      assert init[..i] == rs[..i];
      FirstStays(init, i, s, sym);
    } else {
      assert rs[..i] == rs;
    }
  }
}
