/** Following the access path in a process, against what its loader did with the relocations. */
module TlsLocate {
  import opened Words
  import opened Options
  import opened Tls

  // ----- The descriptor's resolver -----

  /** The four instructions read from a resolver. */
  type Code = cs: seq<bv32> | |cs| == 4 witness [0, 0, 0, 0]

  predicate IsHint(w: bv32) { w & 0xfffff01f == 0xd503201f }

  /** After k hints, the resolver loads the argument word and returns. */
  predicate ReturnsAfter(c: Code, k: nat)
    requires k <= 2
  {
    (forall i | 0 <= i < k :: IsHint(c[i])) && c[k] == 0xf9400400 && c[k + 1] == 0xd65f03c0
  }

  predicate ReturnsArg(c: Code) { exists k | 0 <= k <= 2 :: ReturnsAfter(c, k) }

  lemma BodyIsNoHint()
    ensures !IsHint(0xf9400400) && !IsHint(0xd65f03c0)
  {}

  /** Skipping as many hints as there are finds the body wherever it may stand. */
  method TlsdescReturnsArg(c: Code) returns (r: bool)
    ensures r == ReturnsArg(c)
  {
    BodyIsNoHint();
    hide IsHint;
    var i := 0;
    while i < 2 && IsHint(c[i])
      invariant 0 <= i <= 2 && forall k | 0 <= k < i :: IsHint(c[k])
    {
      i := i + 1;
    }
    var body := [0xf9400400, 0xd65f03c0];
    r := true;
    var j := 0;
    while j < 2
      invariant 0 <= j <= 2 && r == (forall k | 0 <= k < j :: c[i + k] == body[k])
    {
      if c[i + j] != body[j] { r := false; }
      j := j + 1;
    }
    assert r <==> c[i + 0] == body[0] && c[i + 1] == body[1];
    assert r ==> ReturnsAfter(c, i);
    assert forall k | 0 <= k <= 2 :: ReturnsAfter(c, k) ==> k == i;
  }

  /** Hints differ in seven bits. */
  lemma HintBits(w: bv32)
    ensures IsHint(w) <==> w == 0xd503201f | (((w >> 5) & 0x7f) << 5)
  {}

  /** LDR X0, [X0, #8]; RET, after no hint or after one or two of any kind, and after nothing else. */
  lemma ResolverCode(c: Code)
    ensures ReturnsArg(c) <==>
            || (c[0] == 0xf9400400 && c[1] == 0xd65f03c0)
            || (IsHint(c[0]) && c[1] == 0xf9400400 && c[2] == 0xd65f03c0)
            || (IsHint(c[0]) && IsHint(c[1]) && c[2] == 0xf9400400 && c[3] == 0xd65f03c0)
  {
    hide IsHint;
    assert ReturnsAfter(c, 0) <==> c[0] == 0xf9400400 && c[1] == 0xd65f03c0;
    assert ReturnsAfter(c, 1) <==> IsHint(c[0]) && c[1] == 0xf9400400 && c[2] == 0xd65f03c0;
    assert ReturnsAfter(c, 2) <==> IsHint(c[0]) && IsHint(c[1]) && c[2] == 0xf9400400 && c[3] == 0xd65f03c0;
  }

  // ----- Locate -----

  /** Memory of a process, as 8-byte reads and reads of resolver code; a read may fail. */
  datatype Process = Process(word: Word -> Option<Word>, code: Word -> Option<Code>)
  {
    function Pair(a: Word): Option<(Word, Word)> {
      if word(a).Some? && word(Wrap(a + 8)).Some? then Some((word(a).value, word(Wrap(a + 8)).value)) else None
    }
  }

  /** Module 0 is static TLS, whose offset is relative to the thread pointer. */
  datatype Location = Location(moduleID: int, offset: int)

  /** A place, or why there is none: a static place or a module and offset may not fit a descriptor. */
  datatype Located = ReadFailed | Unresolved | StaticTooLarge | DynamicTooLarge | At(loc: Location)

  /** Conversion to int32. */
  function Int32(x: int): int {
    var m := x % 0x1_0000_0000;
    if m < 0x8000_0000 then m else m - 0x1_0000_0000
  }

  function StaticLoc(x: Word): Located {
    if Signed(x) != Int32(Signed(x)) then StaticTooLarge else At(Location(0, Int32(Signed(x))))
  }

  function DynamicLoc(moduleID: Word, offset: Word): Located {
    if moduleID == 0 || moduleID > 0xffff || offset > MAX_INT32 then DynamicTooLarge
    else At(Location(moduleID, offset))
  }

  const MIN_USER_ADDR := 0x10000

  /** A dynamic descriptor's argument points at a module and an offset. */
  function ThroughIndex(p: Process, arg: Word, addend: Word): Located {
    var ti := p.Pair(arg);
    if ti.None? then ReadFailed
    else if ti.value.0 == 0 || ti.value.0 > 0xffff then DynamicTooLarge
    else DynamicLoc(ti.value.0, Wrap(ti.value.1 + addend))
  }

  function LocateDescriptor(v: Var, p: Process, resolver: Word, arg: Word): Located {
    match v.variant
    case VariantII => if Signed(arg) < 0 then StaticLoc(Wrap(arg + v.addend)) else ThroughIndex(p, arg, v.addend)
    case VariantI =>
      if arg < MIN_USER_ADDR then StaticLoc(Wrap(arg + v.addend)) else
      var code := p.code(resolver);
      if code.None? then ReadFailed
      else if ReturnsArg(code.value) then StaticLoc(Wrap(arg + v.addend))
      else ThroughIndex(p, arg, v.addend)
  }

  function Locate(v: Var, p: Process, bias: Word): Located {
    var a := Wrap(bias + v.slot);
    match v.access
    case LocalExec => StaticLoc(v.addend)
    case InitialExec =>
      var got := p.word(a);
      if got.None? then ReadFailed
      else if got.value == 0 && v.variant.VariantII? then Unresolved
      else StaticLoc(Wrap(got.value + v.addend))
    case GeneralDynamic =>
      var ti := p.Pair(a);
      if ti.None? then ReadFailed
      else if ti.value.0 == 0 then Unresolved
      else DynamicLoc(ti.value.0, Wrap(ti.value.1 + v.addend))
    case LocalDynamic =>
      var moduleID := p.word(a);
      if moduleID.None? then ReadFailed
      else if moduleID.value == 0 then Unresolved
      else DynamicLoc(moduleID.value, v.addend)
    case TlsDescriptor =>
      var d := p.Pair(a);
      if d.None? then ReadFailed
      else if d.value.0 == 0 then Unresolved
      else LocateDescriptor(v, p, d.value.0, d.value.1)
  }

  // ----- What a loader does -----

  /** The module's number, and where its block starts relative to the thread pointer when it is
      part of static TLS. */
  datatype Loader = Loader(moduleID: Word, base: Option<Word>)

  /** The offset in the module's block that a relocation refers to. */
  function Target(r: Reloc, sym: Sym): int { (if r.name == "" then 0 else sym.value) + r.addend }

  predicate StaticArg(r: Reloc, sym: Sym, l: Loader, variant: Variant, p: Process, resolver: Word, arg: Word) {
    && l.base.Some? && arg == Wrap(l.base.value + Target(r, sym))
    && match variant
       case VariantII => Signed(arg) < 0
       case VariantI => p.code(resolver).Some? && ReturnsArg(p.code(resolver).value)
  }

  predicate DynamicArg(r: Reloc, sym: Sym, l: Loader, variant: Variant, p: Process, resolver: Word, arg: Word) {
    && p.Pair(arg) == Some((l.moduleID, Wrap(Target(r, sym))))
    && match variant
       case VariantII => Signed(arg) >= 0
       case VariantI => arg >= MIN_USER_ADDR && p.code(resolver).Some? && !ReturnsArg(p.code(resolver).value)
  }

  /** The loader has filled in what the relocation asks for. */
  predicate AppliedReloc(r: Reloc, sym: Sym, l: Loader, variant: Variant, p: Process, bias: Word) {
    var a := Wrap(bias + r.slot);
    match r.kind
    case TpOff =>
      && l.base.Some? && p.word(a) == Some(Wrap(l.base.value + Target(r, sym)))
      && (variant.VariantII? ==> p.word(a) != Some(0))
    case DtpMod => p.word(a) == Some(l.moduleID) && (r.name != "" ==> p.word(Wrap(a + 8)) == Some(sym.value))
    case TlsDesc =>
      var d := p.Pair(a);
      && d.Some? && d.value.0 != 0
      && (StaticArg(r, sym, l, variant, p, d.value.0, d.value.1)
          || DynamicArg(r, sym, l, variant, p, d.value.0, d.value.1))
  }

  predicate Concerns(r: Reloc, sym: Sym) { r.name == "" || IsNamed(r, sym) }

  /** An executable's block stands next to the thread pointer: at the first aligned place past the 16
      reserved bytes above it, or as far below it as the aligned size of the block. */
  ghost predicate ExecutableBase(g: Segment, variant: Variant, l: Loader) {
    var align := if g.align < 1 then 1 else g.align;
    match variant
    case VariantI => exists b :: LeastMultiple(b, 16, align) && l.base == Some(Wrap(b))
    case VariantII => exists b :: LeastMultiple(b, g.memsz, align) && l.base == Some(Wrap(-b))
  }

  ghost predicate Applied(f: File, sym: Sym, l: Loader, p: Process, bias: Word) {
    && f.variant.Some? && l.moduleID != 0
    && (forall r | r in f.relocs && Concerns(r, sym) :: AppliedReloc(r, sym, l, f.variant.value, p, bias))
    && (f.executable && f.segment.Some? ==> ExecutableBase(f.segment.value, f.variant.value, l))
  }

  // ----- The variable's true place -----

  predicate IsTrue(l: Loader, sym: Sym, loc: Location) {
    if loc.moduleID == 0 then l.base.Some? && loc.offset == Signed(Wrap(l.base.value + sym.value))
    else loc == Location(l.moduleID, sym.value)
  }

  /** The place, which fits a descriptor, or a report about the part of it that does not fit a descriptor. */
  predicate RightOrTooLarge(r: Located, l: Loader, sym: Sym) {
    match r
    case At(loc) => IsTrue(l, sym, loc) && 0 <= loc.moduleID <= 0xffff && -0x8000_0000 <= loc.offset < 0x8000_0000
    case StaticTooLarge => l.base.Some? && !(-0x8000_0000 <= Signed(Wrap(l.base.value + sym.value)) < 0x8000_0000)
    case DynamicTooLarge => l.moduleID > 0xffff || sym.value > MAX_INT32
    case _ => false
  }

  predicate Reported(r: Located) { r.At? || r.StaticTooLarge? || r.DynamicTooLarge? }

  /** Where something at an offset in the module's block is found, statically or by module. */
  predicate PlaceOf(r: Located, l: Loader, offset: int) {
    || (l.base.Some? && r == StaticLoc(Wrap(l.base.value + offset)))
    || (l.moduleID != 0 && r == DynamicLoc(l.moduleID, Wrap(offset)))
    || (l.moduleID > 0xffff && r == DynamicTooLarge)
  }

  lemma Int32Fits(x: int)
    ensures Int32(x) == x <==> -0x8000_0000 <= x < 0x8000_0000
  {}

  lemma Shifted(x: int, k: Int64)
    ensures Wrap(x + k) == Wrap(x) <==> k == 0
  {}

  lemma SignedDistinct(a: Word, b: Word)
    ensures Signed(a) == Signed(b) <==> a == b
  {}

  /** A static offset is kept exactly, or reported not to fit 32 bits. */
  lemma StaticRight(l: Loader, sym: Sym, k: Int64)
    requires l.base.Some?
    ensures var r := StaticLoc(Wrap(l.base.value + (sym.value + k)));
            && (k == 0 ==> RightOrTooLarge(r, l, sym)) && (r.At? ==> (IsTrue(l, sym, r.loc) <==> k == 0))
            && Reported(r)
  {
    hide Wrap, Signed;
    var a, b := Wrap(l.base.value + sym.value), Wrap(l.base.value + (sym.value + k));
    Int32Fits(Signed(b));
    Shifted(l.base.value + sym.value, k);
    assert l.base.value + sym.value + k == l.base.value + (sym.value + k);
    SignedDistinct(a, b);
  }

  /** So are module and offset. */
  lemma DynamicRight(l: Loader, sym: Sym, k: Int64)
    requires l.moduleID != 0
    ensures var r := DynamicLoc(l.moduleID, Wrap(sym.value + k));
            && (k == 0 ==> RightOrTooLarge(r, l, sym)) && (r.At? ==> (IsTrue(l, sym, r.loc) <==> k == 0))
            && Reported(r)
  {
    hide Wrap;
    Shifted(sym.value, k);
    WrapId(sym.value);
  }

  lemma PlaceRight(r: Located, l: Loader, sym: Sym, k: Int64)
    requires PlaceOf(r, l, sym.value + k)
    ensures (k == 0 ==> RightOrTooLarge(r, l, sym)) && (r.At? ==> (IsTrue(l, sym, r.loc) <==> k == 0)) && Reported(r)
  {
    hide Wrap, StaticLoc, DynamicLoc, IsTrue;
    if l.base.Some? { StaticRight(l, sym, k); }
    if l.moduleID != 0 { DynamicRight(l, sym, k); }
  }

  lemma WrapAdds(a: int, b: int, c: int)
    requires a + b == c
    ensures Wrap(Wrap(a) + Wrap(b)) == Wrap(c) && Wrap(Wrap(a) + b) == Wrap(c)
  {}

  lemma SignedWraps(a: int, w: Word)
    ensures Wrap(a + Signed(w)) == Wrap(a + w)
  {}

  lemma InitialExecPlace(r: Reloc, v: Var, sym: Sym, l: Loader, p: Process, bias: Word)
    requires r.kind.TpOff? && AppliedReloc(r, sym, l, v.variant, p, bias) && v == Var(InitialExec, r.slot, 0, v.variant)
    ensures l.base.Some? && Locate(v, p, bias) == StaticLoc(Wrap(l.base.value + Target(r, sym)))
  {
    hide Wrap, StaticLoc, Target;
    WrapAdds(l.base.value + Target(r, sym), 0, l.base.value + Target(r, sym));
  }

  lemma DescriptorPlace(r: Reloc, v: Var, sym: Sym, l: Loader, p: Process, bias: Word, offset: int)
    requires r.kind.TlsDesc? && AppliedReloc(r, sym, l, v.variant, p, bias) && l.moduleID != 0
    requires v.access.TlsDescriptor? && v.slot == r.slot && Wrap(Target(r, sym) + v.addend) == Wrap(offset)
    ensures PlaceOf(Locate(v, p, bias), l, offset)
  {
    hide Wrap, Signed, Target, ReturnsArg, StaticLoc, DynamicLoc;
    var d := p.Pair(Wrap(bias + r.slot)).value;
    if StaticArg(r, sym, l, v.variant, p, d.0, d.1) {
      StaticSum(l.base.value, Target(r, sym), v.addend, offset);
    } else {
      WrapAdds(Target(r, sym), v.addend, Target(r, sym) + v.addend);
    }
  }

  lemma StaticSum(base: Word, t: int, addend: Word, offset: int)
    requires Wrap(t + addend) == Wrap(offset)
    ensures Wrap(Wrap(base + t) + addend) == Wrap(base + offset)
  {
    hide Wrap;
    WrapAdds(base + t, addend, base + t + addend);
    WrapAdds(t + addend, base, base + t + addend);
    WrapAdds(offset, base, base + offset);
  }

  lemma DynamicPathPlace(r: Reloc, v: Var, sym: Sym, l: Loader, p: Process, bias: Word)
    requires r.kind.DtpMod? && AppliedReloc(r, sym, l, v.variant, p, bias) && l.moduleID != 0 && v.slot == r.slot
    requires if r.name == "" then v.access.LocalDynamic? && v.addend == sym.value
             else v.access.GeneralDynamic? && v.addend == 0
    ensures PlaceOf(Locate(v, p, bias), l, sym.value)
  {
    hide Wrap, DynamicLoc;
    WrapId(sym.value);
  }

  /** The executable's own block plus the symbol. */
  lemma LocalExecPlace(f: File, v: Var, sym: Sym, l: Loader, p: Process, bias: Word)
    requires Applied(f, sym, l, p, bias) && f.executable && v.access.LocalExec?
    requires StaticTlsOffset(f.segment, f.variant.value, sym) == Some(v.addend)
    ensures PlaceOf(Locate(v, p, bias), l, sym.value)
  {
    hide Wrap, AppliedReloc, Concerns, RoundUp, PowerOfTwo, StaticLoc;
    var g := f.segment.value;
    var align := if g.align < 1 then 1 else g.align;
    RoundUpIsLeast(16, align);
    RoundUpIsLeast(g.memsz, align);
    hide LeastMultiple;
    WrapAdds(RoundUp(16, align), sym.value, RoundUp(16, align) + sym.value);
    WrapAdds(-RoundUp(g.memsz, align), sym.value, sym.value - RoundUp(g.memsz, align));
  }

  // ----- Main results -----

  lemma AppliedTo(f: File, sym: Sym, l: Loader, p: Process, bias: Word, r: Reloc)
    requires Applied(f, sym, l, p, bias) && r in f.relocs && Concerns(r, sym)
    ensures AppliedReloc(r, sym, l, f.variant.value, p, bias) && l.moduleID != 0
  {
    hide AppliedReloc;
  }

  /** The addend of the relocation chosen, when that one names the symbol and is a TPOFF64 or a
      descriptor; the other paths account for theirs. */
  function ChosenAddend(rs: seq<Reloc>, sym: Sym): Int64 {
    var tpoff, exact, desc := First(rs, Named(TpOff), sym), First(rs, ExactOffset, sym), First(rs, Named(TlsDesc), sym);
    if tpoff.Some? then tpoff.value.addend
    else if exact.None? && desc.Some? then desc.value.addend
    else 0
  }

  lemma Usable(rs: seq<Reloc>, sym: Sym)
    ensures var ps := Paths(rs, sym);
            && Preferred(ps) ==
               (if ps[0].slot != 0 then Some(ps[0]) else if ps[1].slot != 0 then Some(ps[1])
                else if ps[2].slot != 0 then Some(ps[2]) else if ps[3].slot != 0 then Some(ps[3])
                else if ps[4].slot != 0 then Some(ps[4]) else if ps[5].slot != 0 then Some(ps[5]) else None)
            && (ps[0].slot != 0 <==> First(rs, Named(TpOff), sym).Some?)
            && (ps[1].slot != 0 <==> First(rs, ExactOffset, sym).Some?)
            && (ps[2].slot != 0 <==> First(rs, Named(TlsDesc), sym).Some?)
            && (ps[4].slot != 0 <==> First(rs, Named(DtpMod), sym).Some?)
            && (ps[5].slot != 0 <==> First(rs, AnyModule, sym).Some?)
  {
    hide First, Best, Preferred;
    FirstUsable(Paths(rs, sym));
    MatchHasSlot(rs, Named(TpOff), sym);
    MatchHasSlot(rs, ExactOffset, sym);
    MatchHasSlot(rs, Named(TlsDesc), sym);
    MatchHasSlot(rs, Named(DtpMod), sym);
    MatchHasSlot(rs, AnyModule, sym);
  }

  lemma TpOffPlace(f: File, v: Var, sym: Sym, l: Loader, p: Process, bias: Word)
    requires Applied(f, sym, l, p, bias) && Resolution(f, Some(sym)) == Found(v)
    requires First(f.relocs, Named(TpOff), sym).Some? || First(f.relocs, ExactOffset, sym).Some?
    ensures PlaceOf(Locate(v, p, bias), l, sym.value + ChosenAddend(f.relocs, sym))
  {
    hide Applied, AppliedReloc, Locate, First, Best, StaticTlsOffset, Wrap, StaticLoc, Preferred;
    Usable(f.relocs, sym);
    var named, exact := First(f.relocs, Named(TpOff), sym), First(f.relocs, ExactOffset, sym);
    var r := if named.Some? then named.value else exact.value;
    AppliedTo(f, sym, l, p, bias, r);
    InitialExecPlace(r, v, sym, l, p, bias);
    SignedWraps(l.base.value, sym.value);
  }

  lemma DescPlace(f: File, v: Var, sym: Sym, l: Loader, p: Process, bias: Word)
    requires Applied(f, sym, l, p, bias) && Resolution(f, Some(sym)) == Found(v) && v.access.TlsDescriptor?
    ensures PlaceOf(Locate(v, p, bias), l, sym.value + ChosenAddend(f.relocs, sym))
  {
    hide Applied, AppliedReloc, Locate, First, Best, StaticTlsOffset, Wrap, StaticLoc, PlaceOf, Signed, Preferred;
    Usable(f.relocs, sym);
    var named := First(f.relocs, Named(TlsDesc), sym);
    if named.Some? {
      AppliedTo(f, sym, l, p, bias, named.value);
      DescriptorPlace(named.value, v, sym, l, p, bias, sym.value + named.value.addend);
    } else {
      var r := Best(f.relocs, sym).value;
      AppliedTo(f, sym, l, p, bias, r);
      WrapAdds(sym.value - r.addend, r.addend, sym.value);
      DescriptorPlace(r, v, sym, l, p, bias, sym.value);
    }
  }

  lemma OtherPlace(f: File, v: Var, sym: Sym, l: Loader, p: Process, bias: Word)
    requires Applied(f, sym, l, p, bias) && Resolution(f, Some(sym)) == Found(v) && !v.access.TlsDescriptor?
             && !v.access.InitialExec?
    ensures PlaceOf(Locate(v, p, bias), l, sym.value) && ChosenAddend(f.relocs, sym) == 0
  {
    hide Applied, AppliedReloc, Locate, First, Best, StaticTlsOffset, Wrap, PlaceOf, Signed, Preferred;
    Usable(f.relocs, sym);
    var rs := f.relocs;
    if v.access.LocalExec? {
      LocalExecPlace(f, v, sym, l, p, bias);
    } else {
      var r := if v.access.GeneralDynamic? then First(rs, Named(DtpMod), sym).value
               else First(rs, AnyModule, sym).value;
      AppliedTo(f, sym, l, p, bias, r);
      DynamicPathPlace(r, v, sym, l, p, bias);
    }
  }

  /** For every list of relocations and every process whose loader applied them, following the
      chosen path leads to the variable, or reports that its place does not fit a descriptor, exactly
      when the relocation chosen does not name the symbol with an addend of its own. */
  lemma ResolveThenLocate(f: File, sym: Sym, l: Loader, p: Process, bias: Word)
    requires Applied(f, sym, l, p, bias) && Resolution(f, Some(sym)).Found?
    ensures var r, k := Locate(Resolution(f, Some(sym)).v, p, bias), ChosenAddend(f.relocs, sym);
            && (k == 0 ==> RightOrTooLarge(r, l, sym)) && (r.At? ==> (IsTrue(l, sym, r.loc) <==> k == 0))
            && Reported(r)
  {
    hide Applied, Locate, First, Best, StaticTlsOffset, Signed, Wrap, PlaceOf, IsTrue, ChosenAddend, Preferred;
    Usable(f.relocs, sym);
    var v, rs := Resolution(f, Some(sym)).v, f.relocs;
    if First(rs, Named(TpOff), sym).Some? || First(rs, ExactOffset, sym).Some? {
      TpOffPlace(f, v, sym, l, p, bias);
    } else if v.access.TlsDescriptor? {
      DescPlace(f, v, sym, l, p, bias);
    } else {
      OtherPlace(f, v, sym, l, p, bias);
    }
    PlaceRight(Locate(v, p, bias), l, sym, ChosenAddend(rs, sym));
  }

  // ----- A named descriptor with an addend -----

  const VARIABLE := Sym("x", 16, 8, true, true)

  const SHIFTED_FILE := File([Reloc(0x1000, "x", TlsDesc, 8)], false, Some(VariantII), false, None)

  /** Blocks start 64 bytes below the thread pointer. */
  const SHIFTED_LOADER := Loader(1, Some(0xffff_ffff_ffff_ffc0))

  function ShiftedProcess(): Process {
    Process(a => if a == 0x1000 then Some(0x5000)
                 else if a == 0x1008 then Some(0xffff_ffff_ffff_ffd8)
                 else None,
            _ => None)
  }

  /** The loader fills the descriptor with the offset of x + 8, and that is the place found. */
  lemma NamedAddend()
    ensures Applied(SHIFTED_FILE, VARIABLE, SHIFTED_LOADER, ShiftedProcess(), 0)
    ensures Resolution(SHIFTED_FILE, Some(VARIABLE)) == Found(Var(TlsDescriptor, 0x1000, 0, VariantII))
    ensures var r := Locate(Var(TlsDescriptor, 0x1000, 0, VariantII), ShiftedProcess(), 0);
            r == At(Location(0, -40)) && !IsTrue(SHIFTED_LOADER, VARIABLE, r.loc)
              && IsTrue(SHIFTED_LOADER, VARIABLE, Location(0, -48))
  {
    hide Applied, Resolution, Locate, IsTrue;
    ShiftedApplied();
    ShiftedFound();
    ShiftedPlace();
  }

  lemma ShiftedApplied()
    ensures Applied(SHIFTED_FILE, VARIABLE, SHIFTED_LOADER, ShiftedProcess(), 0)
  {
    var r := Reloc(0x1000, "x", TlsDesc, 8);
    assert AppliedReloc(r, VARIABLE, SHIFTED_LOADER, VariantII, ShiftedProcess(), 0);
    hide AppliedReloc, ShiftedProcess;
  }

  lemma ShiftedFound()
    ensures Resolution(SHIFTED_FILE, Some(VARIABLE)) == Found(Var(TlsDescriptor, 0x1000, 0, VariantII))
  {
    hide First, Best, Preferred, Paths;
    OnlyDescriptor(Reloc(0x1000, "x", TlsDesc, 8));
  }

  lemma ShiftedPlace()
    ensures Locate(Var(TlsDescriptor, 0x1000, 0, VariantII), ShiftedProcess(), 0) == At(Location(0, -40))
    ensures !IsTrue(SHIFTED_LOADER, VARIABLE, Location(0, -40)) && IsTrue(SHIFTED_LOADER, VARIABLE, Location(0, -48))
  {
    hide ReturnsArg;
    assert ShiftedProcess().Pair(0x1000) == Some((0x5000, 0xffff_ffff_ffff_ffd8));
    assert Signed(0xffff_ffff_ffff_ffd8) == -40 && Int32(-40) == -40;
  }

  lemma OnlyDescriptor(r: Reloc)
    requires r == Reloc(0x1000, "x", TlsDesc, 8)
    ensures Preferred(Paths([r], VARIABLE)) == Some(Path(TlsDescriptor, 0x1000, 0))
  {
    hide Preferred, Wrap, Signed;
    var rs := [r];
    assert First(rs, Named(TpOff), VARIABLE).None? && First(rs, ExactOffset, VARIABLE).None?;
    assert r in rs && Matches(Named(TlsDesc), VARIABLE, r);
    assert First(rs, Named(TlsDesc), VARIABLE).value == r;
    FirstUsable(Paths(rs, VARIABLE));
  }

  // ----- Which access model -----

  /** The relocation names the symbol. */
  predicate Names(r: Reloc, sym: Sym) { r.name == sym.name && r.name != "" }

  /** A GOT slot for the symbol's offset, by name or by an addend equal to its value. */
  predicate HasTpOff(r: Reloc, sym: Sym) {
    r.kind.TpOff? && (Names(r, sym) || (r.name == "" && r.addend == Signed(sym.value)))
  }

  /** A descriptor, by name or for a place in the module at or before the symbol's. */
  predicate HasDescriptor(r: Reloc, sym: Sym) {
    r.kind.TlsDesc? && (Names(r, sym) || (r.name == "" && 0 <= r.addend <= Signed(sym.value)))
  }

  lemma SearchesMean(rs: seq<Reloc>, sym: Sym)
    requires forall r | r in rs :: r.slot != 0
    ensures (exists r :: r in rs && HasTpOff(r, sym)) <==>
            First(rs, Named(TpOff), sym).Some? || First(rs, ExactOffset, sym).Some?
    ensures (exists r :: r in rs && HasDescriptor(r, sym)) <==>
            First(rs, Named(TlsDesc), sym).Some? || Best(rs, sym).Some?
    ensures (exists r :: r in rs && r.kind.DtpMod? && Names(r, sym)) <==> First(rs, Named(DtpMod), sym).Some?
    ensures (exists r :: r in rs && r.kind.DtpMod? && r.name == "") <==> First(rs, AnyModule, sym).Some?
  {
    hide Signed, First, Best;
    forall r | r in rs
      ensures HasTpOff(r, sym) <==> Matches(Named(TpOff), sym, r) || Matches(ExactOffset, sym, r)
      ensures HasDescriptor(r, sym) <==> Matches(Named(TlsDesc), sym, r) || Eligible(r, sym)
      ensures r.kind.DtpMod? && Names(r, sym) <==> Matches(Named(DtpMod), sym, r)
      ensures r.kind.DtpMod? && r.name == "" <==> Matches(AnyModule, sym, r)
    {}
    hide Matches, Eligible, HasTpOff, HasDescriptor, Names;
  }

  /** Paths that avoid a lookup in the DTV come first: an offset in a GOT slot, then a descriptor, and
      a module number only when there is neither. */
  lemma Precedence(rs: seq<Reloc>, sym: Sym)
    requires forall r | r in rs :: r.slot != 0
    ensures var p := Preferred(Paths(rs, sym));
            var tpoff, desc := exists r :: r in rs && HasTpOff(r, sym), exists r :: r in rs && HasDescriptor(r, sym);
            var dynamic := exists r :: r in rs && r.kind.DtpMod? && Names(r, sym);
            var local := exists r :: r in rs && r.kind.DtpMod? && r.name == "";
            && (p.None? <==> !tpoff && !desc && !dynamic && !local)
            && (p.Some? ==>
                  p.value.access == if tpoff then InitialExec else if desc then TlsDescriptor
                                    else if dynamic then GeneralDynamic else LocalDynamic)
  {
    hide Matches, Eligible, Signed, Wrap, Preferred, First, Best, HasTpOff, HasDescriptor, Names;
    var ps := Paths(rs, sym);
    SearchesMean(rs, sym);
    Usable(rs, sym);
    assert ps[3].slot != 0 <==> Best(rs, sym).Some?;
  }

  /** Some relocation can be used, by name or by what it refers to in the module. */
  ghost predicate Relocated(rs: seq<Reloc>, sym: Sym) {
    exists r :: r in rs && (HasTpOff(r, sym) || HasDescriptor(r, sym)
                            || (r.kind.DtpMod? && (Names(r, sym) || r.name == "")))
  }

  /** What resolving comes to: an error for what is no thread-local variable of the file, for an unknown
      machine, and for relocations that cannot all be read when none that was names the symbol in a
      TPOFF64; a path through a relocation when there is one; and else the static offset in an
      executable. */
  lemma Outcomes(f: File, sym: Sym)
    requires forall r | r in f.relocs :: r.slot != 0
    ensures Resolution(f, None) == NotThreadLocal
    ensures var r, rs := Resolution(f, Some(sym)), f.relocs;
            if !(sym.defined && sym.threadLocal) then r == NotThreadLocal
            else if f.variant.None? then r == Unsupported
            else if f.broken && !(exists r :: r in rs && r.kind.TpOff? && Names(r, sym)) then r == BadRelocs
            else if Relocated(rs, sym) then r.Found? && !r.v.access.LocalExec?
            else if !f.executable then r == Unsupported
            else if StaticTlsOffset(f.segment, f.variant.value, sym).None? then r == BadSegment
            else
              r.Found? && r.v.access.LocalExec?
              && Some(r.v.addend) == StaticTlsOffset(f.segment, f.variant.value, sym)
  {
    hide StaticTlsOffset, Preferred, Paths, First, HasTpOff, HasDescriptor;
    Precedence(f.relocs, sym);
    NamedTpOff(f.relocs, sym);
  }

  lemma NamedTpOff(rs: seq<Reloc>, sym: Sym)
    requires forall r | r in rs :: r.slot != 0
    ensures First(rs, Named(TpOff), sym).Some? <==> exists r :: r in rs && r.kind.TpOff? && Names(r, sym)
  {
    hide First;
    forall r | r in rs ensures r.kind.TpOff? && Names(r, sym) <==> Matches(Named(TpOff), sym, r) {}
  }

  lemma FirstUsable(ps: seq<Path>)
    requires |ps| == 6
    ensures Preferred(ps) ==
            if ps[0].slot != 0 then Some(ps[0]) else if ps[1].slot != 0 then Some(ps[1])
            else if ps[2].slot != 0 then Some(ps[2]) else if ps[3].slot != 0 then Some(ps[3])
            else if ps[4].slot != 0 then Some(ps[4]) else if ps[5].slot != 0 then Some(ps[5]) else None
  {
    assert ps[1..][1..] == ps[2..] && ps[2..][1..] == ps[3..] && ps[3..][1..] == ps[4..] && ps[4..][1..] == ps[5..];
    assert ps[5..][1..] == [];
    assert Preferred(ps[5..]) == if ps[5].slot != 0 then Some(ps[5]) else None;
    assert Preferred(ps[3..]) ==
           if ps[3].slot != 0 then Some(ps[3]) else if ps[4].slot != 0 then Some(ps[4]) else Preferred(ps[5..]);
    assert Preferred(ps[1..]) ==
           if ps[1].slot != 0 then Some(ps[1]) else if ps[2].slot != 0 then Some(ps[2]) else Preferred(ps[3..]);
  }

  // ----- Order does not matter -----

  /** Lists of the same relocations, whatever their order, lead to the same access model and the
      same adjustment. */
  lemma OrderFree(rs: seq<Reloc>, qs: seq<Reloc>, sym: Sym)
    requires (forall r :: r in rs <==> r in qs) && forall r | r in rs :: r.slot != 0
    ensures var a, b := Preferred(Paths(rs, sym)), Preferred(Paths(qs, sym));
            a.Some? == b.Some? && (a.Some? ==> a.value.access == b.value.access && a.value.addend == b.value.addend)
  {
    hide Preferred, First, Best, Wrap, Signed;
    SameFirst(rs, qs, Named(TpOff), sym);
    SameFirst(rs, qs, ExactOffset, sym);
    SameFirst(rs, qs, Named(TlsDesc), sym);
    SameFirst(rs, qs, Named(DtpMod), sym);
    SameFirst(rs, qs, AnyModule, sym);
    SameBest(rs, qs, sym);
    PreferredAlike(Paths(rs, sym), Paths(qs, sym));
  }

  lemma SameFirst(rs: seq<Reloc>, qs: seq<Reloc>, s: Search, sym: Sym)
    requires forall r :: r in rs <==> r in qs
    ensures SlotOf(First(rs, s, sym)) == 0 <==> SlotOf(First(qs, s, sym)) == 0
  {
    hide Matches;
    MatchHasSlot(rs, s, sym);
    MatchHasSlot(qs, s, sym);
  }

  lemma SameBest(rs: seq<Reloc>, qs: seq<Reloc>, sym: Sym)
    requires (forall r :: r in rs <==> r in qs) && forall r | r in rs :: r.slot != 0
    ensures SlotOf(Best(rs, sym)) == 0 <==> SlotOf(Best(qs, sym)) == 0
    ensures Residual(Best(rs, sym), sym) == Residual(Best(qs, sym), sym)
  {
    hide Wrap, Eligible;
  }

  lemma {:induction false} PreferredAlike(ps: seq<Path>, qs: seq<Path>)
    requires |ps| == |qs|
    requires forall i | 0 <= i < |ps| ::
               ps[i].access == qs[i].access && ps[i].addend == qs[i].addend && (ps[i].slot == 0 <==> qs[i].slot == 0)
    ensures var a, b := Preferred(ps), Preferred(qs);
            a.Some? == b.Some? && (a.Some? ==> a.value.access == b.value.access && a.value.addend == b.value.addend)
    decreases |ps|
  {
    if ps != [] && ps[0].slot == 0 { PreferredAlike(ps[1..], qs[1..]); }
  }
}
