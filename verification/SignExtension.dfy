/** Moves that extend the sign and writes to narrow registers: where the interpreter follows them. */
module SignExtension {
  import opened Words
  import opened Options
  import opened Expressions
  import opened ExpressionLaws
  import opened X86
  import opened X86Soundness

  lemma SmallPowers()
    ensures Pow2(7) == 0x80 && Pow2(8) == 0x100 && Pow2(15) == 0x8000 && Pow2(16) == 0x1_0000
    ensures Pow2(31) == 0x8000_0000 && Pow2(32) == 0x1_0000_0000
    ensures Pow2(63) == 0x8000_0000_0000_0000 && Pow2(64) == 0x1_0000_0000_0000_0000
  {
    Pow2Of8();
    Pow2Of64();
    assert Pow2(4) == 16 && Pow2(12) == 0x1000;
    assert Pow2(24) == 0x100_0000 && Pow2(28) == 0x1000_0000;
  }

  // ----- Sign extension -----

  /** The signed number of `bits` bits that agrees with w in them. */
  lemma SignExtendMeans(w: Word, bits: nat)
    requires 1 <= bits <= 64
    ensures var r := Signed(SignExtended(w, bits));
            0 <= r + Pow2(bits - 1) < Pow2(bits) && (r - w) % Pow2(bits) == 0
  {
    Pow2Of64();
    if bits < 64 {
      Pow2Monotone(bits, 63);
      assert Pow2(bits) == 2 * Pow2(bits - 1);
      FromFewer(w, bits);
      ReadSigned(w, Pow2(bits), Pow2(bits - 1));
    } else {
      WholeSigned(w);
    }
    hide Pow2, Signed, Wrap, SignExtended;
  }

  lemma FromFewer(w: Word, bits: nat)
    requires 1 <= bits < 64
    ensures var low := w % Pow2(bits);
            SignExtended(w, bits) == if low >= Pow2(bits - 1) then Wrap(low - Pow2(bits)) else low
  {
    hide Pow2, Wrap;
  }

  lemma WholeSigned(w: Word)
    ensures SignExtended(w, 64) == w
    ensures 0 <= Signed(w) + 0x8000_0000_0000_0000 < 0x1_0000_0000_0000_0000
    ensures (Signed(w) - w) % 0x1_0000_0000_0000_0000 == 0
  {
    hide Pow2;
  }

  lemma ReadSigned(w: Word, d: nat, half: nat)
    requires 1 <= half <= 0x4000_0000_0000_0000 && d == 2 * half
    ensures var low := w % d;
            var r := Signed(if low >= half then Wrap(low - d) else low);
            0 <= r + half < d && (r - w) % d == 0
  {
    Remainder(w, d);
    LowSigned(w % d, half);
    hide Signed, Wrap;
  }

  lemma LowSigned(low: Word, half: nat)
    requires 1 <= half <= 0x4000_0000_0000_0000 && low < 2 * half
    ensures low < half ==> Signed(low) == low
    ensures low >= half ==> Signed(Wrap(low - 2 * half)) == low - 2 * half
  {}

  lemma Remainder(w: Word, d: nat)
    requires d > 0
    ensures 0 <= w % d < d && (w % d - w) % d == 0 && (w % d - d - w) % d == 0
  {
    var q, r := w / d, w % d;
    DivMod(w, d);
    Multiples(q, d);
    MultipleMod(-q, d);
    MultipleMod(-q - 1, d);
  }

  lemma Multiples(q: int, d: nat)
    ensures -q * d == -(q * d) && (-q - 1) * d == -(q * d) - d
  {}

  lemma MultipleMod(k: int, d: nat)
    requires d > 0
    ensures (k * d) % d == 0
  {
    ModUnique(k * d, k, 0, d);
  }

  /** Extending from as many bits as are kept changes nothing. */
  lemma SignKeepsLow(w: Word, bits: nat)
    requires bits in {32, 64}
    ensures LowBits(SignExtended(w, bits), bits) == LowBits(w, bits)
  {
    SmallPowers();
    hide Pow2;
  }

  lemma NegativeExtended(w: Word, width: nat)
    requires width in {8, 16, 32} && w < Pow2(width)
    ensures SignExtended(w, width) == if w < Pow2(width - 1) then w else 0x1_0000_0000_0000_0000 + w - Pow2(width)
  {
    SmallPowers();
    hide Pow2;
    SmallMod(w, Pow2(width));
  }

  /** Extending from fewer bits changes exactly negative numbers. */
  lemma SignMatters(w: Word, width: nat, bits: nat)
    requires width in {8, 16, 32} && bits in {32, 64} && width <= bits && w < Pow2(width)
    ensures LowBits(SignExtended(w, width), bits) == LowBits(w, bits) <==> w < Pow2(width - 1) || width == bits
  {
    NegativeExtended(w, width);
    hide SignExtended;
    SmallPowers();
    hide Pow2;
  }

  // ----- The processor's sign-extending moves -----

  predicate ExtendsSign(i: Inst) {
    && (i.op.MOVSX? || i.op.MOVSXD?) && WideDst(i)
    && match i.src
       case RegArg(r) => Tracked(r) && r.bits <= i.dst.r.bits && r.bits < 64
       case MemArg(a) =>
         && GoodMem(a) && !a.absolute && i.memBytes in {1, 2, 4} && 8 * i.memBytes <= i.dst.r.bits
         && i.dataSize == i.dst.r.bits
       case _ => false
  }

  function SourceWidth(i: Inst): nat
    requires ExtendsSign(i)
  {
    if i.src.RegArg? then i.src.r.bits else 8 * i.memBytes
  }

  /** The source before it is extended. */
  function Narrow(m: Machine, i: Inst): Word
    requires ExtendsSign(i)
  {
    match i.src
    case RegArg(r) => Read(m, r)
    case MemArg(a) => Load(m.mem, a.segment, EffectiveAddress(m, a), i.memBytes)
  }

  function Advanced(m: Machine, len: nat): Machine { m.(regs := m.regs[RIP := Wrap(m.regs[RIP] + len)]) }

  /** The processor's step, RIP first. */
  function RetireSigned(m: Machine, i: Inst): Machine
    requires ExtendsSign(i)
  {
    var m' := Advanced(m, i.len);
    Write(m', i.dst.r, SignExtended(Narrow(m', i), SourceWidth(i)))
  }

  // ----- The interpreter's step -----

  lemma {:induction false} BytesFit(bytes: Word -> Byte, at: Word, n: nat)
    ensures LoadBytes(bytes, at, n) < Pow2(8 * n)
    decreases n
  {
    if n > 0 {
      BytesFit(bytes, Wrap(at + 1), n - 1);
      EightMore(8 * (n - 1));
    }
  }

  lemma EightMore(n: nat)
    ensures Pow2(n + 8) == 256 * Pow2(n)
  {
    assert Pow2(n + 2) == 4 * Pow2(n) && Pow2(n + 4) == 4 * Pow2(n + 2);
    assert Pow2(n + 6) == 4 * Pow2(n + 4) && Pow2(n + 8) == 4 * Pow2(n + 6);
  }

  lemma LoadFits(mem: Memory, segment: nat, at: Word, n: nat)
    ensures Load(mem, segment, at, n) < Pow2(8 * n)
  {
    hide Pow2;
    var a := Plus(mem.segmentBase(segment), at);
    BytesFit(mem.bytes, a, n);
    ModBelow(LoadBytes(mem.bytes, a, n), 0x1_0000_0000_0000_0000);
  }

  lemma NarrowFits(m: Machine, i: Inst)
    requires ExtendsSign(i)
    ensures Narrow(m, i) < Pow2(SourceWidth(i))
  {
    hide Pow2, Load, EffectiveAddress;
    match i.src
    case RegArg(r) =>
    case MemArg(a) => LoadFits(m.mem, a.segment, EffectiveAddress(m, a), i.memBytes);
  }

  lemma SignedTerm(v: Expr, bits: nat, env: Env)
    ensures Eval(Extended(v, bits, true), env) == SignExtended(Eval(v, env), bits)
  {}

  /** A sign-extended load stays apart from a plain one, but comes to the same number. */
  lemma SignedLoad(regs: Regs, m: Machine, env: Env, i: Inst)
    requires Follows(regs, m, env) && ExtendsSign(i) && i.src.MemArg?
    ensures var t := Loaded(regs, i, i.src.m);
            && t.Extended? && t.sign && t.v.MemRef?
            && LowBits(Eval(t, env), i.dst.r.bits) == LowBits(Narrow(m, i), i.dst.r.bits)
  {
    var a, bits := i.src.m, i.dst.r.bits;
    hide LowBits, SignExtended, Wrap, EffectiveAddress, Address, Load, Get, Sum, ImmFromDisp;
    if a.base == Some(Rip) { RipAddress(regs, m, env, a); } else { AddressValue(regs, m, env, a); }
    var at := if a.base == Some(Rip) then Sum([Get(regs, Rip), ImmFromDisp(a.disp)]) else Address(regs, a);
    SignedTerm(MemRef(a.segment, at, i.memBytes), bits, env);
    SignKeepsLow(Narrow(m, i), bits);
  }

  lemma MovesNarrow(regs: Regs, m: Machine, env: Env, i: Inst)
    requires Follows(regs, m, env) && ExtendsSign(i)
    ensures Follows(Execute(regs, i), Write(m, i.dst.r, Narrow(m, i)), env)
  {
    hide Eval, Wrap, Get, Set, LowBits, Read, Follows, Loaded, Load, EffectiveAddress, Write;
    var dst := i.dst.r;
    WrapId(Narrow(m, i));
    match i.src
    case RegArg(r) =>
      GetValue(regs, m, env, r);
      SetFollows(regs, m, env, dst, Get(regs, r), Narrow(m, i));
    case MemArg(a) =>
      SignedLoad(regs, m, env, i);
      SetFollows(regs, m, env, dst, Loaded(regs, i, a), Narrow(m, i));
  }

  /** What the interpreter follows is the move without the extension. */
  lemma StepNarrow(s: State, m: Machine, env: Env, i: Inst)
    requires InStep(s, m, env) && ExtendsSign(i)
    ensures var m' := Advanced(m, i.len); InStep(Step(s, i), Write(m', i.dst.r, Narrow(m', i)), env)
  {
    hide Eval, Execute, Follows, Wrap, Set, Sum, Narrow, LowBits;
    RipFollows(s, m, env, i.len);
    var regs := Set(s.regs, Rip, Sum([s.codeAddress, Immediate(Wrap(s.pc + i.len))]));
    MovesNarrow(regs, Advanced(m, i.len), env, i);
  }

  /** A move that extends the sign keeps terms and machine in step exactly when the source is not negative,
      or is as wide as the destination, so that nothing is extended. */
  lemma SignMoveIff(s: State, m: Machine, env: Env, i: Inst)
    requires InStep(s, m, env) && ExtendsSign(i)
    ensures InStep(Step(s, i), RetireSigned(m, i), env) <==>
            Narrow(Advanced(m, i.len), i) < Pow2(SourceWidth(i) - 1) || SourceWidth(i) == i.dst.r.bits
  {
    hide InStep, Step, Pow2, SignExtended, Advanced, Narrow, Wrap;
    var m', dst := Advanced(m, i.len), i.dst.r;
    var x := Narrow(m', i);
    var signed := SignExtended(x, SourceWidth(i));
    StepNarrow(s, m, env, i);
    NarrowFits(m', i);
    SignMatters(x, SourceWidth(i), dst.bits);
    WrapId(x);
    WrapId(signed);
    hide LowBits;
    if LowBits(signed, dst.bits) != LowBits(x, dst.bits) {
      DifferentRegister(Step(s, i), RetireSigned(m, i), Write(m', dst, x), env, dst.idx);
    }
  }

  // ----- For an instruction -----

  /** A machine whose registers and bytes have all bits set. */
  function AllOnes(): Machine {
    Machine(seq(18, _ => 0xffff_ffff_ffff_ffff), Memory(_ => 255, _ => 0))
  }

  lemma {:induction false} OnesLoaded(at: Word, n: nat)
    ensures LoadBytes(AllOnes().mem.bytes, at, n) == Pow2(8 * n) - 1
    decreases n
  {
    if n > 0 {
      OnesLoaded(Wrap(at + 1), n - 1);
      EightMore(8 * (n - 1));
    }
  }

  lemma OnesLow(bits: nat)
    requires bits in {8, 16, 32}
    ensures LowBits(0xffff_ffff_ffff_ffff, bits) >= Pow2(bits - 1)
  {
    SmallPowers();
    hide Pow2;
  }

  lemma OnesLoad(segment: nat, at: Word, n: nat)
    requires n in {1, 2, 4}
    ensures Load(AllOnes().mem, segment, at, n) >= Pow2(8 * n - 1)
  {
    OnesLoaded(Plus(AllOnes().mem.segmentBase(segment), at), n);
    SmallPowers();
    hide Pow2, LoadBytes;
  }

  lemma AllNegative(i: Inst)
    requires ExtendsSign(i)
    ensures Narrow(Advanced(AllOnes(), i.len), i) >= Pow2(SourceWidth(i) - 1)
  {
    hide EffectiveAddress, Load, LowBits, Pow2;
    var m := Advanced(AllOnes(), i.len);
    match i.src
    case RegArg(r) => OnesLow(r.bits);
    case MemArg(a) => OnesLoad(a.segment, EffectiveAddress(m, a), i.memBytes);
  }

  /** A move that extends the sign keeps terms and machine in step from every state exactly when it has
      nothing to extend. */
  lemma SignFollowedIff(i: Inst)
    requires ExtendsSign(i)
    ensures (forall s, m, env | InStep(s, m, env) :: InStep(Step(s, i), RetireSigned(m, i), env)) <==>
            SourceWidth(i) == i.dst.r.bits
  {
    hide InStep, Step, RetireSigned, Narrow, Advanced, Pow2, InitRegs, AllOnes;
    if SourceWidth(i) == i.dst.r.bits {
      forall s, m, env | InStep(s, m, env) ensures InStep(Step(s, i), RetireSigned(m, i), env) {
        SignMoveIff(s, m, env, i);
      }
    } else {
      var s, m := State(InitRegs(), 0, Named("RIP")), AllOnes();
      InitialState(m, Named("RIP"));
      AllNegative(i);
      SignMoveIff(s, m, EnvOf(m), i);
    }
  }

  // ----- Writes to narrow registers -----

  predicate NarrowReg(r: Reg) { Tracked(r) && r.bits in {8, 16} }

  /** An 8- or 16-bit write keeps the bits above. */
  function WriteNarrow(m: Machine, r: Reg, v: int): Machine
    requires NarrowReg(r)
  {
    var was := m.regs[r.idx];
    m.(regs := m.regs[r.idx := Wrap(was - LowBits(was, r.bits) + LowBits(Wrap(v), r.bits))])
  }

  lemma KeptAbove(was: Word, low: Word, bits: nat)
    requires bits in {8, 16} && low < Pow2(bits)
    ensures Wrap(was - LowBits(was, bits) + low) == low <==> was < Pow2(bits)
  {
    SmallPowers();
    hide Pow2;
  }

  lemma LowFits(w: Word, bits: nat)
    requires bits in {8, 16}
    ensures LowBits(w, bits) < Pow2(bits)
  {
    hide Pow2;
  }

  /** The interpreter clears them: the terms follow such a write exactly when they were zero. */
  lemma NarrowWriteIff(regs: Regs, m: Machine, env: Env, r: Reg, t: Expr, v: int)
    requires Follows(regs, m, env) && NarrowReg(r) && LowBits(Eval(t, env), r.bits) == LowBits(Wrap(v), r.bits)
    ensures Follows(Set(regs, r, t), WriteNarrow(m, r, v), env) <==> m.regs[r.idx] < Pow2(r.bits)
  {
    hide Eval, LowBits, Wrap, Pow2;
    var low := LowBits(Wrap(v), r.bits);
    ZeroExtendValue(t, r.bits, env);
    LowFits(Wrap(v), r.bits);
    KeptAbove(m.regs[r.idx], low, r.bits);
    assert Eval(Set(regs, r, t)[r.idx], env) == low;
    assert WriteNarrow(m, r, v).regs[r.idx] == Wrap(m.regs[r.idx] - LowBits(m.regs[r.idx], r.bits) + low);
  }
}
