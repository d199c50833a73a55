/** The interpreter's terms denote what the processor computes. */
module X86Soundness {
  import opened Words
  import opened Options
  import opened Expressions
  import opened ExpressionLaws
  import opened X86

  // ----- The processor -----

  type Byte = b: int | 0 <= b < 256

  datatype Memory = Memory(bytes: Word -> Byte, segmentBase: nat -> Word)

  function LoadBytes(bytes: Word -> Byte, at: Word, n: nat): nat
    decreases n
  {
    if n == 0 then 0 else bytes(at) + 256 * LoadBytes(bytes, Wrap(at + 1), n - 1)
  }

  /** Little-endian load through a segment. */
  function Load(mem: Memory, segment: nat, at: Word, n: nat): Word {
    Wrap(LoadBytes(mem.bytes, Plus(mem.segmentBase(segment), at), n))
  }

  type Values = vs: seq<Word> | |vs| == 18 witness seq(18, _ => 0)

  datatype Machine = Machine(regs: Values, mem: Memory)

  predicate Tracked(r: Reg) { r.Gpr? && 1 <= r.idx <= 16 && r.bits in {8, 16, 32, 64} }

  /** Destinations of 32 and 64 bits; narrower writes keep upper bits and are outside the claim. */
  predicate WideReg(r: Reg) { Tracked(r) && r.bits in {32, 64} }

  function Read(m: Machine, r: Reg): Word
    requires Tracked(r)
  {
    LowBits(m.regs[r.idx], r.bits)
  }

  /** A 32-bit write clears the upper half. */
  function Write(m: Machine, r: Reg, v: int): Machine
    requires WideReg(r)
  {
    m.(regs := m.regs[r.idx := LowBits(Wrap(v), r.bits)])
  }

  predicate AddressReg(r: Option<Reg>, ripAllowed: bool) {
    r.None? || (Tracked(r.value) && r.value.bits == 64) || (ripAllowed && r.value == Rip)
  }

  /** Operands the claim is about; the absolute form has no registers. */
  predicate GoodMem(a: Mem) {
    && AddressReg(a.base, true) && AddressReg(a.index, false) && (a.base == Some(Rip) ==> a.index.None?)
    && (a.absolute ==> a.base.None? && a.index.None?)
  }

  /** The 32-bit displacement meant by what the disassembler reports. */
  function Displacement(disp: Int64): Int64 {
    if 0x8000_0000 <= disp <= 0xffff_ffff then disp - 0x1_0000_0000 else disp
  }

  /** An absolute address that looks like a negative displacement. */
  predicate Misread(a: Mem) { a.absolute && 0x8000_0000 <= a.disp <= 0xffff_ffff }

  function AddressPart(m: Machine, r: Option<Reg>): Word
    requires AddressReg(r, true)
  {
    if r.None? then 0 else if r.value == Rip then m.regs[RIP] else m.regs[r.value.idx]
  }

  function EffectiveAddress(m: Machine, a: Mem): Word
    requires GoodMem(a)
  {
    if a.absolute then Wrap(a.disp)
    else Wrap(Displacement(a.disp) + AddressPart(m, a.base) + AddressPart(m, a.index) * a.scale)
  }

  /** Source operand of an instruction whose destination is `bits` wide. */
  predicate GoodSource(i: Inst, bits: nat) {
    match i.src
    case ImmArg(_) => true
    case RegArg(r) => Tracked(r) && (r.bits == bits || (i.op.MOVZX? && r.bits < bits))
    case MemArg(a) =>
      && GoodMem(a) && (a.absolute ==> i.op.MOV?)
      && (8 * i.memBytes == bits || (i.op.MOVZX? && 8 * i.memBytes < bits))
      && (i.op.MOV? || i.op.MOVZX? ==> i.dataSize == bits)
    case NoArg => false
  }

  function SourceValue(m: Machine, i: Inst, bits: nat): Word
    requires GoodSource(i, bits)
  {
    match i.src
    case ImmArg(v) => Wrap(v)
    case RegArg(r) => Read(m, r)
    case MemArg(a) => Load(m.mem, a.segment, EffectiveAddress(m, a), i.memBytes)
  }

  predicate WideDst(i: Inst) { i.dst.RegArg? && WideReg(i.dst.r) }

  /** The instructions the interpreter has a case for. */
  predicate Handled(i: Inst) {
    match i.op
    case ADD | SUB | MOV | MOVZX => WideDst(i) && GoodSource(i, i.dst.r.bits)
    case SHL => WideDst(i) && i.src.ImmArg? && 0 <= i.src.v < i.dst.r.bits
    case XOR => WideDst(i) && i.src == i.dst
    case AND => WideDst(i) && i.src == ImmArg(3)
    case LEA => WideDst(i) && i.src.MemArg? && GoodMem(i.src.m) && !i.src.m.absolute
    case Transparent => true
    case _ => false
  }

  /** Handled, and not a load from an absolute address that is taken for a displacement. */
  predicate Followed(i: Inst) { Handled(i) && !(i.op.MOV? && i.src.MemArg? && Misread(i.src.m)) }

  /** The processor's step, RIP first. */
  function Retire(m: Machine, i: Inst): Machine
    requires Handled(i)
  {
    Effect(m.(regs := m.regs[RIP := Wrap(m.regs[RIP] + i.len)]), i)
  }

  function Effect(m: Machine, i: Inst): Machine
    requires Handled(i)
  {
    match i.op
    case ADD => Write(m, i.dst.r, Read(m, i.dst.r) + SourceValue(m, i, i.dst.r.bits))
    case SUB => Write(m, i.dst.r, Read(m, i.dst.r) - SourceValue(m, i, i.dst.r.bits))
    case MOV | MOVZX => Write(m, i.dst.r, SourceValue(m, i, i.dst.r.bits))
    case SHL => Write(m, i.dst.r, Read(m, i.dst.r) * Pow2(i.src.v))
    case XOR => Write(m, i.dst.r, 0)
    case AND => Write(m, i.dst.r, Read(m, i.dst.r) % 4)
    case LEA => Write(m, i.dst.r, EffectiveAddress(m, i.src.m))
    case Transparent => m
  }

  predicate AllHandled(code: seq<Inst>) {
    forall i | i in code :: Handled(i)
  }

  predicate AllFollowed(code: seq<Inst>) {
    forall i | i in code :: Followed(i)
  }

  function RetireAll(m: Machine, code: seq<Inst>): Machine
    requires AllHandled(code)
  {
    if code == [] then m else Retire(RetireAll(m, code[..|code| - 1]), code[|code| - 1])
  }

  // ----- Terms against registers -----

  /** The register a name stands for, told apart by its length and last two characters. */
  function NameIndex(name: string): (j: nat)
    ensures j < REGISTERS
  {
    if |name| == 2 then (if name[1] == '8' then 9 else 10)
    else if |name| != 3 then 0
    else match (name[1], name[2])
      case ('A', 'X') => 1 case ('C', 'X') => 2 case ('D', 'X') => 3 case ('B', 'X') => 4
      case ('S', 'P') => 5 case ('B', 'P') => 6 case ('S', 'I') => 7 case ('D', 'I') => 8
      case ('1', '0') => 11 case ('1', '1') => 12 case ('1', '2') => 13
      case ('1', '3') => 14 case ('1', '4') => 15 case ('1', '5') => 16
      case ('I', 'P') => 17
      case _ => 0
  }

  /** The environment of the initial machine state. */
  function EnvOf(m: Machine): Env {
    Env(name => m.regs[NameIndex(name)], _ => 0, (segment, at, n) => Load(m.mem, segment, at, n))
  }

  /** Every tracked register's term, evaluated in env, is the register's value. */
  ghost predicate Follows(regs: Regs, m: Machine, env: Env) {
    && (forall j | 1 <= j < REGISTERS :: Eval(regs[j], env) == m.regs[j])
    && (forall segment, at, n :: env.load(segment, at, n) == Load(m.mem, segment, at, n))
  }

  lemma GetValue(regs: Regs, m: Machine, env: Env, r: Reg)
    requires Follows(regs, m, env) && (Tracked(r) || r == Rip)
    ensures Eval(Get(regs, r), env) == if r == Rip then m.regs[RIP] else Read(m, r)
  {
    hide Eval, LowBits;
    var e := RegMappingFor(r);
    ZeroExtendValue(regs[e.idx], e.bits, env);
    assert LowBits(m.regs[e.idx], 64) == m.regs[e.idx] by { WideLowBits(m.regs[e.idx]); }
  }

  lemma WideLowBits(w: Word)
    ensures LowBits(w, 64) == w
  {}

  lemma SetFollows(regs: Regs, m: Machine, env: Env, r: Reg, t: Expr, v: int)
    requires Follows(regs, m, env) && WideReg(r)
    requires LowBits(Eval(t, env), r.bits) == LowBits(Wrap(v), r.bits)
    ensures Follows(Set(regs, r, t), Write(m, r, v), env)
  {
    hide Eval, LowBits;
    ZeroExtendValue(t, r.bits, env);
    WideLowBits(Eval(t, env));
  }

  lemma DispValue(disp: Int64, env: Env)
    ensures Eval(ImmFromDisp(disp), env) == Wrap(Displacement(disp))
  {}

  lemma {:induction false} OptionalTerm(ts: seq<Expr>, env: Env)
    requires |ts| <= 1
    ensures EvalSum(ts, env) == if ts == [] then 0 else Eval(ts[0], env)
  {
    if ts != [] {
      assert ts == [ts[0]];
      PairValue(ts[0], ts[0], env);
    }
  }

  lemma AddressPartValue(regs: Regs, m: Machine, env: Env, r: Option<Reg>)
    requires Follows(regs, m, env) && AddressReg(r, true)
    ensures r.Some? ==> Eval(Get(regs, r.value), env) == AddressPart(m, r)
  {
    hide Eval, LowBits;
    if r.Some? {
      GetValue(regs, m, env, r.value);
      if r.value != Rip { WideLowBits(m.regs[r.value.idx]); }
    }
  }

  lemma SumOfThree(d: int, b: Word, x: Word, scale: Word)
    ensures Plus(Plus(Wrap(d), b), Times(x, scale)) == Wrap(d + b + x * scale)
  {
    hide Wrap, Plus;
    PlusWraps(Wrap(d), b);
    PlusWraps(Plus(Wrap(d), b), Times(x, scale));
    WrapId(b);
    WrapSum(d, b);
    WrapSum(d + b, x * scale);
    assert Wrap(Wrap(d) + b) == Wrap(d + b);
  }

  /** MemArg sums the displacement, as a 32-bit one, and the registers. */
  lemma SumValueOf(regs: Regs, m: Machine, env: Env, a: Mem)
    requires Follows(regs, m, env) && GoodMem(a)
    ensures Eval(Address(regs, a), env) ==
            Wrap(Displacement(a.disp) + AddressPart(m, a.base) + AddressPart(m, a.index) * a.scale)
  {
    hide Eval, EvalSum, EvalProduct, Plus, Times, Wrap, Get, ImmFromDisp, Sum, Product;
    var d := if a.disp != 0 then [ImmFromDisp(a.disp)] else [];
    var b := if a.base.Some? then [Get(regs, a.base.value)] else [];
    var x := if a.index.Some? then [Product([Get(regs, a.index.value), Immediate(a.scale)])] else [];
    SumValue(d + b + x, env);
    EvalSumConcat(d + b, x, env);
    EvalSumConcat(d, b, env);
    OptionalTerm(d, env);
    OptionalTerm(b, env);
    OptionalTerm(x, env);
    DispValue(a.disp, env);
    WrapId(0);
    AddressPartValue(regs, m, env, a.base);
    AddressPartValue(regs, m, env, a.index);
    TimesOne(a.scale);
    if a.index.Some? {
      ProductValue([Get(regs, a.index.value), Immediate(a.scale)], env);
      PairValue(Get(regs, a.index.value), Immediate(a.scale), env);
      ImmediateValue(a.scale, env);
    }
    SumOfThree(Displacement(a.disp), AddressPart(m, a.base), AddressPart(m, a.index), a.scale);
  }

  /** MemArg denotes the effective address exactly when it does not take an absolute address for a
      negative displacement. */
  lemma AddressValue(regs: Regs, m: Machine, env: Env, a: Mem)
    requires Follows(regs, m, env) && GoodMem(a)
    ensures Eval(Address(regs, a), env) == EffectiveAddress(m, a) <==> !Misread(a)
  {
    hide Eval, Address;
    SumValueOf(regs, m, env, a);
    assert 0 * a.scale == 0;
  }

  lemma ImmediateValue(w: Word, env: Env)
    ensures Eval(Immediate(w), env) == w
  {}

  lemma SourceTerm(regs: Regs, m: Machine, env: Env, i: Inst, bits: nat)
    requires Follows(regs, m, env) && GoodSource(i, bits) && !i.op.MOV?
    ensures Source(regs, i).Some? && Eval(Source(regs, i).value, env) == SourceValue(m, i, bits)
  {
    hide LowBits, Wrap, EffectiveAddress, Address, Load, Get;
    match i.src
    case RegArg(r) => GetValue(regs, m, env, r);
    case MemArg(a) => AddressValue(regs, m, env, a);
    case _ =>
  }

  lemma RipAddress(regs: Regs, m: Machine, env: Env, a: Mem)
    requires Follows(regs, m, env) && GoodMem(a) && a.base == Some(Rip)
    ensures Eval(Sum([Get(regs, Rip), ImmFromDisp(a.disp)]), env) == EffectiveAddress(m, a)
  {
    hide Eval, EvalSum, Plus, Wrap, Get, ImmFromDisp, Sum, LowBits;
    var d := Displacement(a.disp);
    SumValue([Get(regs, Rip), ImmFromDisp(a.disp)], env);
    PairValue(Get(regs, Rip), ImmFromDisp(a.disp), env);
    GetValue(regs, m, env, Rip);
    DispValue(a.disp, env);
    PlusCommutes(m.regs[RIP], Wrap(d));
    SumOfThree(d, m.regs[RIP], 0, a.scale);
    TimesOne(a.scale);
    PlusZero(Plus(Wrap(d), m.regs[RIP]));
  }

  lemma LowBitsTwice(w: Word, bits: nat)
    requires bits in {32, 64}
    ensures LowBits(LowBits(w, bits), bits) == LowBits(w, bits)
  {
    ModNested(w, bits, bits);
  }

  lemma LoadedValue(regs: Regs, m: Machine, env: Env, i: Inst, bits: nat)
    requires Follows(regs, m, env) && GoodSource(i, bits) && i.src.MemArg? && (i.op.MOV? || i.op.MOVZX?)
    requires bits in {32, 64} && !Misread(i.src.m)
    ensures LowBits(Eval(Loaded(regs, i, i.src.m), env), bits) == LowBits(SourceValue(m, i, bits), bits)
  {
    hide LowBits, Wrap, EffectiveAddress, Address, Load, Get, Sum, ImmFromDisp, ZeroExtend;
    var a := i.src.m;
    if a.base == Some(Rip) { RipAddress(regs, m, env, a); } else { AddressValue(regs, m, env, a); }
    var at := if a.base == Some(Rip) then Sum([Get(regs, Rip), ImmFromDisp(a.disp)]) else Address(regs, a);
    ZeroExtendValue(MemRef(a.segment, at, i.memBytes), bits, env);
    LowBitsTwice(SourceValue(m, i, bits), bits);
  }

  lemma Negated(a: Word, b: Word)
    ensures Plus(a, Times(Wrap(-1), b)) == Wrap(a - b)
  {
    hide Plus;
    WrapMul(-1, b);
    PlusWraps(a, Wrap(0 - b));
    WrapSum(a, 0 - b);
    WrapId(a);
    assert (-1) * b == 0 - b;
  }

  lemma ArithmeticSound(regs: Regs, m: Machine, env: Env, i: Inst)
    requires Follows(regs, m, env) && Handled(i) && (i.op.ADD? || i.op.SUB?)
    ensures Follows(Execute(regs, i), Effect(m, i), env)
  {
    hide Eval, EvalSum, EvalProduct, Plus, Times, Wrap, Get, Set, Sum, Product, LowBits, Source, SourceValue, Read,
         Follows;
    var dst := i.dst.r;
    SourceTerm(regs, m, env, i, dst.bits);
    var right, s := Source(regs, i).value, SourceValue(m, i, dst.bits);
    GetValue(regs, m, env, dst);
    var term := if i.op.SUB? then Product([Immediate(Wrap(-1)), right]) else right;
    ProductValue([Immediate(Wrap(-1)), right], env);
    PairValue(Immediate(Wrap(-1)), right, env);
    ImmediateValue(Wrap(-1), env);
    SumValue([Get(regs, dst), term], env);
    PairValue(Get(regs, dst), term, env);
    PlusWraps(Read(m, dst), s);
    Negated(Read(m, dst), s);
    SetFollows(regs, m, env, dst, Sum([Get(regs, dst), term]),
               if i.op.SUB? then Read(m, dst) - s else Read(m, dst) + s);
  }

  lemma ShiftSound(regs: Regs, m: Machine, env: Env, i: Inst)
    requires Follows(regs, m, env) && Handled(i) && i.op.SHL?
    ensures Follows(Execute(regs, i), Effect(m, i), env)
  {
    hide Eval, EvalProduct, Times, Wrap, Get, Set, Product, LowBits, Read, Follows, Pow2;
    var dst, k := i.dst.r, ShiftFactor(i.src.v);
    GetValue(regs, m, env, dst);
    ProductValue([Get(regs, dst), Immediate(k)], env);
    PairValue(Get(regs, dst), Immediate(k), env);
    ImmediateValue(k, env);
    TimesWraps(Read(m, dst), k);
    SetFollows(regs, m, env, dst, Product([Get(regs, dst), Immediate(k)]), Read(m, dst) * Pow2(i.src.v));
  }

  lemma TimesWraps(a: Word, b: Word)
    ensures Times(a, b) == Wrap(a * b)
  {}

  lemma MoveSound(regs: Regs, m: Machine, env: Env, i: Inst)
    requires Follows(regs, m, env) && Followed(i) && (i.op.MOV? || i.op.MOVZX?)
    ensures Follows(Execute(regs, i), Effect(m, i), env)
  {
    hide Eval, Wrap, Get, Set, LowBits, Read, Follows, Loaded, Load, EffectiveAddress;
    var dst := i.dst.r;
    var v := SourceValue(m, i, dst.bits);
    WrapId(v);
    match i.src
    case ImmArg(x) =>
      ImmediateValue(Wrap(x), env);
      SetFollows(regs, m, env, dst, Immediate(Wrap(x)), v);
    case RegArg(r) =>
      GetValue(regs, m, env, r);
      SetFollows(regs, m, env, dst, Get(regs, r), v);
    case MemArg(a) =>
      LoadedValue(regs, m, env, i, dst.bits);
      SetFollows(regs, m, env, dst, Loaded(regs, i, a), v);
  }

  lemma OthersSound(regs: Regs, m: Machine, env: Env, i: Inst)
    requires Follows(regs, m, env) && Handled(i) && (i.op.XOR? || i.op.AND? || i.op.LEA? || i.op.Transparent?)
    ensures Follows(Execute(regs, i), Effect(m, i), env)
  {
    hide Eval, Get, Set, Read, Follows, Address, EffectiveAddress, ZeroExtend, LowBits;
    match i.op
    case XOR =>
      ImmediateValue(0, env);
      SetFollows(regs, m, env, i.dst.r, Immediate(0), 0);
    case AND =>
      GetValue(regs, m, env, i.dst.r);
      ZeroExtendValue(Get(regs, i.dst.r), 2, env);
      LowTwoBits(Read(m, i.dst.r));
      SetFollows(regs, m, env, i.dst.r, ZeroExtend(Get(regs, i.dst.r), 2), Read(m, i.dst.r) % 4);
    case LEA =>
      AddressValue(regs, m, env, i.src.m);
      WrapId(EffectiveAddress(m, i.src.m));
      SetFollows(regs, m, env, i.dst.r, Address(regs, i.src.m), EffectiveAddress(m, i.src.m));
    case Transparent =>
  }

  lemma LowTwoBits(w: Word)
    ensures LowBits(w, 2) == w % 4 == Wrap(w % 4)
  {
    assert Pow2(2) == 4;
  }

  /** The invariant of a run: the register terms follow the machine, and RIP is code address + pc. */
  ghost predicate InStep(s: State, m: Machine, env: Env) {
    Follows(s.regs, m, env) && m.regs[RIP] == Wrap(Eval(s.codeAddress, env) + s.pc)
  }

  lemma RipFollows(s: State, m: Machine, env: Env, len: nat)
    requires InStep(s, m, env)
    ensures var pc := Wrap(s.pc + len);
            var rip := Wrap(m.regs[RIP] + len);
            Follows(Set(s.regs, Rip, Sum([s.codeAddress, Immediate(pc)])), m.(regs := m.regs[RIP := rip]), env)
    ensures Wrap(m.regs[RIP] + len) == Wrap(Eval(s.codeAddress, env) + Wrap(s.pc + len))
  {
    hide Eval, EvalSum, Plus, Sum, Wrap;
    var pc, at := Wrap(s.pc + len), Eval(s.codeAddress, env);
    SumValue([s.codeAddress, Immediate(pc)], env);
    PairValue(s.codeAddress, Immediate(pc), env);
    ImmediateValue(pc, env);
    PlusWraps(at, pc);
    AddressAdvances(at, s.pc, len);
  }

  lemma AddressAdvances(at: Word, pc: Word, len: nat)
    ensures Wrap(Wrap(at + pc) + len) == Wrap(at + Wrap(pc + len))
  {}

  lemma StepSound(s: State, m: Machine, env: Env, i: Inst)
    requires InStep(s, m, env) && Followed(i)
    ensures InStep(Step(s, i), Retire(m, i), env)
  {
    hide Eval, Execute, Follows, Wrap, Set, Sum;
    RipFollows(s, m, env, i.len);
    var regs := Set(s.regs, Rip, Sum([s.codeAddress, Immediate(Wrap(s.pc + i.len))]));
    var m' := m.(regs := m.regs[RIP := Wrap(m.regs[RIP] + i.len)]);
    if i.op.ADD? || i.op.SUB? { ArithmeticSound(regs, m', env, i); }
    else if i.op.SHL? { ShiftSound(regs, m', env, i); }
    else if i.op.MOV? || i.op.MOVZX? { MoveSound(regs, m', env, i); }
    else { OthersSound(regs, m', env, i); }
    assert Effect(m', i).regs[RIP] == m'.regs[RIP];
  }

  /** After any number of followed instructions every register's term, read in the initial state,
      is the register's value: for every program, machine state and start address. */
  lemma {:induction false} RunSound(s: State, m: Machine, env: Env, code: seq<Inst>)
    requires InStep(s, m, env) && AllFollowed(code)
    ensures AllHandled(code) && InStep(Run(s, code), RetireAll(m, code), env)
    decreases |code|
  {
    if code != [] {
      RunSound(s, m, env, code[..|code| - 1]);
      StepSound(Run(s, code[..|code| - 1]), RetireAll(m, code[..|code| - 1]), env, code[|code| - 1]);
    }
  }

  lemma NamesDistinct(j: nat)
    requires j < REGISTERS
    ensures NameIndex(RegName(j)) == j
  {
    if j == 0 {} else if j == 1 {} else if j == 2 {} else if j == 3 {} else if j == 4 {} else if j == 5 {}
    else if j == 6 {} else if j == 7 {} else if j == 8 {} else if j == 9 {} else if j == 10 {} else if j == 11 {}
    else if j == 12 {} else if j == 13 {} else if j == 14 {} else if j == 15 {} else if j == 16 {} else {}
  }

  /** Both ways of starting an interpreter begin in step with the machine. */
  lemma InitialState(m: Machine, address: Expr)
    ensures InStep(State(InitRegs(), 0, Named("RIP")), m, EnvOf(m))
    ensures m.regs[RIP] == Eval(address, EnvOf(m)) ==>
              InStep(State(Set(InitRegs(), Rip, address), 0, address), m, EnvOf(m))
  {
    hide RegName, NameIndex;
    forall j | 1 <= j < REGISTERS ensures Eval(InitRegs()[j], EnvOf(m)) == m.regs[j] { NamesDistinct(j); }
    assert NameIndex("RIP") == RIP by { NamesDistinct(RIP); assert RegName(RIP) == "RIP" by { RipName(); } }
    WrapId(m.regs[RIP]);
  }

  lemma RipName()
    ensures RegName(RIP) == "RIP"
  {}

  // ----- Absolute addresses -----

  /** One byte of memory is set. */
  function OneByte(at: Word): Memory { Memory(x => if x == at then 1 else 0, _ => 0) }

  lemma {:induction false} NothingThere(at: Word, x: Word, n: nat)
    requires n <= 8 <= at && (at < x || x + n <= at)
    ensures LoadBytes(OneByte(at).bytes, x, n) == 0
    decreases n
  {
    if n > 0 { NothingThere(at, Wrap(x + 1), n - 1); }
  }

  lemma OneThere(at: Word, n: nat)
    requires 1 <= n <= 8 <= at < 0xffff_ffff_ffff_ffff
    ensures LoadBytes(OneByte(at).bytes, at, n) == 1
  {
    hide LoadBytes;
    LowestByte(OneByte(at).bytes, at, n);
    assert Wrap(at + 1) == at + 1;
    NothingThere(at, at + 1, n - 1);
  }

  lemma LowestByte(bytes: Word -> Byte, at: Word, n: nat)
    requires n > 0
    ensures LoadBytes(bytes, at, n) == bytes(at) + 256 * LoadBytes(bytes, Wrap(at + 1), n - 1)
  {}

  lemma TellsApart(at: Word, n: nat, segment: nat)
    requires 1 <= n <= 8 && 0x8000_0000 <= at <= 0xffff_ffff
    ensures Load(OneByte(at), segment, at, n) == 1
    ensures Load(OneByte(at), segment, Wrap(at - 0x1_0000_0000), n) == 0
  {
    hide LoadBytes;
    var low := Wrap(at - 0x1_0000_0000);
    assert low == at - 0x1_0000_0000 + 0x1_0000_0000_0000_0000;
    PlusZero(at);
    PlusZero(low);
    OneThere(at, n);
    NothingThere(at, low, n);
  }

  /** What a load without registers leaves in its destination. */
  lemma LoadsFrom(m: Machine, i: Inst)
    requires Handled(i) && i.op.MOV? && i.src.MemArg? && i.src.m.base.None? && i.src.m.index.None?
    ensures var a := i.src.m;
            var at := Wrap(if a.absolute then a.disp else Displacement(a.disp));
            Retire(m, i).regs[i.dst.r.idx] == LowBits(Wrap(Load(m.mem, a.segment, at, i.memBytes)), i.dst.r.bits)
  {
    hide Load, LowBits, Wrap;
    assert 0 * i.src.m.scale == 0;
  }

  /** The same instruction with its operand read as a displacement. */
  function Relative(i: Inst): Inst
    requires i.src.MemArg?
  {
    i.(src := MemArg(i.src.m.(absolute := false)))
  }

  lemma LooksTheSame(s: State, i: Inst)
    requires i.op.MOV? && i.src.MemArg?
    ensures Step(s, Relative(i)) == Step(s, i)
  {
    hide Sum, Product, Get, Set, ImmFromDisp, ZeroExtend;
  }

  lemma LowOne(bits: nat)
    requires bits in {32, 64}
    ensures LowBits(Wrap(1), bits) == 1 && LowBits(Wrap(0), bits) == 0
  {
    hide Pow2;
    assert Pow2(1) == 2 by { Pow2Of8(); }
    Pow2Monotone(1, bits);
  }

  /** Every load from an absolute address in [2^31, 2^32) goes wrong on some machine. */
  lemma MisreadFails(i: Inst) returns (m: Machine)
    requires Handled(i) && !Followed(i)
    ensures var s := State(InitRegs(), 0, Named("RIP"));
            InStep(s, m, EnvOf(m)) && !InStep(Step(s, i), Retire(m, i), EnvOf(m))
  {
    var a, dst := i.src.m, i.dst.r;
    m := Machine(seq(18, _ => 0), OneByte(a.disp));
    var s, env := State(InitRegs(), 0, Named("RIP")), EnvOf(m);
    InitialState(m, Named("RIP"));
    hide InitRegs, Load, LowBits, InStep, Step, OneByte, Retire, Wrap;
    StepSound(s, m, env, Relative(i));
    LooksTheSame(s, i);
    WrapId(a.disp);
    TellsApart(a.disp, i.memBytes, a.segment);
    LowOne(dst.bits);
    LoadsFrom(m, i);
    LoadsFrom(m, Relative(i));
    DifferentRegister(Step(s, i), Retire(m, i), Retire(m, Relative(i)), env, dst.idx);
  }

  lemma DifferentRegister(s: State, m: Machine, m': Machine, env: Env, j: nat)
    requires 1 <= j < REGISTERS && m.regs[j] != m'.regs[j] && InStep(s, m', env)
    ensures !InStep(s, m, env)
  {
    hide Eval;
  }

  /** A handled instruction keeps terms and machine in step, from every state, exactly when it is
      followed. */
  lemma FollowedIff(i: Inst)
    requires Handled(i)
    ensures (forall s, m, env | InStep(s, m, env) :: InStep(Step(s, i), Retire(m, i), env)) <==> Followed(i)
  {
    hide InStep, Step, Retire;
    if Followed(i) {
      forall s, m, env | InStep(s, m, env) ensures InStep(Step(s, i), Retire(m, i), env) { StepSound(s, m, env, i); }
    } else {
      var m := MisreadFails(i);
    }
  }

  /** MOV RAX from the absolute address 0x80000000, which a processor reads and the interpreter takes
      for an address at the top of memory. */
  lemma AbsoluteLoadMisread() returns (m: Machine)
    ensures var i := Inst(MOV, RegArg(Gpr(RAX, 64)), MemArg(Mem(0, None, None, 0, 0x8000_0000, true)), 8, 64, 10);
            var s := State(InitRegs(), 0, Named("RIP"));
            && Handled(i) && Retire(m, i).regs[RAX] == Load(m.mem, 0, 0x8000_0000, 8)
            && InStep(s, m, EnvOf(m)) && !InStep(Step(s, i), Retire(m, i), EnvOf(m))
  {
    hide Load, Step, InStep, InitRegs, LowBits, Wrap, Retire;
    var i := Inst(MOV, RegArg(Gpr(RAX, 64)), MemArg(Mem(0, None, None, 0, 0x8000_0000, true)), 8, 64, 10);
    m := MisreadFails(i);
    LoadsFrom(m, i);
    WrapId(0x8000_0000);
    WideLowBits(Load(m.mem, 0, 0x8000_0000, 8));
    WrapId(Load(m.mem, 0, 0x8000_0000, 8));
  }

  /** immFromDisp recovers every 32-bit displacement from either form the disassembler uses, and
      passes a 64-bit absolute address through exactly when it is not in [2^31, 2^32). */
  lemma DisplacementRecovered(d: int, absolute: Int64)
    requires -0x8000_0000 <= d < 0x8000_0000
    ensures Displacement(d) == d && Displacement(d % 0x1_0000_0000) == d
    ensures ImmFromDisp(absolute) == Immediate(Wrap(absolute)) <==> !(0x8000_0000 <= absolute <= 0xffff_ffff)
  {}
}
