/** The symbolic x86-64 interpreter of asm/amd, over already decoded instructions. */
module X86 {
  import opened Words
  import opened Options
  import opened Expressions

  const RAX: nat := 1
  const RDI: nat := 8
  const RIP: nat := 17
  /** Slot 0 collects every register the interpreter does not track. */
  const REGISTERS: nat := 18

  /** A disassembler register: a general-purpose register 1..16 at some width, RIP, or another one. */
  datatype Reg = Gpr(idx: nat, bits: nat) | Rip | Other(code: nat)

  datatype Entry = Entry(idx: nat, bits: nat)

  function RegMappingFor(r: Reg): (e: Entry)
    ensures e.idx < REGISTERS && e.bits in {8, 16, 32, 64}
  {
    match r
    case Gpr(idx, bits) => if 1 <= idx <= 16 && bits in {8, 16, 32, 64} then Entry(idx, bits) else Entry(0, 64)
    case Rip => Entry(RIP, 64)
    case Other(_) => Entry(0, 64)
  }

  /** disp is the 64-bit value the disassembler reports: a 32-bit displacement without its sign, or,
      in the absolute form of MOV, a whole address. The interpreter cannot tell which. */
  datatype Mem = Mem(segment: nat, base: Option<Reg>, index: Option<Reg>, scale: Word, disp: Int64, absolute: bool)

  datatype Arg = NoArg | ImmArg(v: Int64) | RegArg(r: Reg) | MemArg(m: Mem)

  /** Transparent stands for an opcode outside the interpreter's switch that writes neither a
      general-purpose register nor memory (NOP, ENDBR64, CMP, TEST, a jump not taken);
      OtherOp for every remaining one. */
  datatype Opcode =
    | ADD | SUB | SHL | MOV | MOVZX | MOVSX | MOVSXD | XOR | AND | LEA | RET | Transparent
    | OtherOp(code: nat)

  datatype Inst = Inst(op: Opcode, dst: Arg, src: Arg, memBytes: nat, dataSize: nat, len: nat)

  /** What the disassembler makes of the next bytes. */
  datatype Decoded = Insn(i: Inst) | Undecodable

  type Regs = rs: seq<Expr> | |rs| == 18 witness seq(18, _ => Immediate(0))

  // ----- Specification of one step -----

  function Get(regs: Regs, r: Reg): Expr {
    var e := RegMappingFor(r);
    if e.bits != 64 then ZeroExtend(regs[e.idx], e.bits) else regs[e.idx]
  }

  function Set(regs: Regs, r: Reg, v: Expr): Regs {
    var e := RegMappingFor(r);
    regs[e.idx := if e.bits != 64 then ZeroExtend(v, e.bits) else v]
  }

  /** The disassembler zero-extends 32-bit displacements; a value in that range gets its sign back. */
  function ImmFromDisp(disp: Int64): Expr {
    if Wrap(disp) <= 0xffff_ffff then
      Immediate(Wrap(if Wrap(disp) >= 0x8000_0000 then Wrap(disp) - 0x1_0000_0000 else Wrap(disp)))
    else Immediate(Wrap(disp))
  }

  function AddressTerms(regs: Regs, m: Mem): seq<Expr> {
    (if m.disp != 0 then [ImmFromDisp(m.disp)] else [])
    + (if m.base.Some? then [Get(regs, m.base.value)] else [])
    + (if m.index.Some? then [Product([Get(regs, m.index.value), Immediate(m.scale)])] else [])
  }

  /** MemArg: displacement + base + index * scale. */
  function Address(regs: Regs, m: Mem): Expr {
    Sum(AddressTerms(regs, m))
  }

  /** 2 to the power src as the interpreter computes it through floating point; exact below 64. */
  function ShiftFactor(src: int): Word {
    if 0 <= src < 64 then
      Pow2Of64(); Pow2Monotone(src, 63);
      Pow2(src)
    else 0
  }

  function Source(regs: Regs, i: Inst): Option<Expr> {
    match i.src
    case ImmArg(v) => Some(Immediate(Wrap(v)))
    case RegArg(r) => Some(Get(regs, r))
    case MemArg(m) => Some(MemRef(m.segment, Address(regs, m), i.memBytes))
    case NoArg => None
  }

  function Loaded(regs: Regs, i: Inst, m: Mem): Expr {
    var at := if m.base == Some(Rip) then Sum([Get(regs, Rip), ImmFromDisp(m.disp)]) else Address(regs, m);
    var v := MemRef(m.segment, at, i.memBytes);
    if i.op.MOVSXD? || i.op.MOVSX? then Extended(v, i.dataSize, true) else ZeroExtend(v, i.dataSize)
  }

  /** The registers after the opcode switch. */
  function Execute(regs: Regs, i: Inst): Regs {
    if !i.dst.RegArg? then regs else
    var dst := i.dst.r;
    match i.op
    case ADD | SUB =>
      var right := Source(regs, i);
      if right.None? then regs else
      var term := if i.op.SUB? then Product([Immediate(Wrap(-1)), right.value]) else right.value;
      Set(regs, dst, Sum([Get(regs, dst), term]))
    case SHL =>
      if i.src.ImmArg? then Set(regs, dst, Product([Get(regs, dst), Immediate(ShiftFactor(i.src.v))])) else regs
    case MOV | MOVZX | MOVSX | MOVSXD =>
      (match i.src
       case ImmArg(v) => Set(regs, dst, Immediate(Wrap(v)))
       case RegArg(r) => Set(regs, dst, Get(regs, r))
       case MemArg(m) => Set(regs, dst, Loaded(regs, i, m))
       case NoArg => regs)
    case XOR => if i.src == i.dst then Set(regs, dst, Immediate(0)) else regs
    case AND => if i.src == ImmArg(3) then Set(regs, dst, ZeroExtend(Get(regs, dst), 2)) else regs
    case LEA => if i.src.MemArg? then Set(regs, dst, Address(regs, i.src.m)) else regs
    case _ => regs
  }

  datatype State = State(regs: Regs, pc: Word, codeAddress: Expr)

  function Step(s: State, i: Inst): State {
    var pc := Wrap(s.pc + i.len);
    State(Execute(Set(s.regs, Rip, Sum([s.codeAddress, Immediate(pc)])), i), pc, s.codeAddress)
  }

  function Run(s: State, code: seq<Inst>): State {
    if code == [] then s else Step(Run(s, code[..|code| - 1]), code[|code| - 1])
  }

  // ----- Register names -----

  function RegName(j: nat): string
    requires j < REGISTERS
  {
    ["Reg(0)", "RAX", "RCX", "RDX", "RBX", "RSP", "RBP", "RSI", "RDI",
     "R8", "R9", "R10", "R11", "R12", "R13", "R14", "R15", "RIP"][j]
  }

  function InitRegs(): Regs {
    seq(REGISTERS, j requires 0 <= j < REGISTERS => Named(RegName(j)))
  }

  // ----- The interpreter -----

  datatype StepResult = Stepped(i: Inst) | EndOfCode | DecodeError

  /** The instructions stepped through until stop holds, decoding fails or the code ends. */
  function Executed(code: seq<Decoded>, stop: Inst -> bool): seq<Inst> {
    if code == [] || code[0].Undecodable? then []
    else if stop(code[0].i) then [code[0].i]
    else [code[0].i] + Executed(code[1..], stop)
  }

  function Last(steps: seq<Inst>): Option<Inst> { if steps == [] then None else Some(steps[|steps| - 1]) }

  function LoopResult(code: seq<Decoded>, stop: Inst -> bool): StepResult {
    if code == [] then EndOfCode
    else if code[0].Undecodable? then DecodeError
    else if stop(code[0].i) then Stepped(code[0].i)
    else LoopResult(code[1..], stop)
  }

  lemma RunNothing(s: State)
    ensures Run(s, []) == s
  {}

  lemma RunSnoc(s: State, steps: seq<Inst>, i: Inst)
    ensures Run(s, steps + [i]) == Step(Run(s, steps), i)
  {
    hide Step;
    assert (steps + [i])[..|steps|] == steps;
  }

  lemma ExecutedNext(code: seq<Decoded>, stop: Inst -> bool)
    ensures code == [] || code[0].Undecodable? ==> Executed(code, stop) == []
    ensures code == [] ==> LoopResult(code, stop) == EndOfCode
    ensures code != [] && code[0].Undecodable? ==> LoopResult(code, stop) == DecodeError
    ensures code != [] && code[0].Insn? && stop(code[0].i) ==>
              Executed(code, stop) == [code[0].i] && LoopResult(code, stop) == Stepped(code[0].i)
    ensures code != [] && code[0].Insn? && !stop(code[0].i) ==>
              Executed(code, stop) == [code[0].i] + Executed(code[1..], stop)
                && LoopResult(code, stop) == LoopResult(code[1..], stop)
  {}

  class Interpreter {
    var regs: Regs
    var code: seq<Decoded>
    var codeAddress: Expr
    var pc: Word

    ghost function View(): State
      reads this
    {
      State(regs, pc, codeAddress)
    }

    /** NewInterpreterWithCode: the code starts at the symbolic RIP. */
    constructor (code: seq<Decoded>)
      ensures this.code == code
      ensures View() == State(InitRegs(), 0, Named("RIP"))
    {
      this.code := code;
      pc := 0;
      regs := InitRegs();
      codeAddress := Named("RIP");
    }

    /** NewInterpreterWithCodeAt: the code starts at a given address. */
    constructor At(code: seq<Decoded>, address: Expr)
      ensures this.code == code
      ensures View() == State(Set(InitRegs(), Rip, address), 0, address)
    {
      this.code := code;
      pc := 0;
      regs := Set(InitRegs(), Rip, address);
      codeAddress := address;
    }

    method EffectiveAddress(m: Mem) returns (v: Expr)
      ensures v == Address(regs, m)
    {
      var vs := [];
      if m.disp != 0 { vs := vs + [ImmFromDisp(m.disp)]; }
      if m.base.Some? { vs := vs + [Get(regs, m.base.value)]; }
      if m.index.Some? {
        var scaled := Multiply([Get(regs, m.index.value), Immediate(m.scale)]);
        vs := vs + [scaled];
      }
      assert vs == AddressTerms(regs, m);
      v := Add(vs);
    }

    method Load(i: Inst, m: Mem) returns (v: Expr)
      ensures v == Loaded(regs, i, m)
    {
      if m.base == Some(Rip) {
        v := Add([Get(regs, Rip), ImmFromDisp(m.disp)]);
      } else {
        v := EffectiveAddress(m);
      }
      v := MemRef(m.segment, v, i.memBytes);
      if i.op.MOVSXD? || i.op.MOVSX? { v := Extended(v, i.dataSize, true); } else { v := ZeroExtend(v, i.dataSize); }
    }

    method Arithmetic(i: Inst, dst: Reg)
      requires (i.op.ADD? || i.op.SUB?) && i.dst == RegArg(dst)
      modifies this`regs
      ensures regs == Execute(old(regs), i)
    {
      var right: Expr;
      match i.src {
        case ImmArg(v) => right := Immediate(Wrap(v));
        case RegArg(r) => right := Get(regs, r);
        case MemArg(m) =>
          var at := EffectiveAddress(m);
          right := MemRef(m.segment, at, i.memBytes);
        case NoArg => return;
      }
      if i.op.SUB? { right := Multiply([Immediate(Wrap(-1)), right]); }
      var sum := Add([Get(regs, dst), right]);
      regs := Set(regs, dst, sum);
    }

    method Move(i: Inst, dst: Reg)
      requires (i.op.MOV? || i.op.MOVZX? || i.op.MOVSX? || i.op.MOVSXD?) && i.dst == RegArg(dst)
      modifies this`regs
      ensures regs == Execute(old(regs), i)
    {
      match i.src {
        case ImmArg(v) => regs := Set(regs, dst, Immediate(Wrap(v)));
        case RegArg(r) => regs := Set(regs, dst, Get(regs, r));
        case MemArg(m) =>
          var v := Load(i, m);
          regs := Set(regs, dst, v);
        case NoArg =>
      }
    }

    method Perform(i: Inst)
      modifies this`regs
      ensures regs == Execute(old(regs), i)
    {
      if i.dst.RegArg? {
        var dst := i.dst.r;
        match i.op {
          case ADD | SUB => Arithmetic(i, dst);
          case SHL =>
            if i.src.ImmArg? {
              var v := Multiply([Get(regs, dst), Immediate(ShiftFactor(i.src.v))]);
              regs := Set(regs, dst, v);
            }
          case MOV | MOVZX | MOVSX | MOVSXD => Move(i, dst);
          case XOR => if i.src == i.dst { regs := Set(regs, dst, Immediate(0)); }
          case AND => if i.src == ImmArg(3) { regs := Set(regs, dst, ZeroExtend(Get(regs, dst), 2)); }
          case LEA =>
            if i.src.MemArg? {
              var v := EffectiveAddress(i.src.m);
              regs := Set(regs, dst, v);
            }
          case _ =>
        }
      }
    }

    method StepOnce() returns (r: StepResult)
      modifies this`regs, this`code, this`pc
      ensures old(code) == [] ==> r == EndOfCode
      ensures old(code) != [] && old(code)[0].Undecodable? ==> r == DecodeError
      ensures old(code) != [] && old(code)[0].Insn? ==> r.Stepped?
      ensures !r.Stepped? ==> View() == old(View()) && code == old(code)
      ensures r.Stepped? ==> old(code) != [] && old(code)[0] == Insn(r.i) && code == old(code)[1..]
      ensures r.Stepped? ==> View() == Step(old(View()), r.i)
    {
      if code == [] { return EndOfCode; }
      if code[0].Undecodable? { return DecodeError; }
      var i := code[0].i;
      pc := Wrap(pc + i.len);
      code := code[1..];
      var rip := Add([codeAddress, Immediate(pc)]);
      regs := Set(regs, Rip, rip);
      Perform(i);
      r := Stepped(i);
    }

    /** Steps until an instruction for which stop holds, an undecodable one, or the end of the code, and
        returns beside the outcome the last instruction stepped over, if any. */
    method LoopWithBreak(stop: Inst -> bool) returns (r: StepResult, last: Option<Inst>)
      modifies this`regs, this`code, this`pc
      ensures View() == Run(old(View()), Executed(old(code), stop))
      ensures r == LoopResult(old(code), stop) && last == Last(Executed(old(code), stop))
    {
      hide Step, Executed, LoopResult, Run;
      ghost var steps := [];
      last := None;
      assert [] + Executed(code, stop) == Executed(code, stop) && Run(View(), []) == View() by { RunNothing(View()); }
      while true
        invariant Executed(old(code), stop) == steps + Executed(code, stop)
        invariant LoopResult(old(code), stop) == LoopResult(code, stop)
        invariant View() == Run(old(View()), steps) && last == Last(steps)
        decreases |code|
      {
        ExecutedNext(code, stop);
        r := StepOnce();
        if !r.Stepped? {
          assert steps + [] == steps;
          return;
        }
        RunSnoc(old(View()), steps, r.i);
        assert stop(r.i) || steps + ([r.i] + Executed(code, stop)) == steps + [r.i] + Executed(code, stop);
        steps := steps + [r.i];
        last := Some(r.i);
        if stop(r.i) { return; }
      }
    }
  }
}
