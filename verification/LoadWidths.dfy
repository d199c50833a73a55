/** The widths of the loads in a term: of what code without narrow loads builds, and of what matches. */
module LoadWidths {
  import opened Words
  import opened Expressions
  import opened Matching
  import opened X86
  import opened X86Soundness

  /** Loads that are not below an extension are 8 bytes wide. */
  predicate Wide(e: Expr) {
    match e
    case MemRef(_, at, n) => n == 8 && Wide(at)
    case Op(_, os) => forall o | o in os :: Wide(o)
    case Extended(_, _, _) => true
    case Cleared(v, _) => Wide(v)
    case _ => true
  }

  predicate AllWide(os: seq<Expr>) { forall o | o in os :: Wide(o) }

  // ----- The constructors keep it -----

  lemma {:induction false} FoldTermsWide(p: Partial, os: seq<Expr>)
    requires AllWide(p.oss) && AllWide(os)
    ensures AllWide(FoldTerms(p, os).oss)
    decreases |os|
  {
    if os != [] { FoldTermsWide(p, os[..|os| - 1]); }
  }

  lemma {:induction false} FoldSumWide(vs: seq<Expr>)
    requires AllWide(vs)
    ensures AllWide(FoldSum(vs).oss)
    decreases |vs|
  {
    if vs != [] {
      var init, last := FoldSum(vs[..|vs| - 1]), vs[|vs| - 1];
      FoldSumWide(vs[..|vs| - 1]);
      assert Wide(last);
      if last.IsSum() { FoldTermsWide(init, last.operands); }
    }
  }

  lemma SumWide(vs: seq<Expr>)
    requires AllWide(vs)
    ensures Wide(Sum(vs))
  {
    FoldSumWide(vs);
  }

  lemma {:induction false} FoldProductWide(vs: seq<Expr>)
    requires AllWide(vs)
    ensures AllWide(FoldProduct(vs).oss)
    decreases |vs|
  {
    if vs != [] { FoldProductWide(vs[..|vs| - 1]); }
  }

  lemma {:induction false} ProductWide(vs: seq<Expr>)
    requires AllWide(vs)
    ensures Wide(Product(vs))
    decreases TotalSize(vs), 0
  {
    hide Times, Plus;
    var p := FoldProduct(vs);
    var oss := Operands(p, 1);
    FactorsNoLarger(vs);
    FoldProductWide(vs);
    if Immediate(0) !in vs && p.oss != [] {
      assert AllWide(oss) && Wide(oss[0]);
      if |oss| == 2 && oss[0].IsSum() {
        PairSize(oss);
        DistributeWide(oss[0].operands, oss[1]);
        SumWide(Distribute(oss[0].operands, oss[1]));
      }
    }
  }

  lemma {:induction false} DistributeWide(os: seq<Expr>, m: Expr)
    requires AllWide(os) && Wide(m)
    ensures AllWide(Distribute(os, m))
    decreases TotalSize(os) + Size(m), 1
  {
    if os != [] {
      SmallSizes(os[|os| - 1], m);
      DistributeWide(os[..|os| - 1], m);
      ProductWide([os[|os| - 1], m]);
    }
  }

  lemma ZeroExtendWide(v: Expr, bits: nat)
    ensures bits < 64 || Wide(v) ==> Wide(ZeroExtend(v, bits))
  {}

  // ----- So do the instructions -----

  /** A load of fewer than 8 bytes into a whole register: the term does not show its width. */
  predicate Narrow(i: Inst) {
    i.op.MOVZX? && i.src.MemArg? && i.memBytes < 8 && i.dst.RegArg? && RegMappingFor(i.dst.r).bits == 64
  }

  ghost predicate RegsWide(regs: Regs) { forall j | 0 <= j < REGISTERS :: Wide(regs[j]) }

  lemma GetWide(regs: Regs, r: Reg)
    requires RegsWide(regs)
    ensures Wide(Get(regs, r))
  {
    var e := RegMappingFor(r);
    ZeroExtendWide(regs[e.idx], e.bits);
  }

  lemma SetWide(regs: Regs, r: Reg, v: Expr)
    requires RegsWide(regs) && (RegMappingFor(r).bits < 64 || Wide(v))
    ensures RegsWide(Set(regs, r, v))
  {
    ZeroExtendWide(v, RegMappingFor(r).bits);
    hide ZeroExtend, Wide;
  }

  lemma AddressWide(regs: Regs, m: Mem)
    requires RegsWide(regs)
    ensures Wide(Address(regs, m)) && Wide(Sum([Get(regs, Rip), ImmFromDisp(m.disp)]))
  {
    hide Get, Product, Sum;
    GetWide(regs, Rip);
    if m.base.Some? { GetWide(regs, m.base.value); }
    if m.index.Some? {
      GetWide(regs, m.index.value);
      ProductWide([Get(regs, m.index.value), Immediate(m.scale)]);
    }
    assert Wide(ImmFromDisp(m.disp));
    SumWide(AddressTerms(regs, m));
    SumWide([Get(regs, Rip), ImmFromDisp(m.disp)]);
  }

  lemma SourceWide(regs: Regs, i: Inst, bits: nat)
    requires RegsWide(regs) && GoodSource(i, bits) && !i.op.MOVZX?
    ensures Source(regs, i).Some? && (bits == 64 ==> Wide(Source(regs, i).value))
  {
    hide Get, Address;
    if i.src.RegArg? { GetWide(regs, i.src.r); }
    if i.src.MemArg? { AddressWide(regs, i.src.m); }
  }

  lemma LoadedWide(regs: Regs, i: Inst)
    requires RegsWide(regs) && Handled(i) && (i.op.MOV? || i.op.MOVZX?) && i.src.MemArg? && !Narrow(i)
    ensures i.dst.r.bits < 64 || Wide(Loaded(regs, i, i.src.m))
  {
    hide Get, Address, Sum, ImmFromDisp;
    AddressWide(regs, i.src.m);
  }

  lemma ExecuteWide(regs: Regs, i: Inst)
    requires RegsWide(regs) && Handled(i) && !Narrow(i)
    ensures RegsWide(Execute(regs, i))
  {
    hide RegsWide, Get, Set, Sum, Product, Address, Loaded, Source, ZeroExtend;
    if !i.op.Transparent? {
      var dst := i.dst.r;
      GetWide(regs, dst);
      if i.op.ADD? || i.op.SUB? {
        SourceWide(regs, i, dst.bits);
        var right := Source(regs, i).value;
        var term := if i.op.SUB? then Product([Immediate(Wrap(-1)), right]) else right;
        if dst.bits == 64 {
          ProductWide([Immediate(Wrap(-1)), right]);
          SumWide([Get(regs, dst), term]);
        }
        SetWide(regs, dst, Sum([Get(regs, dst), term]));
      } else if i.op.SHL? {
        ProductWide([Get(regs, dst), Immediate(ShiftFactor(i.src.v))]);
        SetWide(regs, dst, Product([Get(regs, dst), Immediate(ShiftFactor(i.src.v))]));
      } else if i.op.MOV? || i.op.MOVZX? {
        if i.src.ImmArg? {
          SetWide(regs, dst, Immediate(Wrap(i.src.v)));
        } else if i.src.RegArg? {
          GetWide(regs, i.src.r);
          SetWide(regs, dst, Get(regs, i.src.r));
        } else {
          LoadedWide(regs, i);
          SetWide(regs, dst, Loaded(regs, i, i.src.m));
        }
      } else if i.op.XOR? {
        SetWide(regs, dst, Immediate(0));
      } else if i.op.AND? {
        ZeroExtendWide(Get(regs, dst), 2);
        SetWide(regs, dst, ZeroExtend(Get(regs, dst), 2));
      } else {
        AddressWide(regs, i.src.m);
        SetWide(regs, dst, Address(regs, i.src.m));
      }
    }
  }

  /** Every register's term stays free of bare narrow loads through every such program. */
  lemma {:induction false} RunWide(s: State, code: seq<Inst>)
    requires RegsWide(s.regs) && Wide(s.codeAddress) && AllHandled(code) && forall i | i in code :: !Narrow(i)
    ensures RegsWide(Run(s, code).regs) && Run(s, code).codeAddress == s.codeAddress
    decreases |code|
  {
    hide RegsWide, Execute, Sum, Set, Handled, Narrow;
    if code != [] {
      var init, i := code[..|code| - 1], code[|code| - 1];
      RunWide(s, init);
      var s', pc := Run(s, init), Wrap(Run(s, init).pc + i.len);
      SumWide([s'.codeAddress, Immediate(pc)]);
      SetWide(s'.regs, Rip, Sum([s'.codeAddress, Immediate(pc)]));
      assert i in code;
      ExecuteWide(Set(s'.regs, Rip, Sum([s'.codeAddress, Immediate(pc)])), i);
    }
  }

  lemma StartWide()
    ensures RegsWide(InitRegs()) && Wide(Named("RIP"))
  {
    hide RegName;
  }

  // ----- Matching such a term -----

  predicate NoLoads(p: Expr) {
    match p
    case MemRef(_, _, _) => false
    case Op(_, os) => forall o | o in os :: NoLoads(o)
    case Extended(v, _, _) => NoLoads(v)
    case Cleared(v, _) => NoLoads(v)
    case _ => true
  }

  /** Every load has the width given for its segment. */
  predicate WidthsAre(e: Expr, width: nat -> nat) {
    match e
    case MemRef(segment, at, n) => n == width(segment) && WidthsAre(at, width)
    case Op(_, os) => forall o | o in os :: WidthsAre(o, width)
    case Extended(v, _, _) => WidthsAre(v, width)
    case Cleared(v, _) => WidthsAre(v, width)
    case _ => true
  }

  /** Every load is of 8 bytes or more. */
  predicate NoNarrow(e: Expr) {
    match e
    case MemRef(_, at, n) => n >= 8 && NoNarrow(at)
    case Op(_, os) => forall o | o in os :: NoNarrow(o)
    case Extended(v, _, _) => NoNarrow(v)
    case Cleared(v, _) => NoNarrow(v)
    case _ => true
  }

  lemma {:induction false} NoLoadsWidths(e: Expr, width: nat -> nat)
    requires NoLoads(e)
    ensures WidthsAre(e, width) && NoNarrow(e)
  {
    match e
    case Op(_, os) => forall o | o in os ensures WidthsAre(o, width) && NoNarrow(o) { NoLoadsWidths(o, width); }
    case Extended(v, _, _) => NoLoadsWidths(v, width);
    case Cleared(v, _) => NoLoadsWidths(v, width);
    case _ =>
  }

  /** A pattern without loads matches only terms without loads. */
  lemma {:induction false} NoLoadsMatched(e: Expr, p: Expr, caps: Captures, sort: Sorter)
    requires Permutes(sort) && Match(e, p, caps, sort).ok && NoLoads(p)
    ensures NoLoads(e)
    decreases Size(e), 0
  {
    match e
    case Op(_, os) =>
      SameLength(sort(os), os);
      SameLength(sort(p.operands), p.operands);
      PermutedSize(sort(os), os);
      SameElements(sort(os), os);
      SameElements(sort(p.operands), p.operands);
      NoLoadsMatchedAll(sort(os), sort(p.operands), caps, sort);
    case Extended(v, _, _) => NoLoadsMatched(v, p.v, caps, sort);
    case Cleared(v, _) => NoLoadsMatched(v, p.v, caps, sort);
    case _ =>
  }

  lemma {:induction false} NoLoadsMatchedAll(os: seq<Expr>, ps: seq<Expr>, caps: Captures, sort: Sorter)
    requires |os| == |ps| && Permutes(sort) && MatchAll(os, ps, caps, sort).ok && forall p | p in ps :: NoLoads(p)
    ensures forall o | o in os :: NoLoads(o)
    decreases TotalSize(os), 1
  {
    if os != [] {
      var init, last := MatchAll(os[..|os| - 1], ps[..|ps| - 1], caps, sort), |os| - 1;
      assert ps[last] in ps && forall p | p in ps[..last] :: p in ps;
      NoLoadsMatchedAll(os[..last], ps[..last], caps, sort);
      NoLoadsMatched(os[last], ps[last], init.caps, sort);
      assert os == os[..last] + [os[last]];
    }
  }

  lemma SameElements(a: seq<Expr>, b: seq<Expr>)
    requires multiset(a) == multiset(b)
    ensures forall o :: o in a <==> o in b
  {
    forall o ensures o in a <==> o in b { assert o in multiset(a) <==> o in multiset(b); }
  }

  /** Operands that match as a list match one by one. */
  lemma {:induction false} MatchAllEach(os: seq<Expr>, ps: seq<Expr>, caps: Captures, sort: Sorter, k: nat)
    returns (before: Captures)
    requires |os| == |ps| && Permutes(sort) && MatchAll(os, ps, caps, sort).ok && k < |os|
    ensures Match(os[k], ps[k], before, sort).ok
    decreases |os|
  {
    hide Match;
    var last := |os| - 1;
    var init := MatchAll(os[..last], ps[..last], caps, sort);
    if k == last { before := init.caps; } else { before := MatchAllEach(os[..last], ps[..last], caps, sort, k); }
  }

  /** A sum of patterns of which one has loads: the operand that matched it, the others having none. */
  lemma OneLoadedMatch(e: Expr, ps: seq<Expr>, t: nat, caps: Captures, sort: Sorter) returns (x: Expr, before: Captures)
    requires Permutes(sort) && t < |ps| && !NoLoads(ps[t]) && (forall k | 0 <= k < |ps| && k != t :: NoLoads(ps[k]))
    requires Match(e, Op(OpAdd, ps), caps, sort).ok
    ensures e.Op? && x in e.operands && Match(x, ps[t], before, sort).ok
    ensures forall o | o in e.operands :: o == x || NoLoads(o)
  {
    hide NoLoads;
    var os, qs := sort(e.operands), sort(ps);
    SameLength(os, e.operands);
    SameLength(qs, ps);
    SameElements(os, e.operands);
    SameElements(qs, ps);
    hide Match;
    assert ps[t] in qs;
    var j :| 0 <= j < |qs| && qs[j] == ps[t];
    before := MatchAllEach(os, qs, caps, sort, j);
    x := os[j];
    forall k | 0 <= k < |os| && k != j ensures NoLoads(os[k]) {
      OnlyLoaded(ps, qs, t, j, k);
      var b := MatchAllEach(os, qs, caps, sort, k);
      NoLoadsMatched(os[k], qs[k], b, sort);
    }
  }

  lemma OnlyLoaded(ps: seq<Expr>, qs: seq<Expr>, t: nat, j: nat, k: nat)
    requires multiset(ps) == multiset(qs) && t < |ps| && j < |qs| && k < |qs| && j != k && qs[j] == ps[t]
    requires !NoLoads(ps[t]) && forall i | 0 <= i < |ps| && i != t :: NoLoads(ps[i])
    ensures NoLoads(qs[k])
  {
    hide NoLoads;
    var q := ps[t];
    assert ps == ps[..t] + [q] + ps[t + 1..];
    assert multiset(ps)[q] == 1;
    if j < k { TwoCopies(qs, j, k); } else { TwoCopies(qs, k, j); }
    assert qs[k] in multiset(ps);
  }

  lemma TwoCopies(qs: seq<Expr>, a: nat, b: nat)
    requires a < b < |qs|
    ensures qs[a] == qs[b] ==> multiset(qs)[qs[a]] >= 2
  {
    assert qs == qs[..a] + [qs[a]] + qs[a + 1..b] + [qs[b]] + qs[b + 1..];
  }

  lemma LoadMatched(x: Expr, segment: nat, at: Expr, n: nat, caps: Captures, sort: Sorter)
    requires Permutes(sort) && Match(x, MemRef(segment, at, n), caps, sort).ok
    ensures x.MemRef? && x.segment == segment && Match(x.at, at, caps, sort).ok
  {}

  lemma OneLoadedWidths(e: Expr, x: Expr, width: nat -> nat)
    requires e.Op? && x in e.operands && WidthsAre(x, width) && forall o | o in e.operands :: o == x || NoLoads(o)
    ensures WidthsAre(e, width) && (NoNarrow(e) <==> NoNarrow(x)) && (Wide(e) ==> Wide(x))
  {
    forall o | o in e.operands ensures WidthsAre(o, width) && (NoNarrow(x) ==> NoNarrow(o)) {
      if o != x { NoLoadsWidths(o, width); }
    }
  }

  // ----- Evaluating with the widths a term has -----

  /** The machine's loads, each with the width given for its segment whatever is asked for. */
  function Blind(m: Machine, width: nat -> nat): Env {
    EnvOf(m).(load := (segment, at, _) => Load(m.mem, segment, at, width(segment)))
  }

  lemma BlindIsBlind(m: Machine, width: nat -> nat)
    ensures WidthBlind(Blind(m, width))
  {
    hide Load;
  }

  lemma {:induction false} EvalBlind(e: Expr, m: Machine, width: nat -> nat)
    requires WidthsAre(e, width)
    ensures Eval(e, EnvOf(m)) == Eval(e, Blind(m, width))
    decreases e, 0
  {
    hide Load, LowBits, SignExtended;
    match e
    case MemRef(_, at, _) => EvalBlind(at, m, width);
    case Op(_, os) => EvalBlindAll(os, m, width);
    case Extended(v, _, _) => EvalBlind(v, m, width);
    case Cleared(v, _) => EvalBlind(v, m, width);
    case _ =>
  }

  lemma {:induction false} EvalBlindAll(os: seq<Expr>, m: Machine, width: nat -> nat)
    requires forall o | o in os :: WidthsAre(o, width)
    ensures EvalSum(os, EnvOf(m)) == EvalSum(os, Blind(m, width))
    ensures EvalProduct(os, EnvOf(m)) == EvalProduct(os, Blind(m, width))
    decreases os, 1
  {
    hide Plus, Times, EnvOf, Blind;
    if os != [] {
      assert os[|os| - 1] in os;
      EvalBlindAll(os[..|os| - 1], m, width);
      EvalBlind(os[|os| - 1], m, width);
    }
  }

  // ----- Loads of more than 8 bytes -----

  lemma {:induction false} LowBytes(bytes: Word -> Byte, at: Word, k: nat, n: nat)
    requires k <= n
    ensures LoadBytes(bytes, at, n) % Pow2(8 * k) == LoadBytes(bytes, at, k) % Pow2(8 * k)
    decreases k
  {
    if k > 0 {
      var next := Wrap(at + 1);
      LowBytes(bytes, next, k - 1, n - 1);
      var x, y, d := LoadBytes(bytes, next, n - 1), LoadBytes(bytes, next, k - 1), Pow2(8 * (k - 1));
      Pow2Split(8, 8 * (k - 1));
      Pow2Of8();
      assert Pow2(8 * k) == 256 * d;
      SameAbove(bytes(at), x, y, d);
    }
  }

  lemma SameAbove(b: Byte, x: nat, y: nat, d: nat)
    requires d > 0 && x % d == y % d
    ensures (b + 256 * x) % (256 * d) == (b + 256 * y) % (256 * d)
  {
    DivMod(x, d);
    DivMod(y, d);
    var q := x / d - y / d;
    assert x == y + q * d;
    MulAssoc(256, q, d);
    assert b + 256 * x == b + 256 * y + q * (256 * d);
    ModShift(b + 256 * y, q, 256 * d);
  }

  /** A register holds no more than 8 bytes. */
  lemma LongLoad(mem: Memory, segment: nat, at: Word, n: nat)
    requires n >= 8
    ensures Load(mem, segment, at, n) == Load(mem, segment, at, 8)
  {
    hide LoadBytes, Pow2;
    LowBytes(mem.bytes, Plus(mem.segmentBase(segment), at), 8, n);
    Pow2Of64();
  }
}
