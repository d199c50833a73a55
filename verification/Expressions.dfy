/** The symbolic 64-bit terms of asm/expression and their smart constructors. */
module Expressions {
  import opened Words

  datatype OpType = OpAdd | OpMul

  datatype Expr =
    | Immediate(value: Word)
    | Named(name: string)
    | ImmediateCapture(id: nat)
    | MemRef(segment: nat, at: Expr, sizeBytes: nat)
    | Op(typ: OpType, operands: seq<Expr>)
    | Extended(v: Expr, bits: nat, sign: bool)
    | Cleared(v: Expr, bits: nat)
  {
    predicate IsSum() { Op? && typ.OpAdd? }
  }

  // ----- Meaning -----

  /** What a term leaves open: named values, captured constants and memory. */
  datatype Env = Env(named: string -> Word, captured: nat -> Word, load: (nat, Word, nat) -> Word)

  function LowBits(w: Word, bits: nat): (r: Word)
    ensures r <= w
  {
    ModBelow(w, Pow2(bits));
    if bits >= 64 then w else w % Pow2(bits)
  }

  function SignExtended(w: Word, bits: nat): Word {
    var low := LowBits(w, bits);
    if 0 < bits < 64 && low >= Pow2(bits - 1) then Wrap(low - Pow2(bits)) else low
  }

  function Eval(e: Expr, env: Env): Word
    decreases e, 0
  {
    match e
    case Immediate(v) => v
    case Named(n) => env.named(n)
    case ImmediateCapture(id) => env.captured(id)
    case MemRef(seg, at, size) => env.load(seg, Eval(at, env), size)
    case Op(OpAdd, os) => EvalSum(os, env)
    case Op(OpMul, os) => EvalProduct(os, env)
    case Extended(v, bits, sign) =>
      if sign then SignExtended(Eval(v, env), bits) else LowBits(Eval(v, env), bits)
    case Cleared(v, bits) =>
      Eval(v, env) - LowBits(Eval(v, env), bits)
  }

  function EvalSum(os: seq<Expr>, env: Env): Word
    decreases os, 1
  {
    if os == [] then 0 else Plus(EvalSum(os[..|os| - 1], env), Eval(os[|os| - 1], env))
  }

  function EvalProduct(os: seq<Expr>, env: Env): Word
    decreases os, 1
  {
    if os == [] then 1 else Times(EvalProduct(os[..|os| - 1], env), Eval(os[|os| - 1], env))
  }

  // ----- Size, the termination measure of Multiply -----

  function Size(e: Expr): (n: nat)
    ensures n >= 1
    decreases e, 0
  {
    match e
    case MemRef(_, at, _) => 1 + Size(at)
    case Op(_, os) => 1 + TotalSize(os)
    case Extended(v, _, _) => 1 + Size(v)
    case Cleared(v, _) => 1 + Size(v)
    case _ => 1
  }

  function TotalSize(os: seq<Expr>): (n: nat)
    ensures n >= |os|
    decreases os, 1
  {
    if os == [] then 0 else TotalSize(os[..|os| - 1]) + Size(os[|os| - 1])
  }

  lemma {:induction false} TotalSizeConcat(a: seq<Expr>, b: seq<Expr>)
    ensures TotalSize(a + b) == TotalSize(a) + TotalSize(b)
    decreases |b|
  {
    if b == [] {
      assert a + b == a;
    } else {
      TotalSizeConcat(a, b[..|b| - 1]);
      assert (a + b)[..|a + b| - 1] == a + b[..|b| - 1];
    }
  }

  lemma SmallSizes(x: Expr, y: Expr)
    ensures TotalSize([x]) == Size(x)
    ensures TotalSize([x, y]) == Size(x) + Size(y)
  {
    assert [x][..0] == [] && [x, y][..1] == [x];
  }

  // ----- Specification of Add and Multiply -----

  /** Operands kept so far and the constant folded so far. */
  datatype Partial = Partial(oss: seq<Expr>, v: Word)

  function FoldTerm(p: Partial, x: Expr): Partial {
    if x.Immediate? then Partial(p.oss, Plus(p.v, x.value)) else Partial(p.oss + [x], p.v)
  }

  function FoldTerms(p: Partial, os: seq<Expr>): Partial {
    if os == [] then p else FoldTerm(FoldTerms(p, os[..|os| - 1]), os[|os| - 1])
  }

  /** Adds x, opening it first when it is itself a sum. */
  function FoldOpened(p: Partial, x: Expr): Partial {
    if x.IsSum() then FoldTerms(p, x.operands) else FoldTerm(p, x)
  }

  function FoldSum(vs: seq<Expr>): Partial {
    if vs == [] then Partial([], 0) else FoldOpened(FoldSum(vs[..|vs| - 1]), vs[|vs| - 1])
  }

  function FoldFactor(p: Partial, x: Expr): Partial {
    if x.Immediate? then Partial(p.oss, Times(p.v, x.value)) else Partial(p.oss + [x], p.v)
  }

  function FoldProduct(vs: seq<Expr>): Partial {
    if vs == [] then Partial([], 1) else FoldFactor(FoldProduct(vs[..|vs| - 1]), vs[|vs| - 1])
  }

  /** The kept operands, followed by the folded constant unless it is the neutral one. */
  function Operands(p: Partial, unit: Word): seq<Expr> {
    if p.v != unit then p.oss + [Immediate(p.v)] else p.oss
  }

  function Sum(vs: seq<Expr>): Expr {
    var p := FoldSum(vs);
    if p.oss == [] then Immediate(p.v)
    else if |Operands(p, 0)| == 1 then Operands(p, 0)[0]
    else Op(OpAdd, Operands(p, 0))
  }

  lemma {:induction false} FactorsNoLarger(vs: seq<Expr>)
    ensures TotalSize(Operands(FoldProduct(vs), 1)) <= TotalSize(vs)
    ensures FoldProduct(vs).v != 1 ==> TotalSize(FoldProduct(vs).oss) < TotalSize(vs)
    decreases |vs|
  {
    if vs != [] {
      var init, last := vs[..|vs| - 1], vs[|vs| - 1];
      FactorsNoLarger(init);
      TotalSizeConcat(FoldProduct(init).oss, [last]);
      SmallSizes(last, last);
    }
    var p := FoldProduct(vs);
    TotalSizeConcat(p.oss, [Immediate(p.v)]);
    SmallSizes(Immediate(p.v), Immediate(p.v));
  }

  lemma PairSize(oss: seq<Expr>)
    requires |oss| == 2 && oss[0].IsSum()
    ensures TotalSize(oss[0].operands) + Size(oss[1]) < TotalSize(oss)
  {
    assert oss == [oss[0], oss[1]];
    SmallSizes(oss[0], oss[1]);
  }

  function Product(vs: seq<Expr>): Expr
    decreases TotalSize(vs), 0
  {
    if Immediate(0) in vs then Immediate(0) else
    var p := FoldProduct(vs);
    var oss := Operands(p, 1);
    FactorsNoLarger(vs);
    if p.oss == [] then Immediate(p.v)
    else if |oss| == 1 then oss[0]
    else if |oss| == 2 && oss[0].IsSum() then
      PairSize(oss);
      Sum(Distribute(oss[0].operands, oss[1]))
    else Op(OpMul, oss)
  }

  /** Every operand multiplied by m. */
  function Distribute(os: seq<Expr>, m: Expr): (r: seq<Expr>)
    ensures |r| == |os|
    decreases TotalSize(os) + Size(m), 1
  {
    if os == [] then [] else
    var last := os[|os| - 1];
    SmallSizes(last, m);
    Distribute(os[..|os| - 1], m) + [Product([last, m])]
  }

  // ----- The constructors as the source runs them -----

  method Add(vs: seq<Expr>) returns (r: Expr)
    ensures r == Sum(vs)
  {
    hide Times, Plus;
    var p := Partial([], 0);
    for i := 0 to |vs|
      invariant p == FoldSum(vs[..i])
    {
      assert vs[..i + 1][..i] == vs[..i];
      var it, before := vs[i], p;
      if it.IsSum() {
        for j := 0 to |it.operands|
          invariant p == FoldTerms(before, it.operands[..j])
        {
          assert it.operands[..j + 1][..j] == it.operands[..j];
          p := FoldTerm(p, it.operands[j]);
        }
        assert it.operands[..|it.operands|] == it.operands;
      } else {
        p := FoldTerm(p, it);
      }
    }
    assert vs[..|vs|] == vs;
    if p.oss == [] { return Immediate(p.v); }
    var oss := p.oss;
    if p.v != 0 { oss := oss + [Immediate(p.v)]; }
    if |oss| == 1 { return oss[0]; }
    return Op(OpAdd, oss);
  }

  method Multiply(vs: seq<Expr>) returns (r: Expr)
    ensures r == Product(vs)
    decreases TotalSize(vs)
  {
    hide Times, Plus;
    var p := Partial([], 1);
    for i := 0 to |vs|
      invariant Immediate(0) !in vs[..i] && p == FoldProduct(vs[..i])
    {
      assert vs[..i + 1][..i] == vs[..i];
      if vs[i] == Immediate(0) { return Immediate(0); }
      TimesOne(p.v);
      if vs[i] == Immediate(1) { continue; }
      p := FoldFactor(p, vs[i]);
    }
    assert vs[..|vs|] == vs;
    FactorsNoLarger(vs);
    if p.oss == [] { return Immediate(p.v); }
    var oss := p.oss;
    if p.v != 1 { oss := oss + [Immediate(p.v)]; }
    if |oss| == 1 { return oss[0]; }
    if |oss| == 2 && oss[0].IsSum() {
      PairSize(oss);
      var operands, m := oss[0].operands, oss[1];
      var res := [];
      for i := 0 to |operands|
        invariant res == Distribute(operands[..i], m)
      {
        assert operands[..i + 1][..i] == operands[..i];
        PairBelowTotal(operands, i, m);
        var term := Multiply([operands[i], m]);
        res := res + [term];
      }
      assert operands[..|operands|] == operands;
      r := Add(res);
      return;
    }
    return Op(OpMul, oss);
  }

  lemma PairBelowTotal(os: seq<Expr>, i: nat, m: Expr)
    requires i < |os|
    ensures TotalSize([os[i], m]) <= TotalSize(os) + Size(m)
  {
    SmallSizes(os[i], m);
    ElementSize(os, i);
  }

  lemma {:induction false} ElementSize(os: seq<Expr>, i: nat)
    requires i < |os|
    ensures Size(os[i]) <= TotalSize(os)
    decreases |os|
  {
    if i < |os| - 1 { ElementSize(os[..|os| - 1], i); }
  }

  function ZeroExtend(v: Expr, bits: nat): Expr {
    if bits == 0 then Immediate(0)
    else if bits >= 64 then v
    else match v
      case Immediate(w) => Immediate(LowBits(w, bits))
      case Extended(inner, innerBits, false) => if innerBits <= bits then v else Extended(inner, bits, false)
      case _ => Extended(v, bits, false)
  }

  function Clear(v: Expr, bits: nat): Expr
    decreases v
  {
    var bits := if bits >= 64 then 64 else bits;
    if bits == 0 then v
    else match v
      case Immediate(w) => Immediate(w - LowBits(w, bits))
      case Cleared(inner, innerBits) => Clear(inner, if innerBits >= bits then innerBits else bits)
      case _ => Cleared(v, bits)
  }
}
