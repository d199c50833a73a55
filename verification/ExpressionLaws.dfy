/** The smart constructors keep the 64-bit value of a term and its normal form. */
module ExpressionLaws {
  import opened Words
  import opened Expressions

  // ----- Add -----

  function TermValue(p: Partial, env: Env): Word {
    Plus(EvalSum(p.oss, env), p.v)
  }

  lemma EvalSumAppend(os: seq<Expr>, x: Expr, env: Env)
    ensures EvalSum(os + [x], env) == Plus(EvalSum(os, env), Eval(x, env))
  {
    assert (os + [x])[..|os|] == os;
  }

  lemma {:induction false} EvalSumConcat(a: seq<Expr>, b: seq<Expr>, env: Env)
    ensures EvalSum(a + b, env) == Plus(EvalSum(a, env), EvalSum(b, env))
    decreases |b|
  {
    hide Plus, Times, EvalProduct;
    if b == [] {
      assert a + b == a;
      PlusZero(EvalSum(a, env));
    } else {
      var init, last := b[..|b| - 1], b[|b| - 1];
      EvalSumConcat(a, init, env);
      assert a + b == (a + init) + [last];
      EvalSumAppend(a + init, last, env);
      PlusAssociates(EvalSum(a, env), EvalSum(init, env), Eval(last, env));
    }
  }

  lemma FoldTermValue(p: Partial, x: Expr, env: Env)
    ensures TermValue(FoldTerm(p, x), env) == Plus(TermValue(p, env), Eval(x, env))
  {
    hide Plus, EvalProduct;
    PlusAssociates(EvalSum(p.oss, env), p.v, Eval(x, env));
    if !x.Immediate? { EvalSumAppend(p.oss, x, env); }
  }

  lemma {:induction false} FoldTermsValue(p: Partial, os: seq<Expr>, env: Env)
    ensures TermValue(FoldTerms(p, os), env) == Plus(TermValue(p, env), EvalSum(os, env))
    decreases |os|
  {
    hide Plus, TermValue, EvalProduct;
    if os == [] {
      PlusZero(TermValue(p, env));
    } else {
      var init, last := os[..|os| - 1], os[|os| - 1];
      FoldTermsValue(p, init, env);
      FoldTermValue(FoldTerms(p, init), last, env);
      PlusAssociates(TermValue(p, env), EvalSum(init, env), Eval(last, env));
    }
  }

  lemma {:induction false} FoldSumValue(vs: seq<Expr>, env: Env)
    ensures TermValue(FoldSum(vs), env) == EvalSum(vs, env)
    decreases |vs|
  {
    hide Plus, TermValue, EvalProduct;
    if vs == [] {
      assert TermValue(Partial([], 0), env) == 0 by { EmptyTerms(env); }
    } else {
      var init, last := FoldSum(vs[..|vs| - 1]), vs[|vs| - 1];
      FoldSumValue(vs[..|vs| - 1], env);
      if last.IsSum() {
        FoldTermsValue(init, last.operands, env);
      } else {
        FoldTermValue(init, last, env);
      }
    }
  }

  lemma EmptyTerms(env: Env)
    ensures TermValue(Partial([], 0), env) == 0
  {}

  lemma PairValue(x: Expr, y: Expr, env: Env)
    ensures EvalProduct([x], env) == Eval(x, env)
    ensures EvalProduct([x, y], env) == Times(Eval(x, env), Eval(y, env))
    ensures EvalSum([x], env) == Eval(x, env)
    ensures EvalSum([x, y], env) == Plus(Eval(x, env), Eval(y, env))
  {
    hide Plus, Times;
    PlusZero(Eval(x, env));
    TimesOne(Eval(x, env));
    assert [x][..0] == [] && [x, y][..1] == [x];
  }

  lemma SumOperandsValue(p: Partial, env: Env)
    ensures EvalSum(Operands(p, 0), env) == TermValue(p, env)
  {
    hide Plus, EvalProduct;
    PlusZero(EvalSum(p.oss, env));
    EvalSumAppend(p.oss, Immediate(p.v), env);
  }

  /** Add(vs...) denotes the sum of its arguments modulo 2^64. */
  lemma SumValue(vs: seq<Expr>, env: Env)
    ensures Eval(Sum(vs), env) == EvalSum(vs, env)
  {
    hide Plus, EvalProduct;
    var p := FoldSum(vs);
    var oss := Operands(p, 0);
    FoldSumValue(vs, env);
    SumOperandsValue(p, env);
    if p.oss == [] {
      PlusZero(p.v);
    } else if |oss| == 1 {
      PairValue(oss[0], oss[0], env);
      assert oss == [oss[0]];
    }
  }

  // ----- Multiply -----

  function FactorValue(p: Partial, env: Env): Word {
    Times(EvalProduct(p.oss, env), p.v)
  }

  lemma EvalProductAppend(os: seq<Expr>, x: Expr, env: Env)
    ensures EvalProduct(os + [x], env) == Times(EvalProduct(os, env), Eval(x, env))
  {
    hide Times;
    assert (os + [x])[..|os|] == os;
  }

  lemma FoldFactorValue(p: Partial, x: Expr, env: Env)
    ensures FactorValue(FoldFactor(p, x), env) == Times(FactorValue(p, env), Eval(x, env))
  {
    hide Times;
    TimesAssociates(EvalProduct(p.oss, env), p.v, Eval(x, env));
    if !x.Immediate? { EvalProductAppend(p.oss, x, env); }
  }

  lemma {:induction false} FoldProductValue(vs: seq<Expr>, env: Env)
    ensures FactorValue(FoldProduct(vs), env) == EvalProduct(vs, env)
    decreases |vs|
  {
    hide Times;
    TimesOne(1);
    if vs != [] {
      FoldProductValue(vs[..|vs| - 1], env);
      FoldFactorValue(FoldProduct(vs[..|vs| - 1]), vs[|vs| - 1], env);
    }
  }

  lemma {:induction false} ZeroFactor(vs: seq<Expr>, env: Env)
    requires Immediate(0) in vs
    ensures EvalProduct(vs, env) == 0
    decreases |vs|
  {
    hide Times;
    var init, last := vs[..|vs| - 1], vs[|vs| - 1];
    TimesOne(EvalProduct(init, env));
    TimesOne(Eval(last, env));
    if last != Immediate(0) { ZeroFactor(init, env); }
  }

  lemma {:induction false} DistributeValue(os: seq<Expr>, m: Expr, env: Env)
    ensures EvalSum(Distribute(os, m), env) == Times(EvalSum(os, env), Eval(m, env))
    decreases TotalSize(os) + Size(m), 1
  {
    hide Plus, Times;
    TimesOne(Eval(m, env));
    if os != [] {
      var init, last := os[..|os| - 1], os[|os| - 1];
      SmallSizes(last, m);
      DistributeValue(init, m, env);
      ProductValue([last, m], env);
      PairValue(last, m, env);
      EvalSumAppend(Distribute(init, m), Product([last, m]), env);
      TimesDistributes(EvalSum(init, env), Eval(last, env), Eval(m, env));
    }
  }

  lemma ProductOperandsValue(p: Partial, env: Env)
    ensures EvalProduct(Operands(p, 1), env) == FactorValue(p, env)
  {
    hide Times;
    TimesOne(EvalProduct(p.oss, env));
    EvalProductAppend(p.oss, Immediate(p.v), env);
  }

  /** Multiply(vs...) denotes the product of its arguments modulo 2^64. */
  lemma {:induction false} ProductValue(vs: seq<Expr>, env: Env)
    ensures Eval(Product(vs), env) == EvalProduct(vs, env)
    decreases TotalSize(vs), 0
  {
    hide Plus, Times;
    if Immediate(0) in vs {
      ZeroFactor(vs, env);
    } else {
      var p := FoldProduct(vs);
      var oss := Operands(p, 1);
      FactorsNoLarger(vs);
      FoldProductValue(vs, env);
      ProductOperandsValue(p, env);
      if p.oss == [] {
        TimesOne(p.v);
      } else if |oss| == 1 {
        PairValue(oss[0], oss[0], env);
        assert oss == [oss[0]];
      } else if |oss| == 2 && oss[0].IsSum() {
        PairSize(oss);
        DistributeValue(oss[0].operands, oss[1], env);
        SumValue(Distribute(oss[0].operands, oss[1]), env);
        assert oss == [oss[0], oss[1]];
        PairValue(oss[0], oss[1], env);
      }
    }
  }

  // ----- ZeroExtend and Clear -----

  lemma ModNested(w: nat, a: nat, b: nat)
    requires a <= b
    ensures (w % Pow2(b)) % Pow2(a) == w % Pow2(a)
    ensures (w % Pow2(a)) % Pow2(b) == w % Pow2(a)
  {
    hide Pow2;
    Pow2Split(a, b - a);
    Pow2Monotone(a, b);
    ModOfMultiple(w, Pow2(a), Pow2(b - a), Pow2(b));
    SmallMod(w % Pow2(a), Pow2(b));
  }

  lemma ModOfMultiple(w: nat, d: nat, e: nat, de: nat)
    requires d > 0 && de > 0 && de == d * e
    ensures (w % de) % d == w % d
  {
    var q, r := w / de, w % de;
    DivMod(w, de);
    MulAssoc(q, e, d);
    ModShift(r, q * e, d);
  }

  lemma SmallMod(x: nat, d: nat)
    requires x < d
    ensures x % d == x
  {}

  /** ZeroExtend keeps exactly the low bits. */
  lemma ZeroExtendValue(v: Expr, bits: nat, env: Env)
    ensures Eval(ZeroExtend(v, bits), env) == LowBits(Eval(v, env), bits)
  {
    match v
    case Extended(inner, innerBits, false) =>
      if 0 < bits < 64 {
        var w := Eval(inner, env);
        if innerBits <= bits { ModNested(w, innerBits, bits); }
        else if innerBits < 64 { ModNested(w, bits, innerBits); }
      }
    case _ =>
  }

  /** Extending twice is extending from the fewer bits, and extending from 64 is nothing. */
  lemma ExtendTwice(v: Expr, a: nat, b: nat)
    ensures ZeroExtend(ZeroExtend(v, a), b) == ZeroExtend(v, if a < b then a else b)
    ensures a >= 64 ==> ZeroExtend(v, a) == v
  {
    hide LowBits;
    if v.Immediate? && 0 < a < 64 && 0 < b < 64 { LowNested(v.value, a, b); }
    ZeroLow(b);
  }

  lemma LowNested(w: Word, a: nat, b: nat)
    requires a < 64 && b < 64
    ensures LowBits(LowBits(w, a), b) == LowBits(w, if a < b then a else b)
  {
    hide Pow2;
    if a <= b { ModNested(w, a, b); } else { ModNested(w, b, a); }
  }

  lemma ZeroLow(bits: nat)
    ensures LowBits(0, bits) == 0
  {}

  lemma {:induction false} ClearValue(v: Expr, bits: nat, env: Env)
    ensures Eval(Clear(v, bits), env) == Eval(v, env) - LowBits(Eval(v, env), bits)
    decreases v
  {
    match v
    case Cleared(inner, innerBits) =>
      if bits > 0 {
        var b := if bits >= 64 then 64 else bits;
        ClearValue(inner, if innerBits >= b then innerBits else b, env);
        var w := Eval(inner, env);
        ClearNested(w, innerBits, b);
      }
    case _ =>
  }

  lemma ClearedAgainLower(w: nat, a: nat, b: nat)
    requires b <= a
    ensures (w - w % Pow2(a)) % Pow2(b) == 0
  {
    DivMod(w, Pow2(a));
    Pow2Split(b, a - b);
    MulAssoc(w / Pow2(a), Pow2(a - b), Pow2(b));
    ModShift(0, (w / Pow2(a)) * Pow2(a - b), Pow2(b));
  }

  lemma ClearedAgainHigher(w: nat, a: nat, b: nat)
    requires a <= b
    ensures (w - w % Pow2(a)) % Pow2(b) == w % Pow2(b) - w % Pow2(a)
  {
    hide Pow2;
    ModNested(w, a, b);
    ClearHigh(w, Pow2(a), Pow2(b));
  }

  lemma ClearHigh(w: nat, d: nat, e: nat)
    requires 0 < d && 0 < e && (w % e) % d == w % d
    ensures (w - w % d) % e == w % e - w % d
  {
    var r := w % e;
    DivMod(w, e);
    ModBelow(r, d);
    ModUnique(w - w % d, w / e, r - r % d, e);
  }

  lemma ClearNested(w: Word, a: nat, b: nat)
    requires b <= 64
    ensures var once := w - LowBits(w, a);
            0 <= once && once - LowBits(once, b) == w - LowBits(w, if a >= b then a else b)
  {
    hide Pow2;
    ModBelow(w, Pow2(a));
    if a < 64 && b < 64 {
      if a >= b { ClearedAgainLower(w, a, b); } else { ClearedAgainHigher(w, a, b); }
    }
  }

  function Most(a: nat, b: nat): nat { if a < b then b else a }

  /** Clearing twice is clearing the more bits, and clearing none is nothing. */
  lemma {:induction false} ClearTwice(v: Expr, a: nat, b: nat)
    ensures Clear(Clear(v, a), b) == Clear(v, Most(a, b))
    ensures Clear(v, 0) == v
    decreases v
  {
    hide LowBits;
    var a', b' := if a >= 64 then 64 else a, if b >= 64 then 64 else b;
    match v
    case Immediate(w) => ClearNested(w, a', b');
    case Cleared(inner, k) =>
      ClearTwice(inner, Most(k, a'), b);
    case _ =>
  }

  // ----- Normal form -----

  /** No sum inside a sum; at most one immediate, last and non-zero. */
  predicate SumNormal(os: seq<Expr>) {
    |os| >= 2 && forall i | 0 <= i < |os| ::
      !os[i].IsSum() && (os[i].Immediate? ==> i == |os| - 1 && os[i].value != 0)
  }

  /** At most one immediate, last and not 1; a lone multiplier of a sum has been distributed. */
  predicate ProductNormal(os: seq<Expr>) {
    && |os| >= 2 && !(|os| == 2 && os[0].IsSum())
    && forall i | 0 <= i < |os| :: os[i].Immediate? ==> i == |os| - 1 && os[i].value != 1
  }

  predicate Normal(e: Expr) {
    match e
    case Op(typ, os) =>
      && (if typ.OpAdd? then SumNormal(os) else ProductNormal(os))
      && forall o | o in os :: Normal(o)
    case MemRef(_, at, _) => Normal(at)
    case Extended(v, _, _) => Normal(v)
    case Cleared(v, _) => Normal(v)
    case _ => true
  }

  predicate AllNormal(os: seq<Expr>) {
    forall o | o in os :: Normal(o)
  }

  predicate PartialNormal(p: Partial, sums: bool) {
    AllNormal(p.oss) && forall o | o in p.oss :: !o.Immediate? && (sums ==> !o.IsSum())
  }

  lemma {:induction false} FoldTermsNormal(p: Partial, os: seq<Expr>)
    requires PartialNormal(p, true) && AllNormal(os) && forall o | o in os :: !o.IsSum()
    ensures PartialNormal(FoldTerms(p, os), true)
    decreases |os|
  {
    if os != [] { FoldTermsNormal(p, os[..|os| - 1]); }
  }

  lemma {:induction false} FoldSumNormal(vs: seq<Expr>)
    requires AllNormal(vs)
    ensures PartialNormal(FoldSum(vs), true)
    decreases |vs|
  {
    if vs != [] {
      var init, last := FoldSum(vs[..|vs| - 1]), vs[|vs| - 1];
      FoldSumNormal(vs[..|vs| - 1]);
      assert Normal(last);
      if last.IsSum() { FoldTermsNormal(init, last.operands); }
    }
  }

  /** Add applied to normal forms yields a normal form. */
  lemma SumIsNormal(vs: seq<Expr>)
    requires AllNormal(vs)
    ensures Normal(Sum(vs))
  {
    FoldSumNormal(vs);
  }

  lemma {:induction false} FoldProductNormal(vs: seq<Expr>)
    requires AllNormal(vs)
    ensures PartialNormal(FoldProduct(vs), false)
    decreases |vs|
  {
    if vs != [] { FoldProductNormal(vs[..|vs| - 1]); }
  }

  lemma OperandsNormal(p: Partial)
    requires PartialNormal(p, false) && p.oss != []
    ensures var oss := Operands(p, 1);
            AllNormal(oss) && (|oss| >= 2 && !(|oss| == 2 && oss[0].IsSum()) ==> Normal(Op(OpMul, oss)))
  {}

  /** Multiply applied to normal forms yields a normal form. */
  lemma {:induction false} ProductIsNormal(vs: seq<Expr>)
    requires AllNormal(vs)
    ensures Normal(Product(vs))
    decreases TotalSize(vs), 0
  {
    hide Times, Plus;
    var p := FoldProduct(vs);
    var oss := Operands(p, 1);
    FactorsNoLarger(vs);
    FoldProductNormal(vs);
    if Immediate(0) !in vs && p.oss != [] {
      OperandsNormal(p);
      assert Normal(oss[0]);
      if |oss| == 2 && oss[0].IsSum() {
        PairSize(oss);
        DistributeIsNormal(oss[0].operands, oss[1]);
        SumIsNormal(Distribute(oss[0].operands, oss[1]));
      }
    }
  }

  lemma {:induction false} DistributeIsNormal(os: seq<Expr>, m: Expr)
    requires AllNormal(os) && Normal(m)
    ensures AllNormal(Distribute(os, m))
    decreases TotalSize(os) + Size(m), 1
  {
    if os != [] {
      SmallSizes(os[|os| - 1], m);
      DistributeIsNormal(os[..|os| - 1], m);
      ProductIsNormal([os[|os| - 1], m]);
    }
  }

  lemma {:induction false} ExtendAndClearAreNormal(v: Expr, bits: nat)
    requires Normal(v)
    ensures Normal(ZeroExtend(v, bits)) && Normal(Clear(v, bits))
    decreases v
  {
    if v.Cleared? {
      var b := if bits >= 64 then 64 else bits;
      ExtendAndClearAreNormal(v.v, if v.bits >= b then v.bits else b);
    }
  }
}
