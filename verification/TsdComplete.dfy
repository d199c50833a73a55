/** Exactly when a layout is extracted, and that it is from code of the shapes looked for. */
module TsdComplete {
  import opened Words
  import opened Options
  import opened Expressions
  import opened Matching
  import opened OperandSort
  import opened Completeness
  import opened X86
  import opened Tsd
  import opened TsdPrograms

  // ----- A term matches at most one shape -----

  lemma {:induction false} MatchSize(e: Expr, p: Expr, caps: Captures, sort: Sorter)
    requires Permutes(sort) && Match(e, p, caps, sort).ok
    ensures Size(e) == Size(p)
    decreases Size(e), 0
  {
    match e
    case MemRef(_, at, _) => MatchSize(at, p.at, caps, sort);
    case Op(_, os) =>
      SameLength(sort(os), os);
      SameLength(sort(p.operands), p.operands);
      PermutedSize(sort(os), os);
      PermutedSize(sort(p.operands), p.operands);
      MatchAllSize(sort(os), sort(p.operands), caps, sort);
    case Extended(v, _, _) => MatchSize(v, p.v, caps, sort);
    case Cleared(v, _) => MatchSize(v, p.v, caps, sort);
    case _ =>
  }

  lemma {:induction false} MatchAllSize(os: seq<Expr>, ps: seq<Expr>, caps: Captures, sort: Sorter)
    requires |os| == |ps| && Permutes(sort) && MatchAll(os, ps, caps, sort).ok
    ensures TotalSize(os) == TotalSize(ps)
    decreases TotalSize(os), 1
  {
    if os != [] {
      var n := |os| - 1;
      MatchAllSize(os[..n], ps[..n], caps, sort);
      MatchSize(os[n], ps[n], MatchAll(os[..n], ps[..n], caps, sort).caps, sort);
    }
  }

  lemma PairSize(typ: OpType, x: Expr, y: Expr)
    ensures Size(Op(typ, [x, y])) == 1 + Size(x) + Size(y)
  {
    SmallSizes(x, y);
  }

  lemma TripleSize(typ: OpType, x: Expr, y: Expr, z: Expr)
    ensures Size(Op(typ, [x, y, z])) == 1 + Size(x) + Size(y) + Size(z)
  {
    assert [x, y, z][..2] == [x, y];
    SmallSizes(x, y);
  }

  lemma LeafSizes(at: Word, id: nat, e: Expr)
    ensures Size(ThreadWord(at)) == 2 && Size(ImmediateCapture(id)) == 1 && Size(Key()) == 1
    ensures Size(MemRef(0, e, 8)) == 1 + Size(e) == Size(Extended(e, 32, false))
  {}

  lemma ScaledSize(e: Expr)
    ensures Size(ScaledClosed(e)) == 3 + Size(e)
  {
    hide Size;
    LeafSizes(0, MULTIPLIER, e);
    PairSize(OpMul, Extended(e, 32, false), ImmediateCapture(MULTIPLIER));
  }

  lemma ShapeSizes()
    ensures Size(ShapeClosed(0)) == 10 && Size(ShapeClosed(1)) == 8 && Size(ShapeClosed(2)) == 10
  {
    hide Size, ScaledClosed, ThreadWord, Key;
    var o, k2 := ImmediateCapture(OFFSET), ImmediateCapture(MULTIPLIER2);
    var sum, inner := Op(OpAdd, [Key(), k2]), Op(OpAdd, [ThreadWord(0), o]);
    LeafSizes(0, OFFSET, inner);
    LeafSizes(0x10, MULTIPLIER2, sum);
    PairSize(OpAdd, Key(), k2);
    PairSize(OpAdd, ThreadWord(0), o);
    ScaledSize(Key());
    ScaledSize(sum);
    PairSize(OpAdd, MemRef(0, inner, 8), ScaledClosed(Key()));
    TripleSize(OpAdd, ThreadWord(0x10), ScaledClosed(Key()), o);
    TripleSize(OpAdd, ThreadWord(0x10), ScaledClosed(sum), o);
  }

  lemma OperandCount(e: Expr, p: Expr, caps: Captures, sort: Sorter)
    requires Permutes(sort) && p.Op? && Match(e, p, caps, sort).ok
    ensures e.Op? && |e.operands| == |p.operands|
  {
    hide MatchAll;
  }

  /** The shapes exclude each other, whatever was captured before and however operands are sorted. */
  lemma OneShape(e: Expr, n: nat, m: nat, caps: Captures, caps': Captures, sort: Sorter)
    requires n < 3 && m < 3 && Permutes(sort) && Match(e, Shape(n), caps, sort).ok && Match(e, Shape(m), caps', sort).ok
    ensures n == m
  {
    hide Match, Shape, Size;
    ShapesAreClosed(n);
    ShapesAreClosed(m);
    MatchSize(e, Shape(n), caps, sort);
    MatchSize(e, Shape(m), caps', sort);
    OperandCount(e, Shape(n), caps, sort);
    OperandCount(e, Shape(m), caps', sort);
    ShapeSizes();
  }

  lemma ShapeFoundIff(res: Expr, n: nat, sort: Sorter)
    requires n < 3 && Permutes(sort)
    ensures ShapeFound(res, sort) == n <==> Attempt(res, n, sort).ok
  {
    hide Shape, CapsBefore;
    var k := ShapeFound(res, sort);
    if Attempt(res, n, sort).ok {
      UnderPattern(res, n, sort);
      UnderPattern(res, k, sort);
      OneShape(res.at, n, k, CapsBefore(res, n, sort), CapsBefore(res, k, sort), sort);
    }
  }

  /** A layout is extracted exactly from code that reaches its RET with one of the three patterns in
      RAX, whichever it is. */
  lemma ExtractedIff(code: seq<Decoded>, sort: Sorter)
    requires Permutes(sort)
    ensures Extract(code, sort).Extracted? <==>
            LoopResult(code, IsRet).Stepped? && exists n | 0 <= n < 3 :: Attempt(FinalRax(code), n, sort).ok
    ensures forall n | 0 <= n < 3 && LoopResult(code, IsRet).Stepped? && Attempt(FinalRax(code), n, sort).ok ::
              Extract(code, sort) == Extracted(InfoOf(n, Attempt(FinalRax(code), n, sort).caps))
  {
    hide Attempt, FinalRax, LoopResult;
    forall n | 0 <= n < 3 ensures ShapeFound(FinalRax(code), sort) == n <==> Attempt(FinalRax(code), n, sort).ok {
      ShapeFoundIff(FinalRax(code), n, sort);
    }
    assert ShapeFound(FinalRax(code), sort) <= 3;
  }

  /** What is extracted from code that leaves in RAX a load from an address of shape n, with whatever
      constants and in whatever order of operands. */
  lemma ExtractComplete(code: seq<Decoded>, n: nat, c: Captures)
    requires n < 3 && Permutes(Ranked) && LoopResult(code, IsRet).Stepped?
    requires var res := FinalRax(code); res.MemRef? && res.segment == 0 && Instance(res.at, ShapeClosed(n), c)
    ensures Extract(code, Ranked) == Extracted(InfoOf(n, c))
  {
    hide FinalRax, LoopResult, Ranked, Instance, Shape, ShapeClosed, CapsBefore, Bag, Linear, Match, InfoOf;
    var res := FinalRax(code);
    ShapesAreClosed(n);
    ShapesAreLinear(n);
    ShapeBag(n);
    var before := CapsBefore(res, n, Ranked);
    MatchComplete(res.at, Shape(n), before, c);
    WholePattern(res, n);
    ExtractedIff(code, Ranked);
    SameInfo(n, Match(res.at, Shape(n), before, Ranked).caps, c);
  }

  lemma WholePattern(res: Expr, n: nat)
    requires Permutes(Ranked) && res.MemRef? && res.segment == 0
    ensures Attempt(res, n, Ranked) == Match(res.at, Shape(n), CapsBefore(res, n, Ranked), Ranked)
  {
    hide Shape, CapsBefore, Ranked, MatchAll;
  }

  lemma SameInfo(n: nat, caps: Captures, c: Captures)
    requires Holds(if n < 2 then multiset{OFFSET, MULTIPLIER} else multiset{OFFSET, MULTIPLIER, MULTIPLIER2}, caps, c)
    ensures InfoOf(n, caps) == InfoOf(n, c)
  {
    hide Int16, Plus, Times;
  }

  // ----- The code of musl -----

  /** MOV RAX, fs:[0]. */
  const LOAD_SELF := Inst(MOV, RegArg(Gpr(RAX, 64)), MemArg(Mem(FS, None, None, 0, 0, false)), 8, 64, 9)

  /** MOV RAX, [RAX + 0x80]. */
  const LOAD_TSD := Inst(MOV, RegArg(Gpr(RAX, 64)), MemArg(Mem(0, Some(Gpr(RAX, 64)), None, 0, 0x80, false)), 8, 64, 7)

  /** MOV RAX, [RAX + RDI * 8]. */
  const LOAD_VALUE :=
    Inst(MOV, RegArg(Gpr(RAX, 64)), MemArg(Mem(0, Some(Gpr(RAX, 64)), Some(Gpr(RDI, 64)), 8, 0, false)), 8, 64, 4)

  const MUSL := [Insn(LOAD_SELF), Insn(LOAD_TSD), Insn(TRUNCATE_KEY), Insn(LOAD_VALUE), Insn(RETURN)]

  function SelfTerm(): Expr { MemRef(FS, Immediate(0), 8) }

  function TsdTerm(): Expr { MemRef(0, Op(OpAdd, [SelfTerm(), Immediate(0x80)]), 8) }

  function ValueTerm(): Expr { Op(OpAdd, [TsdTerm(), IndexTerm(Key())]) }

  lemma AfterSelf(s: State)
    ensures Step(s, LOAD_SELF).regs[RAX] == SelfTerm() && Step(s, LOAD_SELF).regs[RDI] == s.regs[RDI]
  {
    assert Sum([]) == Immediate(0);
    hide Sum;
    assert AddressTerms(s.regs, LOAD_SELF.src.m) == [];
  }

  lemma SelfSum()
    ensures Sum([Immediate(0x80), SelfTerm()]) == Op(OpAdd, [SelfTerm(), Immediate(0x80)])
  {
    var d, b := Immediate(0x80), SelfTerm();
    assert [d, b][..1] == [d] && [d][..0] == [];
    PlusZero(0x80);
    assert FoldSum([d]) == Partial([], 0x80) by { assert FoldSum([]) == Partial([], 0); }
    assert FoldSum([d, b]) == Partial([b], 0x80) by { assert [] + [b] == [b]; }
    assert [b] + [d] == [b, d];
  }

  lemma AfterTsd(s: State)
    requires s.regs[RAX] == SelfTerm()
    ensures Step(s, LOAD_TSD).regs[RAX] == TsdTerm() && Step(s, LOAD_TSD).regs[RDI] == s.regs[RDI]
  {
    hide Sum;
    SelfSum();
    var regs := Set(s.regs, Rip, Sum([s.codeAddress, Immediate(Wrap(s.pc + LOAD_TSD.len))]));
    assert ImmFromDisp(0x80) == Immediate(0x80);
    assert AddressTerms(regs, LOAD_TSD.src.m) == [Immediate(0x80), SelfTerm()];
  }

  lemma AfterValue(s: State)
    requires s.regs[RAX] == TsdTerm() && s.regs[RDI] == Truncated(Key())
    ensures Step(s, LOAD_VALUE).regs[RAX] == MemRef(0, ValueTerm(), 8)
  {
    hide Sum, Product;
    IndexProduct(Key());
    PairSum(TsdTerm(), IndexTerm(Key()));
    var regs := Set(s.regs, Rip, Sum([s.codeAddress, Immediate(Wrap(s.pc + LOAD_VALUE.len))]));
    assert AddressTerms(regs, LOAD_VALUE.src.m) == [TsdTerm(), IndexTerm(Key())];
  }

  lemma MuslExecuted()
    ensures Executed(MUSL, IsRet) == [LOAD_SELF, LOAD_TSD, TRUNCATE_KEY, LOAD_VALUE, RETURN]
    ensures LoopResult(MUSL, IsRet) == Stepped(RETURN)
  {
    var a, b, c, d, e := LOAD_SELF, LOAD_TSD, TRUNCATE_KEY, LOAD_VALUE, RETURN;
    assert MUSL[1..] == [Insn(b), Insn(c), Insn(d), Insn(e)];
    assert MUSL[1..][1..] == [Insn(c), Insn(d), Insn(e)];
    assert MUSL[1..][1..][1..] == [Insn(d), Insn(e)];
    assert MUSL[1..][1..][1..][1..] == [Insn(e)];
    assert Executed([Insn(e)], IsRet) == [e] && LoopResult([Insn(e)], IsRet) == Stepped(e);
    assert Executed([Insn(d), Insn(e)], IsRet) == [d, e] && LoopResult([Insn(d), Insn(e)], IsRet) == Stepped(e);
    assert Executed(MUSL[1..][1..], IsRet) == [c, d, e] && LoopResult(MUSL[1..][1..], IsRet) == Stepped(e);
    assert Executed(MUSL[1..], IsRet) == [b, c, d, e] && LoopResult(MUSL[1..], IsRet) == Stepped(e);
  }

  lemma MuslTerm()
    ensures FinalRax(MUSL) == MemRef(0, ValueTerm(), 8)
  {
    assert Start().regs[RDI] == Key();
    hide Step, InitRegs;
    MuslExecuted();
    hide Executed;
    var a, b, c, d, e := LOAD_SELF, LOAD_TSD, TRUNCATE_KEY, LOAD_VALUE, RETURN;
    assert [a, b, c, d, e][..4] == [a, b, c, d] && [a, b, c, d][..3] == [a, b, c] && [a, b, c][..2] == [a, b];
    assert [a, b][..1] == [a] && [a][..0] == [];
    var s0 := Start();
    var s1 := Step(s0, a);
    var s2 := Step(s1, b);
    var s3 := Step(s2, c);
    assert Run(s0, [a]) == s1;
    assert Run(s0, [a, b]) == s2;
    assert Run(s0, [a, b, c]) == s3;
    assert Run(s0, [a, b, c, d]) == Step(s3, d);
    AfterSelf(s0);
    AfterTsd(s1);
    AfterTruncate(s2);
    AfterValue(s3);
    RetKeepsRax(Step(s3, d), e);
  }

  lemma PairInstance(typ: OpType, x: Expr, y: Expr, p: Expr, q: Expr, c: Captures)
    requires Instance(x, p, c) && Instance(y, q, c) && !SameKind(x, y)
    ensures Instance(Op(typ, [x, y]), Op(typ, [p, q]), c)
  {
    hide SameKind;
    assert InstanceAll([x, y], [p, q], c);
  }

  lemma LeafInstances(c: Captures)
    requires c == map[OFFSET := 0x80, MULTIPLIER := 8]
    ensures Instance(SelfTerm(), ThreadWord(0), c) && Instance(Immediate(0x80), ImmediateCapture(OFFSET), c)
    ensures Instance(Truncated(Key()), Truncated(Key()), c) && Instance(Immediate(8), ImmediateCapture(MULTIPLIER), c)
  {}

  lemma LoadInstance(e: Expr, p: Expr, c: Captures)
    requires Instance(e, p, c)
    ensures Instance(MemRef(0, e, 8), MemRef(0, p, 8), c)
  {}

  lemma MuslInstance(c: Captures)
    requires c == map[OFFSET := 0x80, MULTIPLIER := 8]
    ensures Instance(ValueTerm(), ShapeClosed(0), c)
  {
    hide Instance;
    var o, k := ImmediateCapture(OFFSET), ImmediateCapture(MULTIPLIER);
    var inner := Op(OpAdd, [ThreadWord(0), o]);
    LeafInstances(c);
    PairInstance(OpAdd, SelfTerm(), Immediate(0x80), ThreadWord(0), o, c);
    LoadInstance(Op(OpAdd, [SelfTerm(), Immediate(0x80)]), inner, c);
    PairInstance(OpMul, Truncated(Key()), Immediate(8), Truncated(Key()), k, c);
    PairInstance(OpAdd, TsdTerm(), IndexTerm(Key()), MemRef(0, inner, 8), ScaledClosed(Key()), c);
  }

  /** From musl's pthread_getspecific: slots of 8 bytes behind the pointer at offset 0x80. */
  lemma MuslExtracted()
    ensures Permutes(Ranked) && Extract(MUSL, Ranked) == Extracted(TSDInfo(0x80, 8, 1))
  {
    hide FinalRax, LoopResult, Ranked, Extract, Instance, ShapeClosed, ValueTerm, Executed;
    RankedPermutes();
    MuslTerm();
    MuslExecuted();
    var c: Captures := map[OFFSET := 0x80, MULTIPLIER := 8];
    MuslInstance(c);
    ExtractComplete(MUSL, 0, c);
  }
}
