/** Two programs whose layout is extracted and wrong: one with a narrow load, one with a key that wraps. */
module TsdPrograms {
  import opened Words
  import opened Options
  import opened Expressions
  import opened Matching
  import opened OperandSort
  import opened X86
  import opened X86Soundness
  import opened LoadWidths
  import opened Tsd
  import opened TsdExact

  const THREAD := MemArg(Mem(FS, None, None, 0, 0x10, false))

  /** MOVZX RAX, byte fs:[0x10]. */
  const LOAD_BYTE := Inst(MOVZX, RegArg(Gpr(RAX, 64)), THREAD, 1, 64, 9)

  /** MOV RAX, fs:[0x10]. */
  const LOAD_WORD := Inst(MOV, RegArg(Gpr(RAX, 64)), THREAD, 8, 64, 9)

  /** MOV EDI, EDI. */
  const TRUNCATE_KEY := Inst(MOV, RegArg(Gpr(RDI, 32)), RegArg(Gpr(RDI, 32)), 0, 32, 2)

  /** LEA EDI, [RDI + 1]. */
  const NEXT_KEY := Inst(LEA, RegArg(Gpr(RDI, 32)), MemArg(Mem(0, Some(Gpr(RDI, 64)), None, 0, 1, false)), 0, 32, 3)

  /** MOV RAX, [RAX + RDI * 8 + 0x310]. */
  const LOAD_SLOT :=
    Inst(MOV, RegArg(Gpr(RAX, 64)), MemArg(Mem(0, Some(Gpr(RAX, 64)), Some(Gpr(RDI, 64)), 8, 0x310, false)), 8, 64, 8)

  const RETURN := Inst(RET, NoArg, NoArg, 0, 64, 1)

  function CodeOf(load: Inst, index: Inst): seq<Decoded> { [Insn(load), Insn(index), Insn(LOAD_SLOT), Insn(RETURN)] }

  const NARROW := CodeOf(LOAD_BYTE, TRUNCATE_KEY)
  const WRAPPING := CodeOf(LOAD_WORD, NEXT_KEY)

  // ----- The terms they build -----

  function ThreadTerm(w: nat): Expr { MemRef(FS, Immediate(0x10), w) }

  function Truncated(x: Expr): Expr { Extended(x, 32, false) }

  function NextKey(): Expr { Op(OpAdd, [Key(), Immediate(1)]) }

  function IndexTerm(x: Expr): Expr { Op(OpMul, [Truncated(x), Immediate(8)]) }

  function SlotTerm(w: nat, x: Expr): Expr { Op(OpAdd, [ThreadTerm(w), IndexTerm(x), Immediate(0x310)]) }

  lemma OneImmediate(w: Word)
    ensures Sum([Immediate(w)]) == Immediate(w)
  {
    assert [Immediate(w)][..0] == [];
    assert FoldSum([]) == Partial([], 0);
    PlusZero(w);
  }

  lemma AfterLoad(s: State, i: Inst)
    requires i == LOAD_BYTE || i == LOAD_WORD
    ensures Step(s, i).regs[RAX] == ThreadTerm(i.memBytes) && Step(s, i).regs[RDI] == s.regs[RDI]
  {
    hide Sum;
    OneImmediate(0x10);
    assert ImmFromDisp(0x10) == Immediate(0x10);
    assert AddressTerms(s.regs, i.src.m) == [Immediate(0x10)];
  }

  lemma AfterTruncate(s: State)
    requires s.regs[RDI] == Key()
    ensures Step(s, TRUNCATE_KEY).regs[RDI] == Truncated(Key()) && Step(s, TRUNCATE_KEY).regs[RAX] == s.regs[RAX]
  {
    hide Sum;
  }

  lemma KeyPlusOne()
    ensures Sum([Immediate(1), Key()]) == NextKey()
  {
    var d, k := Immediate(1), Key();
    assert [d, k][..1] == [d] && [d][..0] == [];
    PlusZero(1);
    assert FoldSum([d]) == Partial([], 1) by { assert FoldSum([]) == Partial([], 0); }
    assert FoldSum([d, k]) == Partial([k], 1) by { assert [] + [k] == [k]; }
    assert [k] + [d] == [k, d];
  }

  lemma AfterNext(s: State)
    requires s.regs[RDI] == Key()
    ensures Step(s, NEXT_KEY).regs[RDI] == Truncated(NextKey()) && Step(s, NEXT_KEY).regs[RAX] == s.regs[RAX]
  {
    hide Sum;
    KeyPlusOne();
    var regs := Set(s.regs, Rip, Sum([s.codeAddress, Immediate(Wrap(s.pc + NEXT_KEY.len))]));
    assert ImmFromDisp(1) == Immediate(1);
    assert AddressTerms(regs, NEXT_KEY.src.m) == [Immediate(1), Key()];
  }

  lemma IndexProduct(x: Expr)
    ensures Product([Truncated(x), Immediate(8)]) == IndexTerm(x)
  {
    var t := Truncated(x);
    assert [t, Immediate(8)][..1] == [t] && [t][..0] == [];
    assert FoldProduct([t]) == Partial([t], 1);
    TimesOne(8);
    assert FoldProduct([t, Immediate(8)]) == Partial([t], 8);
    assert [t] + [Immediate(8)] == [t, Immediate(8)];
  }

  lemma SlotSum(w: nat, x: Expr)
    ensures Sum([Immediate(0x310), ThreadTerm(w), IndexTerm(x)]) == SlotTerm(w, x)
  {
    var d, b, t := Immediate(0x310), ThreadTerm(w), IndexTerm(x);
    assert [d, b, t][..2] == [d, b] && [d, b][..1] == [d] && [d][..0] == [];
    PlusZero(0x310);
    assert FoldSum([]) == Partial([], 0);
    assert FoldSum([d]) == Partial([], 0x310);
    assert FoldSum([d, b]) == Partial([b], 0x310) by { assert [] + [b] == [b]; }
    assert FoldSum([d, b, t]) == Partial([b, t], 0x310);
    assert [b, t] + [d] == [b, t, d];
  }

  lemma AfterSlot(s: State, w: nat, x: Expr)
    requires s.regs[RAX] == ThreadTerm(w) && s.regs[RDI] == Truncated(x)
    ensures Step(s, LOAD_SLOT).regs[RAX] == MemRef(0, SlotTerm(w, x), 8)
  {
    hide Sum, Product;
    IndexProduct(x);
    SlotSum(w, x);
    var regs := Set(s.regs, Rip, Sum([s.codeAddress, Immediate(Wrap(s.pc + LOAD_SLOT.len))]));
    assert ImmFromDisp(0x310) == Immediate(0x310);
    assert AddressTerms(regs, LOAD_SLOT.src.m) == [Immediate(0x310), ThreadTerm(w), IndexTerm(x)];
  }

  lemma ExecutedCode(a: Inst, b: Inst)
    requires !a.op.RET? && !b.op.RET?
    ensures Executed(CodeOf(a, b), IsRet) == [a, b, LOAD_SLOT, RETURN]
            && LoopResult(CodeOf(a, b), IsRet) == Stepped(RETURN)
    ensures Body(CodeOf(a, b)) == [a, b, LOAD_SLOT]
  {
    var code := CodeOf(a, b);
    assert code[1..] == [Insn(b), Insn(LOAD_SLOT), Insn(RETURN)];
    assert code[1..][1..] == [Insn(LOAD_SLOT), Insn(RETURN)];
    assert code[1..][1..][1..] == [Insn(RETURN)];
    assert Executed([Insn(RETURN)], IsRet) == [RETURN] && LoopResult([Insn(RETURN)], IsRet) == Stepped(RETURN);
    assert Executed([Insn(LOAD_SLOT), Insn(RETURN)], IsRet) == [LOAD_SLOT, RETURN];
    assert LoopResult([Insn(LOAD_SLOT), Insn(RETURN)], IsRet) == Stepped(RETURN);
    assert LoopResult(code[1..], IsRet) == Stepped(RETURN);
    assert Executed(code[1..], IsRet) == [b, LOAD_SLOT, RETURN];
  }

  lemma FinalTerm(a: Inst, b: Inst, w: nat, x: Expr)
    requires !a.op.RET? && !b.op.RET?
    requires var s := Step(Step(Start(), a), b); s.regs[RAX] == ThreadTerm(w) && s.regs[RDI] == Truncated(x)
    ensures FinalRax(CodeOf(a, b)) == MemRef(0, SlotTerm(w, x), 8)
  {
    hide Step, InitRegs;
    ExecutedCode(a, b);
    var s0, c, d := Start(), LOAD_SLOT, RETURN;
    assert [a, b, c, d][..3] == [a, b, c] && [a, b, c][..2] == [a, b] && [a, b][..1] == [a] && [a][..0] == [];
    var s2 := Step(Step(s0, a), b);
    assert Run(s0, [a]) == Step(s0, a);
    assert Run(s0, [a, b]) == s2;
    assert Run(s0, [a, b, c]) == Step(s2, c);
    AfterSlot(s2, w, x);
    RetKeepsRax(Step(s2, c), d);
  }

  lemma NarrowTerm()
    ensures FinalRax(NARROW) == MemRef(0, SlotTerm(1, Key()), 8)
  {
    assert Start().regs[RDI] == Key();
    hide Step, InitRegs, FinalRax;
    AfterLoad(Start(), LOAD_BYTE);
    AfterTruncate(Step(Start(), LOAD_BYTE));
    FinalTerm(LOAD_BYTE, TRUNCATE_KEY, 1, Key());
  }

  lemma WrappingTerm()
    ensures FinalRax(WRAPPING) == MemRef(0, SlotTerm(8, NextKey()), 8)
  {
    assert Start().regs[RDI] == Key();
    hide Step, InitRegs, FinalRax;
    AfterLoad(Start(), LOAD_WORD);
    AfterNext(Step(Start(), LOAD_WORD));
    FinalTerm(LOAD_WORD, NEXT_KEY, 8, NextKey());
  }

  // ----- The shapes they match -----

  lemma RankedTriple(x: Expr, y: Expr, z: Expr)
    requires Rank(x) <= Rank(y) <= Rank(z)
    ensures Ranked([x, y, z]) == [x, y, z] && Ranked([x, y]) == [x, y]
  {
    hide Rank;
    assert [x, y, z][..2] == [x, y] && [x, y][..1] == [x] && [x][..0] == [];
    assert Ranked([]) == [] && [] + [x] == [x];
    assert Ranked([x]) == [x];
    assert [x] + [y] == [x, y] && [x, y] + [z] == [x, y, z];
    assert Ranked([x, y]) == [x, y];
  }

  lemma Captures(w: Word, id: nat, caps: Captures)
    requires Permutes(Ranked)
    ensures Match(Immediate(w), ImmediateCapture(id), caps, Ranked) == Matched(true, caps[id := w])
  {}

  lemma MatchesKey(caps: Captures)
    requires Permutes(Ranked)
    ensures Match(Key(), Key(), caps, Ranked) == Matched(true, caps)
    ensures Match(NextKey(), Key(), caps, Ranked) == Matched(false, caps)
  {
    hide MatchAll, Ranked;
  }

  /** Operands already in order are compared as they stand. */
  lemma OneLevel(os: seq<Expr>, ps: seq<Expr>, typ: OpType, caps: Captures)
    requires Permutes(Ranked) && Ranked(os) == os && Ranked(ps) == ps && |os| == |ps|
    ensures Match(Op(typ, os), Op(typ, ps), caps, Ranked) == MatchAll(os, ps, caps, Ranked)
  {
    hide MatchAll, Ranked;
  }

  lemma MatchesOne(x: Expr, p: Expr, caps: Captures)
    requires Permutes(Ranked)
    ensures MatchAll([x], [p], caps, Ranked) == Match(x, p, caps, Ranked)
  {
    hide Match;
    assert [x][..0] == [] == [p][..0];
    assert MatchAll([], [], caps, Ranked) == Matched(true, caps);
  }

  lemma MatchesMore(os: seq<Expr>, ps: seq<Expr>, x: Expr, p: Expr, caps: Captures)
    requires Permutes(Ranked) && |os| == |ps|
    ensures var m := MatchAll(os, ps, caps, Ranked);
            MatchAll(os + [x], ps + [p], caps, Ranked) == if m.ok then Match(x, p, m.caps, Ranked) else m
  {
    hide Match;
    assert (os + [x])[..|os|] == os && (ps + [p])[..|ps|] == ps;
  }

  /** Two operands, the second of them captured. */
  lemma MatchesPair(x: Expr, p: Expr, w: Word, id: nat, typ: OpType, caps: Captures)
    requires Permutes(Ranked) && Rank(x) <= Rank(Immediate(w)) && Rank(p) <= Rank(ImmediateCapture(id))
    ensures var m := Match(x, p, caps, Ranked);
            Match(Op(typ, [x, Immediate(w)]), Op(typ, [p, ImmediateCapture(id)]), caps, Ranked) ==
            if m.ok then Matched(true, m.caps[id := w]) else m
  {
    hide Ranked, Match, MatchAll, Permutes, Rank;
    var k, c, m := Immediate(w), ImmediateCapture(id), Match(x, p, caps, Ranked);
    RankedTriple(x, k, k);
    RankedTriple(p, c, c);
    OneLevel([x, k], [p, c], typ, caps);
    MatchesOne(x, p, caps);
    MatchesMore([x], [p], k, c, caps);
    assert [x] + [k] == [x, k] && [p] + [c] == [p, c];
    Captures(w, id, m.caps);
  }

  lemma MatchesTruncated(x: Expr, p: Expr, caps: Captures)
    requires Permutes(Ranked)
    ensures Match(Truncated(x), Truncated(p), caps, Ranked) == Match(x, p, caps, Ranked)
  {
    hide MatchAll, Ranked;
  }

  lemma MatchesThread(w: nat, caps: Captures)
    requires Permutes(Ranked)
    ensures Match(ThreadTerm(w), ThreadWord(0x10), caps, Ranked) == Matched(true, caps)
  {
    hide MatchAll, Ranked;
  }

  function ThreeTerms(p: Expr): Expr { Op(OpAdd, [ThreadWord(0x10), ScaledClosed(p), ImmediateCapture(OFFSET)]) }

  lemma ThreeRanked(w: nat, x: Expr, p: Expr)
    ensures var os := [ThreadTerm(w), IndexTerm(x), Immediate(0x310)]; Ranked(os) == os
    ensures var ps := [ThreadWord(0x10), ScaledClosed(p), ImmediateCapture(OFFSET)]; Ranked(ps) == ps
  {
    hide Ranked;
    RankedTriple(ThreadTerm(w), IndexTerm(x), Immediate(0x310));
    RankedTriple(ThreadWord(0x10), ScaledClosed(p), ImmediateCapture(OFFSET));
  }

  /** Whatever its width, the thread word matches; the rest is up to the index. */
  lemma MatchesThree(w: nat, x: Expr, p: Expr, caps: Captures)
    requires Permutes(Ranked)
    ensures var m, r := Match(x, p, caps, Ranked), Match(SlotTerm(w, x), ThreeTerms(p), caps, Ranked);
            r == if m.ok then Matched(true, m.caps[MULTIPLIER := 8][OFFSET := 0x310]) else m
  {
    hide Ranked, Match, MatchAll, Permutes;
    var b, t, d := ThreadTerm(w), IndexTerm(x), Immediate(0x310);
    var q, s, o := ThreadWord(0x10), ScaledClosed(p), ImmediateCapture(OFFSET);
    assert Ranked([b, t, d]) == [b, t, d] && Ranked([q, s, o]) == [q, s, o] by { ThreeRanked(w, x, p); }
    OneLevel([b, t, d], [q, s, o], OpAdd, caps);
    MatchesOne(b, q, caps);
    MatchesThread(w, caps);
    MatchesMore([b], [q], t, s, caps);
    MatchesMore([b, t], [q, s], d, o, caps);
    assert [b] + [t] == [b, t] && [b, t] + [d] == [b, t, d] && [q] + [s] == [q, s] && [q, s] + [o] == [q, s, o];
    MatchesPair(Truncated(x), Truncated(p), 8, MULTIPLIER, OpMul, caps);
    MatchesTruncated(x, p, caps);
    Captures(0x310, OFFSET, Match(x, p, caps, Ranked).caps[MULTIPLIER := 8]);
  }

  lemma FewerOperands(w: nat, x: Expr, caps: Captures)
    requires Permutes(Ranked)
    ensures Match(SlotTerm(w, x), ShapeClosed(0), caps, Ranked) == Matched(false, caps)
  {
    hide MatchAll, Ranked;
  }

  lemma UnderLoad(e: Expr, p: Expr, caps: Captures)
    requires Permutes(Ranked)
    ensures Match(MemRef(0, e, 8), MemRef(0, p, 8), caps, Ranked) == Match(e, p, caps, Ranked)
  {
    hide MatchAll, Ranked;
  }

  /** The attempts at shapes 0, 1 and 2. */
  lemma Attempts(w: nat, x: Expr)
    requires Permutes(Ranked)
    ensures var res := MemRef(0, SlotTerm(w, x), 8);
            && Attempt(res, 0, Ranked) == Matched(false, map[])
            && Attempt(res, 1, Ranked) == Match(SlotTerm(w, x), ThreeTerms(Key()), map[], Ranked)
            && Attempt(res, 2, Ranked) ==
               Match(SlotTerm(w, x), ThreeTerms(Op(OpAdd, [Key(), ImmediateCapture(MULTIPLIER2)])),
                     CapsBefore(res, 2, Ranked), Ranked)
  {
    hide Ranked, Match, Shape;
    var res, e := MemRef(0, SlotTerm(w, x), 8), SlotTerm(w, x);
    ShapesAreClosed(0);
    ShapesAreClosed(1);
    ShapesAreClosed(2);
    UnderLoad(e, ShapeClosed(0), map[]);
    FewerOperands(w, x, map[]);
    assert CapsBefore(res, 0, Ranked) == map[];
    assert CapsBefore(res, 1, Ranked) == map[];
    UnderLoad(e, ShapeClosed(1), map[]);
    UnderLoad(e, ShapeClosed(2), CapsBefore(res, 2, Ranked));
  }

  lemma NarrowExtracted()
    requires Permutes(Ranked)
    ensures Extract(NARROW, Ranked) == Extracted(TSDInfo(0x310, 8, 0)) && ConstantsFit(NARROW, Ranked)
  {
    hide Ranked, FinalRax, Match, SlotTerm, LoopResult, Executed, Attempt;
    NarrowTerm();
    ExecutedCode(LOAD_BYTE, TRUNCATE_KEY);
    Attempts(1, Key());
    MatchesKey(map[]);
    MatchesThree(1, Key(), Key(), map[]);
  }

  function WrappingCaps(caps: Captures): Captures { caps[MULTIPLIER2 := 1][MULTIPLIER := 8][OFFSET := 0x310] }

  lemma WrappingExtracted() returns (caps: Captures)
    requires Permutes(Ranked)
    ensures Extract(WRAPPING, Ranked) == Extracted(TSDInfo(0x318, 8, 0)) && ConstantsFit(WRAPPING, Ranked)
    ensures ShapeFound(FinalRax(WRAPPING), Ranked) == 2
    ensures Attempt(FinalRax(WRAPPING), 2, Ranked).caps == WrappingCaps(caps)
  {
    hide Ranked, FinalRax, Match, SlotTerm, LoopResult, Executed, Attempt, CapsBefore;
    WrappingTerm();
    ExecutedCode(LOAD_WORD, NEXT_KEY);
    Attempts(8, NextKey());
    MatchesKey(map[]);
    MatchesThree(8, NextKey(), Key(), map[]);
    var res := MemRef(0, SlotTerm(8, NextKey()), 8);
    caps := CapsBefore(res, 2, Ranked);
    MatchesKey(caps);
    MatchesPair(Key(), Key(), 1, MULTIPLIER2, OpAdd, caps);
    MatchesThree(8, NextKey(), Op(OpAdd, [Key(), ImmediateCapture(MULTIPLIER2)]), caps);
    assert OffsetOf(2, WrappingCaps(caps)) == 0x318;
  }

  // ----- They go wrong -----

  lemma CodeIsFollowed()
    ensures AllFollowed(Body(NARROW)) && AllFollowed(Body(WRAPPING))
  {
    ExecutedCode(LOAD_BYTE, TRUNCATE_KEY);
    ExecutedCode(LOAD_WORD, NEXT_KEY);
    hide Body, Executed;
    assert Followed(LOAD_BYTE) && Followed(TRUNCATE_KEY) && Followed(LOAD_SLOT) && Followed(LOAD_WORD)
           && Followed(NEXT_KEY);
  }

  lemma SlotLoads(w: nat)
    ensures NoNarrow(SlotTerm(w, Key())) <==> w >= 8
    ensures NoNarrow(SlotTerm(w, NextKey())) <==> w >= 8
  {
    assert NoNarrow(Key()) && NoNarrow(NextKey());
    IndexLoads(w, Key());
    IndexLoads(w, NextKey());
  }

  lemma IndexLoads(w: nat, x: Expr)
    requires NoNarrow(x)
    ensures NoNarrow(SlotTerm(w, x)) <==> w >= 8
  {
    var b, t, d := ThreadTerm(w), IndexTerm(x), Immediate(0x310);
    NoNarrowOperands(OpMul, [Truncated(x), Immediate(8)]);
    NoNarrowOperands(OpAdd, [b, t, d]);
    assert NoNarrow(Truncated(x)) && NoNarrow(Immediate(8)) && NoNarrow(d) && (NoNarrow(b) <==> w >= 8);
    assert b in [b, t, d];
  }

  lemma NoNarrowOperands(typ: OpType, os: seq<Expr>)
    ensures NoNarrow(Op(typ, os)) <==> forall o | o in os :: NoNarrow(o)
  {}

  /** Followed code whose layout is extracted, with constants that fit, and names an address other
      than the one RAX is loaded from, because a byte of the thread pointer is taken for all of it. */
  lemma NarrowLoadFails() returns (m: Machine)
    ensures AllFollowed(Body(NARROW)) && Permutes(Ranked) && FinalRax(NARROW).MemRef? && ConstantsFit(NARROW, Ranked)
    ensures Extract(NARROW, Ranked) == Extracted(TSDInfo(0x310, 8, 0)) && !NamesSlot(NARROW, Ranked, m)
  {
    hide Ranked, Extract, FinalRax, Body, AllFollowed, NoNarrow, ConstantsFit, NamesSlot, SlotTerm;
    RankedPermutes();
    CodeIsFollowed();
    NarrowTerm();
    NarrowExtracted();
    SlotLoads(1);
    m := NarrowUnnamed(NARROW, Ranked);
  }

  lemma KeyWraps(caps: Captures)
    ensures var all := WrappingCaps(caps); Times(Dropped(all, 0xffff_ffff), Cell(all, MULTIPLIER)) != 0
  {
    Pow2Of64();
  }

  /** Followed code that adds 1 to the key: the extracted layout names another address whenever the key
      is 0xffffffff, since the sum wraps in 32 bits and the offset into which it is folded does not. */
  lemma WrappedKeyFails(m: Machine)
    requires m.regs[RDI] == 0xffff_ffff
    ensures AllFollowed(Body(WRAPPING)) && Permutes(Ranked) && FinalRax(WRAPPING).MemRef?
            && ConstantsFit(WRAPPING, Ranked)
    ensures Extract(WRAPPING, Ranked) == Extracted(TSDInfo(0x318, 8, 0)) && NoNarrow(FinalRax(WRAPPING).at)
    ensures !NamesSlot(WRAPPING, Ranked, m)
  {
    hide Ranked, Extract, FinalRax, Body, AllFollowed, NoNarrow, ConstantsFit, NamesSlot, SlotTerm, Times, Dropped,
         Cell, Attempt;
    hide ShapeFound, WrappingCaps;
    RankedPermutes();
    CodeIsFollowed();
    WrappingTerm();
    var caps := WrappingExtracted();
    SlotLoads(8);
    KeyWraps(caps);
    ExtractionSound(m, WRAPPING, Ranked);
  }
}
