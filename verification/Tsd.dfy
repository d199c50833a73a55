/** extractTSDInfoX86: reading the thread-specific-data layout off the code of pthread_getspecific. */
module Tsd {
  import opened Words
  import opened LoadWidths
  import opened Expressions
  import opened ExpressionLaws
  import opened Matching
  import opened X86
  import opened X86Soundness

  /** The FS segment register; 0 is no segment. */
  const FS: nat := 1

  const MULTIPLIER: nat := 0
  const MULTIPLIER2: nat := 1
  const OFFSET: nat := 2

  datatype TSDInfo = TSDInfo(offset: int, multiplier: nat, indirect: nat)

  datatype Result = Extracted(info: TSDInfo) | Failed

  function Int16(w: Word): int {
    var low := w % 0x1_0000;
    if low < 0x8000 then low else low - 0x1_0000
  }

  // ----- The three shapes looked for -----

  function Key(): Expr { Named("RDI") }

  function Scaled(index: Expr): Expr {
    Product([ZeroExtend(index, 32), ImmediateCapture(MULTIPLIER)])
  }

  function ThreadWord(at: Word): Expr { MemRef(FS, Immediate(at), 8) }

  /** Address of the key's slot in shape n. */
  function Shape(n: nat): Expr {
    if n == 0 then
      Sum([MemRef(0, Sum([ThreadWord(0), ImmediateCapture(OFFSET)]), 8), Scaled(Key())])
    else if n == 1 then
      Sum([ThreadWord(0x10), Scaled(Key()), ImmediateCapture(OFFSET)])
    else
      Sum([ThreadWord(0x10), Scaled(Sum([Key(), ImmediateCapture(MULTIPLIER2)])), ImmediateCapture(OFFSET)])
  }

  function Pattern(n: nat): Expr { MemRef(0, Shape(n), 8) }

  function Cell(caps: Captures, id: nat): Word {
    if id in caps then caps[id] else 0
  }

  function OffsetOf(n: nat, caps: Captures): Word {
    if n < 2 then Cell(caps, OFFSET)
    else Plus(Times(Cell(caps, MULTIPLIER), Cell(caps, MULTIPLIER2)), Cell(caps, OFFSET))
  }

  function InfoOf(n: nat, caps: Captures): TSDInfo {
    TSDInfo(Int16(OffsetOf(n, caps)), Cell(caps, MULTIPLIER) % 256, if n == 0 then 1 else 0)
  }

  /** Matching shapes in order, the capture cells shared between the attempts. */
  function CapsBefore(res: Expr, n: nat, sort: Sorter): Captures
    requires Permutes(sort)
  {
    if n == 0 then map[] else Match(res, Pattern(n - 1), CapsBefore(res, n - 1, sort), sort).caps
  }

  function Attempt(res: Expr, n: nat, sort: Sorter): Matched
    requires Permutes(sort)
  {
    Match(res, Pattern(n), CapsBefore(res, n, sort), sort)
  }

  /** The first shape that matches, 3 for none. */
  function ShapeFound(res: Expr, sort: Sorter): nat
    requires Permutes(sort)
  {
    if Attempt(res, 0, sort).ok then 0
    else if Attempt(res, 1, sort).ok then 1
    else if Attempt(res, 2, sort).ok then 2
    else 3
  }

  function Start(): State { State(InitRegs(), 0, Named("RIP")) }

  const IsRet := (i: Inst) => i.op.RET?

  /** RAX as the code leaves it at its first RET. */
  function FinalRax(code: seq<Decoded>): Expr {
    Run(Start(), Executed(code, IsRet)).regs[RAX]
  }

  function Extract(code: seq<Decoded>, sort: Sorter): Result
    requires Permutes(sort)
  {
    var res := FinalRax(code);
    var n := ShapeFound(res, sort);
    if !LoopResult(code, IsRet).Stepped? || n == 3 then Failed
    else Extracted(InfoOf(n, Attempt(res, n, sort).caps))
  }

  method ExtractTSDInfoX86(code: seq<Decoded>, sort: Sorter) returns (r: Result)
    requires Permutes(sort)
    ensures r == Extract(code, sort)
  {
    hide Pattern, Match, InfoOf, Run;
    var it := new Interpreter(code);
    var r', _ := it.LoopWithBreak(IsRet);
    if !r'.Stepped? { return Failed; }
    var res := it.regs[RAX];
    var m := Match(res, Pattern(0), map[], sort);
    assert m == Attempt(res, 0, sort);
    if m.ok { return Extracted(InfoOf(0, m.caps)); }
    m := Match(res, Pattern(1), m.caps, sort);
    assert m == Attempt(res, 1, sort);
    if m.ok { return Extracted(InfoOf(1, m.caps)); }
    m := Match(res, Pattern(2), m.caps, sort);
    assert m == Attempt(res, 2, sort);
    if m.ok { return Extracted(InfoOf(2, m.caps)); }
    return Failed;
  }

  // ----- What the shapes denote -----

  /** A term that is neither a sum nor an immediate is appended as it is. */
  lemma FoldPlain(vs: seq<Expr>, x: Expr)
    requires !x.IsSum() && !x.Immediate?
    ensures FoldSum(vs + [x]) == Partial(FoldSum(vs).oss + [x], FoldSum(vs).v)
  {
    assert (vs + [x])[..|vs|] == vs;
  }

  lemma PairSum(x: Expr, y: Expr)
    requires !x.IsSum() && !x.Immediate? && !y.IsSum() && !y.Immediate?
    ensures Sum([x, y]) == Op(OpAdd, [x, y])
  {
    FoldPlain([], x);
    FoldPlain([x], y);
    assert [] + [x] == [x] && [x] + [y] == [x, y];
    hide FoldSum;
  }

  lemma PairProductTerm(x: Expr, y: Expr)
    requires !x.IsSum() && !x.Immediate? && !y.Immediate?
    ensures Product([x, y]) == Op(OpMul, [x, y])
  {
    assert [x][..0] == [] && [x, y][..1] == [x];
    assert FoldProduct([x]) == Partial([x], 1);
    assert FoldProduct([x, y]) == Partial([x, y], 1);
  }

  lemma TripleSum(x: Expr, y: Expr, z: Expr)
    requires forall t | t in [x, y, z] :: !t.IsSum() && !t.Immediate?
    ensures Sum([x, y, z]) == Op(OpAdd, [x, y, z])
  {
    hide FoldOpened;
    assert x in [x, y, z] && y in [x, y, z] && z in [x, y, z];
    FoldPlain([], x);
    FoldPlain([x], y);
    FoldPlain([x, y], z);
    assert [] + [x] == [x] && [x] + [y] == [x, y] && [x, y] + [z] == [x, y, z];
  }

  function ScaledClosed(index: Expr): Expr {
    Op(OpMul, [Extended(index, 32, false), ImmediateCapture(MULTIPLIER)])
  }

  function ShapeClosed(n: nat): Expr {
    if n == 0 then
      Op(OpAdd, [MemRef(0, Op(OpAdd, [ThreadWord(0), ImmediateCapture(OFFSET)]), 8), ScaledClosed(Key())])
    else if n == 1 then
      Op(OpAdd, [ThreadWord(0x10), ScaledClosed(Key()), ImmediateCapture(OFFSET)])
    else
      Op(OpAdd, [ThreadWord(0x10), ScaledClosed(Op(OpAdd, [Key(), ImmediateCapture(MULTIPLIER2)])),
                 ImmediateCapture(OFFSET)])
  }

  lemma ShapesAreClosed(n: nat)
    ensures Shape(n) == ShapeClosed(n)
  {
    hide Sum, Product;
    var sum := Op(OpAdd, [Key(), ImmediateCapture(MULTIPLIER2)]);
    PairSum(Key(), ImmediateCapture(MULTIPLIER2));
    PairProductTerm(ZeroExtend(Key(), 32), ImmediateCapture(MULTIPLIER));
    PairProductTerm(ZeroExtend(sum, 32), ImmediateCapture(MULTIPLIER));
    PairSum(ThreadWord(0), ImmediateCapture(OFFSET));
    PairSum(MemRef(0, Op(OpAdd, [ThreadWord(0), ImmediateCapture(OFFSET)]), 8), ScaledClosed(Key()));
    TripleSum(ThreadWord(0x10), ScaledClosed(Key()), ImmediateCapture(OFFSET));
    TripleSum(ThreadWord(0x10), ScaledClosed(sum), ImmediateCapture(OFFSET));
  }

  lemma PairBag(typ: OpType, x: Expr, y: Expr)
    ensures Bag(Op(typ, [x, y])) == Bag(x) + Bag(y)
  {
    assert [x][..0] == [] && [x, y][..1] == [x];
    assert BagAll([x]) == Bag(x);
  }

  lemma TripleBag(x: Expr, y: Expr, z: Expr)
    ensures Bag(Op(OpAdd, [x, y, z])) == Bag(x) + Bag(y) + Bag(z)
  {
    assert [x, y, z][..2] == [x, y];
    PairBag(OpAdd, x, y);
  }

  lemma LeafBags(at: Word, e: Expr, id: nat)
    ensures Bag(ThreadWord(at)) == multiset{} && Bag(Key()) == multiset{}
    ensures Bag(ImmediateCapture(id)) == multiset{id}
    ensures Bag(MemRef(0, e, 8)) == Bag(e) == Bag(Extended(e, 32, false))
  {}

  lemma ShapeBag(n: nat)
    ensures Bag(ShapeClosed(n)) == if n < 2 then multiset{OFFSET, MULTIPLIER}
            else multiset{OFFSET, MULTIPLIER, MULTIPLIER2}
  {
    hide Bag, ThreadWord, Key;
    var k, k2, o := ImmediateCapture(MULTIPLIER), ImmediateCapture(MULTIPLIER2), ImmediateCapture(OFFSET);
    var sum, inner := Op(OpAdd, [Key(), k2]), Op(OpAdd, [ThreadWord(0), o]);
    LeafBags(0, inner, MULTIPLIER);
    LeafBags(0x10, Key(), OFFSET);
    LeafBags(0, sum, MULTIPLIER2);
    PairBag(OpMul, Extended(Key(), 32, false), k);
    PairBag(OpMul, Extended(sum, 32, false), k);
    if n == 0 {
      PairBag(OpAdd, ThreadWord(0), o);
      PairBag(OpAdd, MemRef(0, inner, 8), ScaledClosed(Key()));
    } else if n == 1 {
      TripleBag(ThreadWord(0x10), ScaledClosed(Key()), o);
    } else {
      PairBag(OpAdd, Key(), k2);
      TripleBag(ThreadWord(0x10), ScaledClosed(sum), o);
    }
  }

  /** Each constant is captured once. */
  lemma ShapesAreLinear(n: nat)
    ensures Linear(Bag(Shape(n)))
  {
    hide Bag, Shape, ShapeClosed;
    ShapesAreClosed(n);
    ShapeBag(n);
  }

  // ----- The extracted layout gives the address the code loads from -----

  /** Where a reader of the extracted layout finds the key's value. */
  function TsdAddress(info: TSDInfo, mem: Memory, key: nat): Word {
    if info.indirect == 1 then
      Wrap(Load(mem, 0, Wrap(Load(mem, FS, 0, 8) + info.offset), 8) + key * info.multiplier)
    else
      Wrap(Load(mem, FS, 0x10, 8) + info.offset + key * info.multiplier)
  }

  /** The captured constants survive the narrowing to int16 and uint8. */
  predicate Fits(n: nat, caps: Captures) {
    Wrap(Int16(OffsetOf(n, caps))) == OffsetOf(n, caps) && Cell(caps, MULTIPLIER) < 256
  }

  /** So they do exactly when the offset is a 16-bit one, as a signed number, and the multiplier an 8-bit
      one; otherwise the offset is kept up to a multiple of 2^16. */
  lemma FitsIff(n: nat, caps: Captures)
    ensures var o := OffsetOf(n, caps);
            && (Fits(n, caps) <==> -0x8000 <= Signed(o) < 0x8000 && Cell(caps, MULTIPLIER) < 0x100)
            && -0x8000 <= InfoOf(n, caps).offset < 0x8000
            && (InfoOf(n, caps).offset - Signed(o)) % 0x1_0000 == 0
            && (Fits(n, caps) ==>
                  InfoOf(n, caps) == TSDInfo(Signed(o), Cell(caps, MULTIPLIER), if n == 0 then 1 else 0))
  {
    hide OffsetOf;
    Narrowed(OffsetOf(n, caps));
  }

  lemma Narrowed(w: Word)
    ensures -0x8000 <= Int16(w) < 0x8000 && (Int16(w) - Signed(w)) % 0x1_0000 == 0
    ensures Wrap(Int16(w)) == w <==> Int16(w) == Signed(w)
    ensures Int16(w) == Signed(w) <==> -0x8000 <= Signed(w) < 0x8000
  {}

  lemma ScaledValue(index: Expr, env: Env)
    ensures Eval(ScaledClosed(index), env) == Times(LowBits(Eval(index, env), 32), env.captured(MULTIPLIER))
  {
    hide Times, Plus, LowBits, EvalProduct, EvalSum;
    PairProduct(Extended(index, 32, false), ImmediateCapture(MULTIPLIER), env);
  }

  lemma PairProduct(x: Expr, y: Expr, env: Env)
    ensures Eval(Op(OpMul, [x, y]), env) == Times(Eval(x, env), Eval(y, env))
    ensures Eval(Op(OpAdd, [x, y]), env) == Plus(Eval(x, env), Eval(y, env))
  {
    hide Times, Plus;
    PairValue(x, y, env);
  }

  lemma TripleValue(x: Expr, y: Expr, z: Expr, env: Env)
    ensures Eval(Op(OpAdd, [x, y, z]), env) == Plus(Plus(Eval(x, env), Eval(y, env)), Eval(z, env))
  {
    hide Times, Plus;
    PairValue(x, y, env);
    assert [x, y, z] == [x, y] + [z];
    EvalSumAppend([x, y], z, env);
  }

  /** The address shape n describes, over the constants in caps and the loads of an environment. */
  function ShapeAddress(n: nat, caps: Captures, load: (nat, Word, nat) -> Word, rdi: Word): Word {
    var k, o := Cell(caps, MULTIPLIER), Cell(caps, OFFSET);
    if n == 0 then
      Plus(load(0, Plus(load(FS, 0, 8), o), 8), Times(LowBits(rdi, 32), k))
    else
      var index := if n == 1 then rdi else Plus(rdi, Cell(caps, MULTIPLIER2));
      Plus(Plus(load(FS, 0x10, 8), Times(LowBits(index, 32), k)), o)
  }

  lemma LeafValues(env: Env, caps: Captures, at: Word, id: nat, e: Expr)
    ensures var env' := WithCaptures(env, caps);
            && Eval(ThreadWord(at), env') == env.load(FS, at, 8)
            && Eval(Key(), env') == env.named("RDI")
            && Eval(ImmediateCapture(id), env') == env'.captured(id) == Cell(caps, id)
            && Eval(MemRef(0, e, 8), env') == env.load(0, Eval(e, env'), 8)
  {}

  lemma ShapeValue(n: nat, env: Env, caps: Captures)
    requires n < 3
    ensures Eval(Shape(n), WithCaptures(env, caps)) == ShapeAddress(n, caps, env.load, env.named("RDI"))
  {
    hide Eval, Plus, Times, LowBits, ThreadWord, Key, Shape, WithCaptures;
    ShapesAreClosed(n);
    var env' := WithCaptures(env, caps);
    var k2, o := ImmediateCapture(MULTIPLIER2), ImmediateCapture(OFFSET);
    var sum, inner := Op(OpAdd, [Key(), k2]), Op(OpAdd, [ThreadWord(0), o]);
    LeafValues(env, caps, 0, OFFSET, inner);
    LeafValues(env, caps, 0x10, MULTIPLIER, inner);
    LeafValues(env, caps, 0x10, MULTIPLIER2, inner);
    if n == 0 {
      PairProduct(ThreadWord(0), o, env');
      ScaledValue(Key(), env');
      PairProduct(MemRef(0, inner, 8), ScaledClosed(Key()), env');
    } else if n == 1 {
      ScaledValue(Key(), env');
      TripleValue(ThreadWord(0x10), ScaledClosed(Key()), o, env');
    } else {
      PairProduct(Key(), k2, env');
      ScaledValue(sum, env');
      TripleValue(ThreadWord(0x10), ScaledClosed(sum), o, env');
    }
  }

  lemma KeyValue(m: Machine)
    ensures EnvOf(m).named("RDI") == m.regs[RDI]
  {
    hide Load;
    NamesDistinct(RDI);
    assert RegName(RDI) == "RDI";
  }

  lemma PlusCancels(a: Word, b: Word)
    ensures Plus(a, b) == a <==> b == 0
  {}

  /** Wrap of a three-term sum as word additions. */
  lemma NarrowedSum(t: Word, offset: int, product: int)
    ensures Wrap(t + offset + product) == Plus(Plus(t, Wrap(product)), Wrap(offset))
  {
    hide Plus, Wrap;
    PlusWraps(t, Wrap(product));
    PlusWraps(Wrap(t + Wrap(product)), Wrap(offset));
    WrapId(t);
    WrapSum(t, product);
    WrapSum(t + product, offset);
  }

  /** What the 32-bit truncation of key + multiplier2 throws away. */
  function Dropped(caps: Captures, rdi: Word): Word {
    var t := Plus(LowBits(rdi, 32), Cell(caps, MULTIPLIER2));
    t - LowBits(t, 32)
  }

  lemma LowHalfOfSum(a: Word, b: Word)
    ensures LowBits(Plus(a, b), 32) == LowBits(Plus(LowBits(a, 32), b), 32)
  {
    hide Pow2, Plus, Wrap;
    Pow2Of64();
    PlusWraps(a, b);
    PlusWraps(LowBits(a, 32), b);
    WrapMod(a + b, 0x1_0000_0000, 0x1_0000_0000);
    WrapMod(LowBits(a, 32) + b, 0x1_0000_0000, 0x1_0000_0000);
  }

  /** Folding multiplier * multiplier2 into the offset is right up to what the truncation drops. */
  lemma FoldedOffset(base: Word, caps: Captures, rdi: Word)
    ensures var k, k2, o := Cell(caps, MULTIPLIER), Cell(caps, MULTIPLIER2), Cell(caps, OFFSET);
            Plus(Plus(base, Times(LowBits(rdi, 32), k)), Plus(Times(k, k2), o)) ==
            Plus(Plus(Plus(base, Times(LowBits(Plus(rdi, k2), 32), k)), o), Times(Dropped(caps, rdi), k))
  {
    var k, k2, o, key := Cell(caps, MULTIPLIER), Cell(caps, MULTIPLIER2), Cell(caps, OFFSET), LowBits(rdi, 32);
    var t := Plus(key, k2);
    var x, d := LowBits(t, 32), Dropped(caps, rdi);
    assert t == Plus(x, d);
    LowHalfOfSum(rdi, k2);
    hide Plus, Times, LowBits, Dropped;
    TimesCommutes(k, k2);
    TimesDistributes(key, k2, k);
    TimesDistributes(x, d, k);
    Regroup(base, Times(key, k), Times(k2, k), o);
    Regroup(base, Times(x, k), Times(d, k), o);
    PlusAssociates(Plus(base, Times(x, k)), Times(d, k), o);
    PlusAssociates(Plus(base, Times(x, k)), o, Times(d, k));
  }

  lemma Regroup(a: Word, b: Word, c: Word, d: Word)
    ensures Plus(Plus(a, b), Plus(c, d)) == Plus(Plus(a, Plus(b, c)), d)
  {
    hide Plus;
    PlusAssociates(Plus(a, b), c, d);
    PlusAssociates(a, b, c);
  }

  /** The loads of a memory. */
  function Loads(mem: Memory): (nat, Word, nat) -> Word { (segment, at, n) => Load(mem, segment, at, n) }

  /** The layout's address is the shape's address, except for what a 32-bit wrap drops. */
  lemma LayoutAddress(n: nat, caps: Captures, mem: Memory, rdi: Word)
    requires n < 3 && Fits(n, caps)
    ensures TsdAddress(InfoOf(n, caps), mem, LowBits(rdi, 32)) == ShapeAddress(n, caps, Loads(mem), rdi)
            <==> (n == 2 ==> Times(Dropped(caps, rdi), Cell(caps, MULTIPLIER)) == 0)
  {
    hide Wrap, Plus, Times, LowBits, Load, Int16, Dropped;
    var k, o := Cell(caps, MULTIPLIER), OffsetOf(n, caps);
    var key, product := LowBits(rdi, 32), LowBits(rdi, 32) * k;
    assert k % 256 == k;
    TimesWraps(key, k);
    if n == 0 {
      var base := Load(mem, FS, 0, 8);
      NarrowedSum(base, Int16(o), 0);
      WrapId(0);
      PlusZero(base);
      PointerPlus(Load(mem, 0, Plus(base, o), 8), product);
    } else {
      var base := Load(mem, FS, 0x10, 8);
      NarrowedSum(base, Int16(o), product);
      if n == 2 {
        FoldedOffset(base, caps, rdi);
        PlusCancels(ShapeAddress(n, caps, Loads(mem), rdi), Times(Dropped(caps, rdi), k));
      }
    }
  }

  lemma PointerPlus(a: Word, product: int)
    ensures Wrap(a + product) == Plus(a, Wrap(product))
  {}

  lemma RetKeepsRax(s: State, ret: Inst)
    requires ret.op.RET?
    ensures Step(s, ret).regs[RAX] == s.regs[RAX]
  {
    hide Sum;
  }

  /** The executed prefix of a program that reaches its RET. */
  lemma {:induction false} RunsToRet(code: seq<Decoded>) returns (ret: Inst)
    requires LoopResult(code, IsRet).Stepped?
    ensures ret.op.RET? && Executed(code, IsRet) != []
    ensures Executed(code, IsRet) == Body(code) + [ret]
    decreases |code|
  {
    ret := code[0].i;
    if !ret.op.RET? {
      ret := RunsToRet(code[1..]);
      assert Executed(code, IsRet) == [code[0].i] + Executed(code[1..], IsRet);
      assert Body(code) == [code[0].i] + Body(code[1..]);
    }
  }

  /** The executed instructions without the RET that ends them. */
  function Body(code: seq<Decoded>): seq<Inst> {
    var steps := Executed(code, IsRet);
    if steps == [] then [] else steps[..|steps| - 1]
  }

  /** No narrow load into a whole register. */
  predicate LoadsWords(code: seq<Inst>) { forall i | i in code :: !Narrow(i) }

  // ----- The loads of a matched term -----

  /** A term that matches a shape has a load of the thread pointer, in shape 0 below a load of a pointer,
      and no others. */
  lemma ShapeWidths(e: Expr, n: nat, caps: Captures, sort: Sorter) returns (width: nat -> nat)
    requires n < 3 && Permutes(sort) && Match(e, Shape(n), caps, sort).ok
    ensures WidthsAre(e, width) && (NoNarrow(e) <==> width(FS) >= 8 && (n == 0 ==> width(0) >= 8))
    ensures Wide(e) ==> NoNarrow(e)
  {
    hide Match, Shape, NoLoads;
    ShapesAreClosed(n);
    ScaledNoLoads();
    var o, index := ImmediateCapture(OFFSET), Op(OpAdd, [Key(), ImmediateCapture(MULTIPLIER2)]);
    if n == 0 {
      var inner := Op(OpAdd, [ThreadWord(0), o]);
      HasLoad(0, inner);
      var x, before := OneLoadedMatch(e, [MemRef(0, inner, 8), ScaledClosed(Key())], 0, caps, sort);
      LoadMatched(x, 0, inner, 8, before, sort);
      var thread := ThreadWidths(x.at, [ThreadWord(0), o], 0, before, sort);
      width := s => if s == FS then thread else x.sizeBytes;
      ThreadOnly(x.at, thread, width);
      assert WidthsAre(x, width);
      OneLoadedWidths(e, x, width);
    } else {
      var ps := [ThreadWord(0x10), ScaledClosed(if n == 1 then Key() else index), o];
      var thread := ThreadWidths(e, ps, 0x10, caps, sort);
      width := s => thread;
      ThreadOnly(e, thread, width);
    }
  }

  /** The only load is one of the thread segment, of this width and below no extension. */
  ghost predicate ReadsThread(e: Expr, thread: nat) {
    && (forall width: nat -> nat | width(FS) == thread :: WidthsAre(e, width))
    && (NoNarrow(e) <==> thread >= 8) && (Wide(e) ==> thread == 8)
  }

  lemma ThreadOnly(e: Expr, thread: nat, width: nat -> nat)
    requires ReadsThread(e, thread) && width(FS) == thread
    ensures WidthsAre(e, width) && (NoNarrow(e) <==> thread >= 8) && (Wide(e) ==> thread == 8)
  {}

  /** What matches a sum that starts with a word of the thread segment. */
  lemma ThreadWidths(e: Expr, ps: seq<Expr>, at: Word, caps: Captures, sort: Sorter) returns (thread: nat)
    requires Permutes(sort) && ps != [] && ps[0] == ThreadWord(at) && forall k | 1 <= k < |ps| :: NoLoads(ps[k])
    requires Match(e, Op(OpAdd, ps), caps, sort).ok
    ensures e.Op? && ReadsThread(e, thread)
  {
    hide Match, NoLoads;
    HasLoad(FS, Immediate(at));
    var x, before := OneLoadedMatch(e, ps, 0, caps, sort);
    LoadMatched(x, FS, Immediate(at), 8, before, sort);
    NoLoadsMatched(x.at, Immediate(at), before, sort) by { PlainNoLoads(at); }
    thread := x.sizeBytes;
    NoLoadsWidths(x.at, _ => thread);
    OneLoadedWidths(e, x, _ => thread);
    forall width: nat -> nat | width(FS) == thread ensures WidthsAre(e, width) {
      NoLoadsWidths(x.at, width);
      OneLoadedWidths(e, x, width);
    }
  }

  lemma HasLoad(segment: nat, at: Expr)
    ensures !NoLoads(MemRef(segment, at, 8))
  {}

  lemma PlainNoLoads(at: Word)
    ensures NoLoads(Immediate(at))
  {}

  lemma ScaledNoLoads()
    ensures NoLoads(ScaledClosed(Key())) && NoLoads(ScaledClosed(Op(OpAdd, [Key(), ImmediateCapture(MULTIPLIER2)])))
    ensures NoLoads(ImmediateCapture(OFFSET))
  {
    assert NoLoads(Op(OpAdd, [Key(), ImmediateCapture(MULTIPLIER2)]));
  }

  /** The value of a matched term, for whatever widths its loads have. */
  lemma MatchedValue(e: Expr, n: nat, caps: Captures, sort: Sorter, width: nat -> nat, m: Machine)
    requires n < 3 && Permutes(sort) && Match(e, Shape(n), caps, sort).ok && WidthsAre(e, width)
    ensures Eval(e, EnvOf(m)) ==
            ShapeAddress(n, Match(e, Shape(n), caps, sort).caps, Blind(m, width).load, m.regs[RDI])
  {
    hide Eval, Shape, WidthsAre, ShapeAddress, WithCaptures, EnvOf;
    var env, later := Blind(m, width), Match(e, Shape(n), caps, sort).caps;
    EvalBlind(e, m, width);
    ShapesAreLinear(n);
    MatchFrame(e, Shape(n), caps, sort);
    BlindIsBlind(m, width);
    MatchSound(e, Shape(n), caps, sort, env, later);
    ShapeValue(n, env, later);
    KeyValue(m);
    BlindNames(m, width);
  }

  lemma BlindNames(m: Machine, width: nat -> nat)
    ensures Blind(m, width).named == EnvOf(m).named
  {}

  /** Loads of 8 bytes and more are the layout's loads. */
  lemma WideAddress(n: nat, caps: Captures, m: Machine, width: nat -> nat, rdi: Word)
    requires width(FS) >= 8 && (n == 0 ==> width(0) >= 8)
    ensures ShapeAddress(n, caps, Blind(m, width).load, rdi) == ShapeAddress(n, caps, Loads(m.mem), rdi)
  {
    hide Load, Plus, Times, LowBits;
    LongLoad(m.mem, FS, 0, width(FS));
    LongLoad(m.mem, FS, 0x10, width(FS));
    if n == 0 { LongLoad(m.mem, 0, Plus(Load(m.mem, FS, 0, 8), Cell(caps, OFFSET)), width(0)); }
  }

  /** The layout extracted from code names the address that RAX is loaded from. */
  ghost predicate NamesSlot(code: seq<Decoded>, sort: Sorter, m: Machine)
    requires Permutes(sort) && Extract(code, sort).Extracted? && FinalRax(code).MemRef?
  {
    Eval(FinalRax(code).at, EnvOf(m)) == TsdAddress(Extract(code, sort).info, m.mem, LowBits(m.regs[RDI], 32))
  }

  /** The captured constants of the shape that matched fit. */
  predicate ConstantsFit(code: seq<Decoded>, sort: Sorter)
    requires Permutes(sort)
  {
    var res := FinalRax(code);
    var n := ShapeFound(res, sort);
    Fits(n, Attempt(res, n, sort).caps)
  }

  /** For every machine state, code of followed instructions up to its RET leaves in RAX what is at one
      address. When a layout is extracted, its constants fit and no load in the address is narrow, the
      layout names that address exactly when the truncation of key + multiplier2 to 32 bits drops
      nothing the multiplier can see. */
  lemma ExtractionSound(m: Machine, code: seq<Decoded>, sort: Sorter)
    requires Permutes(sort) && AllFollowed(Body(code)) && Extract(code, sort).Extracted? && ConstantsFit(code, sort)
    ensures var res := FinalRax(code);
            var n := ShapeFound(res, sort);
            var caps := Attempt(res, n, sort).caps;
            && res.MemRef? && AllHandled(Body(code))
            && RetireAll(m, Body(code)).regs[RAX] == Load(m.mem, 0, Eval(res.at, EnvOf(m)), res.sizeBytes)
            && (NoNarrow(res.at) ==>
                  (NamesSlot(code, sort, m) <==>
                   (n == 2 ==> Times(Dropped(caps, m.regs[RDI]), Cell(caps, MULTIPLIER)) == 0)))
  {
    hide Load, Eval, Times, LowBits, Dropped, TsdAddress, Shape, Run, Fits, InfoOf, Follows, Followed, ShapeAddress,
         NoNarrow;
    var ret := RunsToRet(code);
    var env, body := EnvOf(m), Body(code);
    RaxBeforeRet(body, ret);
    var res := Run(Start(), body).regs[RAX];
    InitialState(m, Key());
    RunSound(Start(), m, env, body);
    RaxFollows(Run(Start(), body).regs, RetireAll(m, body), env);
    var n := ShapeFound(res, sort);
    UnderPattern(res, n, sort);
    LoadValue(res, m);
    var caps, before := Attempt(res, n, sort).caps, CapsBefore(res, n, sort);
    var width := ShapeWidths(res.at, n, before, sort);
    MatchedValue(res.at, n, before, sort, width, m);
    LayoutAddress(n, caps, m.mem, m.regs[RDI]);
    if NoNarrow(res.at) { WideAddress(n, caps, m, width, m.regs[RDI]); }
  }

  /** A match of the whole pattern is one of the address below its load. */
  lemma UnderPattern(res: Expr, n: nat, sort: Sorter)
    requires Permutes(sort) && Attempt(res, n, sort).ok
    ensures res.MemRef? && res.segment == 0
    ensures Attempt(res, n, sort) == Match(res.at, Shape(n), CapsBefore(res, n, sort), sort)
  {
    hide Shape, CapsBefore;
  }

  lemma LoadValue(res: Expr, m: Machine)
    requires res.MemRef?
    ensures Eval(res, EnvOf(m)) == Load(m.mem, res.segment, Eval(res.at, EnvOf(m)), res.sizeBytes)
  {
    hide Load;
  }

  /** Code without narrow loads into whole registers has none in the address. */
  lemma WordsSuffice(code: seq<Decoded>, sort: Sorter)
    requires Permutes(sort) && AllHandled(Body(code)) && LoadsWords(Body(code)) && Extract(code, sort).Extracted?
    ensures FinalRax(code).MemRef? && NoNarrow(FinalRax(code).at)
  {
    hide Shape, Wide, Run, InfoOf, RegsWide, Handled, Narrow, NoNarrow, SameWidths, CapsBefore;
    var ret := RunsToRet(code);
    var body := Body(code);
    RaxBeforeRet(body, ret);
    var res := Run(Start(), body).regs[RAX];
    var n := ShapeFound(res, sort);
    UnderPattern(res, n, sort);
    var before := CapsBefore(res, n, sort);
    StartWide();
    RunWide(Start(), body);
    RaxWide(Run(Start(), body).regs);
    WideBelow(res);
    var width := ShapeWidths(res.at, n, before, sort);
  }

  lemma RaxBeforeRet(body: seq<Inst>, ret: Inst)
    requires ret.op.RET?
    ensures Run(Start(), body + [ret]).regs[RAX] == Run(Start(), body).regs[RAX]
  {
    hide Step;
    assert (body + [ret])[..|body|] == body;
    RetKeepsRax(Run(Start(), body), ret);
  }

  lemma RaxFollows(regs: Regs, m: Machine, env: Env)
    requires Follows(regs, m, env)
    ensures Eval(regs[RAX], env) == m.regs[RAX]
  {}

  lemma RaxWide(regs: Regs)
    requires RegsWide(regs)
    ensures Wide(regs[RAX])
  {}

  lemma WideBelow(res: Expr)
    requires res.MemRef? && Wide(res)
    ensures Wide(res.at)
  {}
}
