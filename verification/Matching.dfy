/** Pattern matching up to operand order, as in asm/expression's Match methods. */
module Matching {
  import opened Words
  import opened Expressions
  import opened ExpressionLaws

  type Captures = map<nat, Word>

  /** Whether the match succeeded, and the capture cells it leaves behind either way. */
  datatype Matched = Matched(ok: bool, caps: Captures)

  /** Any reordering of operands; the library sort is one, whatever it does with ties. */
  type Sorter = seq<Expr> -> seq<Expr>

  ghost predicate Permutes(sort: Sorter) {
    forall os :: multiset(sort(os)) == multiset(os)
  }

  function Match(e: Expr, p: Expr, caps: Captures, sort: Sorter): Matched
    requires Permutes(sort)
    decreases Size(e), 0
  {
    match e
    case Immediate(v) =>
      if p.ImmediateCapture? then Matched(true, caps[p.id := v]) else Matched(p == e, caps)
    case Named(_) => Matched(p == e, caps)
    case ImmediateCapture(_) => Matched(false, caps)
    case MemRef(segment, at, _) =>
      if p.MemRef? && p.segment == segment then Match(at, p.at, caps, sort) else Matched(false, caps)
    case Op(typ, os) =>
      if p.Op? && p.typ == typ && |p.operands| == |os| then
        SameLength(sort(os), os);
        SameLength(sort(p.operands), p.operands);
        PermutedSize(sort(os), os);
        MatchAll(sort(os), sort(p.operands), caps, sort)
      else Matched(false, caps)
    case Extended(v, bits, sign) =>
      if p.Extended? && p.bits == bits && p.sign == sign then Match(v, p.v, caps, sort) else Matched(false, caps)
    case Cleared(v, bits) =>
      if p.Cleared? && p.bits == bits then Match(v, p.v, caps, sort) else Matched(false, caps)
  }

  /** Position by position, stopping at the first failure. */
  function MatchAll(os: seq<Expr>, ps: seq<Expr>, caps: Captures, sort: Sorter): Matched
    requires |os| == |ps| && Permutes(sort)
    decreases TotalSize(os), 1
  {
    if os == [] then Matched(true, caps) else
    var m := MatchAll(os[..|os| - 1], ps[..|ps| - 1], caps, sort);
    if m.ok then Match(os[|os| - 1], ps[|ps| - 1], m.caps, sort) else m
  }

  // ----- Permutations -----

  lemma SameLength(a: seq<Expr>, b: seq<Expr>)
    requires multiset(a) == multiset(b)
    ensures |a| == |b|
  {
    assert |a| == |multiset(a)| && |b| == |multiset(b)|;
  }

  /** Where the last element of a sits in its permutation b, and what is left without it. */
  lemma PermutationSplit(a: seq<Expr>, b: seq<Expr>) returns (i: nat)
    requires multiset(a) == multiset(b) && a != []
    ensures i < |b| && b[i] == a[|a| - 1]
    ensures b == b[..i] + [b[i]] + b[i + 1..]
    ensures multiset(a[..|a| - 1]) == multiset(b[..i] + b[i + 1..])
  {
    var last := a[|a| - 1];
    assert last in multiset(b);
    i :| 0 <= i < |b| && b[i] == last;
    assert b == b[..i] + [b[i]] + b[i + 1..];
    assert a == a[..|a| - 1] + [last];
    assert multiset(a) == multiset(a[..|a| - 1]) + multiset{last};
    assert multiset(b) == multiset(b[..i]) + multiset{last} + multiset(b[i + 1..]);
    assert multiset(a[..|a| - 1]) == multiset(a) - multiset{last};
  }

  lemma {:induction false} PermutedSize(a: seq<Expr>, b: seq<Expr>)
    requires multiset(a) == multiset(b)
    ensures TotalSize(a) == TotalSize(b)
    decreases |a|
  {
    if a == [] {
      assert b == [] by { SameLength(a, b); }
    } else {
      var i := PermutationSplit(a, b);
      PermutedSize(a[..|a| - 1], b[..i] + b[i + 1..]);
      TotalSizeConcat(b[..i], b[i + 1..]);
      TotalSizeConcat(b[..i] + [b[i]], b[i + 1..]);
      TotalSizeConcat(b[..i], [b[i]]);
      SmallSizes(b[i], b[i]);
    }
  }

  lemma {:induction false} PermutedSum(a: seq<Expr>, b: seq<Expr>, env: Env)
    requires multiset(a) == multiset(b)
    ensures EvalSum(a, env) == EvalSum(b, env)
    decreases |a|
  {
    hide Plus, Times, EvalProduct;
    if a == [] {
      assert b == [] by { SameLength(a, b); }
    } else {
      var i := PermutationSplit(a, b);
      var l, r := b[..i], b[i + 1..];
      PermutedSum(a[..|a| - 1], l + r, env);
      EvalSumConcat(l, r, env);
      EvalSumConcat(l + [b[i]], r, env);
      EvalSumAppend(l, b[i], env);
      PlusAssociates(EvalSum(l, env), Eval(b[i], env), EvalSum(r, env));
    }
  }

  lemma {:induction false} EvalProductConcat(a: seq<Expr>, b: seq<Expr>, env: Env)
    ensures EvalProduct(a + b, env) == Times(EvalProduct(a, env), EvalProduct(b, env))
    decreases |b|
  {
    hide Plus, Times, EvalSum;
    if b == [] {
      assert a + b == a;
      TimesOne(EvalProduct(a, env));
    } else {
      var init, last := b[..|b| - 1], b[|b| - 1];
      EvalProductConcat(a, init, env);
      assert a + b == (a + init) + [last];
      EvalProductAppend(a + init, last, env);
      TimesAssociates(EvalProduct(a, env), EvalProduct(init, env), Eval(last, env));
    }
  }

  lemma {:induction false} PermutedProduct(a: seq<Expr>, b: seq<Expr>, env: Env)
    requires multiset(a) == multiset(b)
    ensures EvalProduct(a, env) == EvalProduct(b, env)
    decreases |a|
  {
    hide Plus, Times, EvalSum;
    if a == [] {
      assert b == [] by { SameLength(a, b); }
    } else {
      var i := PermutationSplit(a, b);
      var l, r := b[..i], b[i + 1..];
      PermutedProduct(a[..|a| - 1], l + r, env);
      EvalProductConcat(l, r, env);
      EvalProductConcat(l + [b[i]], r, env);
      EvalProductAppend(l, b[i], env);
      TimesAssociates(EvalProduct(l, env), Eval(b[i], env), EvalProduct(r, env));
    }
  }

  // ----- Captures of a pattern -----

  function Bag(p: Expr): multiset<nat>
    decreases p, 0
  {
    match p
    case ImmediateCapture(id) => multiset{id}
    case MemRef(_, at, _) => Bag(at)
    case Op(_, os) => BagAll(os)
    case Extended(v, _, _) => Bag(v)
    case Cleared(v, _) => Bag(v)
    case _ => multiset{}
  }

  function BagAll(ps: seq<Expr>): multiset<nat>
    decreases ps, 1
  {
    if ps == [] then multiset{} else BagAll(ps[..|ps| - 1]) + Bag(ps[|ps| - 1])
  }

  /** Each capture occurs once. */
  ghost predicate Linear(bag: multiset<nat>) {
    forall id :: bag[id] <= 1
  }

  lemma {:induction false} BagConcat(a: seq<Expr>, b: seq<Expr>)
    ensures BagAll(a + b) == BagAll(a) + BagAll(b)
    decreases |b|
  {
    hide Bag;
    if b == [] {
      assert a + b == a;
    } else {
      BagConcat(a, b[..|b| - 1]);
      assert (a + b)[..|a + b| - 1] == a + b[..|b| - 1];
    }
  }

  lemma {:induction false} PermutedBag(a: seq<Expr>, b: seq<Expr>)
    requires multiset(a) == multiset(b)
    ensures BagAll(a) == BagAll(b)
    decreases |a|
  {
    if a == [] {
      assert b == [] by { SameLength(a, b); }
    } else {
      var i := PermutationSplit(a, b);
      PermutedBag(a[..|a| - 1], b[..i] + b[i + 1..]);
      BagConcat(b[..i], b[i + 1..]);
      BagConcat(b[..i] + [b[i]], b[i + 1..]);
      BagConcat(b[..i], [b[i]]);
      assert [b[i]][..0] == [];
    }
  }

  predicate SameCell(id: nat, a: Captures, b: Captures) {
    (id in a <==> id in b) && (id in a ==> a[id] == b[id])
  }

  /** m changes only cells of bag and, when it succeeds, has set every one of them. */
  ghost predicate Framed(bag: multiset<nat>, caps: Captures, m: Matched) {
    (forall id | id !in bag :: SameCell(id, caps, m.caps)) && (m.ok ==> forall id | id in bag :: id in m.caps)
  }

  lemma Untouched(bag: multiset<nat>, caps: Captures, ok: bool)
    requires ok ==> bag == multiset{}
    ensures Framed(bag, caps, Matched(ok, caps))
  {}

  lemma CellSet(id: nat, v: Word, caps: Captures)
    ensures Framed(multiset{id}, caps, Matched(true, caps[id := v]))
  {}

  /** Matching writes only the pattern's own captures, and on success every one of them. */
  lemma {:induction false} MatchFrame(e: Expr, p: Expr, caps: Captures, sort: Sorter)
    requires Permutes(sort)
    ensures Framed(Bag(p), caps, Match(e, p, caps, sort))
    decreases Size(e), 0
  {
    hide Framed, BagAll;
    Untouched(Bag(p), caps, false);
    match e
    case Immediate(v) =>
      if p.ImmediateCapture? { CellSet(p.id, v, caps); } else if p == e { Untouched(Bag(p), caps, true); }
    case Named(_) => if p == e { Untouched(Bag(p), caps, true); }
    case MemRef(_, at, _) => if p.MemRef? { MatchFrame(at, p.at, caps, sort); }
    case Op(typ, os) =>
      if p.Op? && p.typ == typ && |p.operands| == |os| {
        SameLength(sort(os), os);
        SameLength(sort(p.operands), p.operands);
        PermutedSize(sort(os), os);
        PermutedBag(sort(p.operands), p.operands);
        MatchAllFrame(sort(os), sort(p.operands), caps, sort);
      }
    case Extended(v, _, _) => if p.Extended? { MatchFrame(v, p.v, caps, sort); }
    case Cleared(v, _) => if p.Cleared? { MatchFrame(v, p.v, caps, sort); }
    case ImmediateCapture(_) =>
  }

  lemma {:induction false} MatchAllFrame(os: seq<Expr>, ps: seq<Expr>, caps: Captures, sort: Sorter)
    requires |os| == |ps| && Permutes(sort)
    ensures Framed(BagAll(ps), caps, MatchAll(os, ps, caps, sort))
    decreases TotalSize(os), 1
  {
    hide Framed, Bag;
    if os == [] {
      Untouched(multiset{}, caps, true);
    } else {
      var m := MatchAll(os[..|os| - 1], ps[..|ps| - 1], caps, sort);
      FailedGrows(BagAll(ps[..|ps| - 1]), Bag(ps[|ps| - 1]), caps, m);
      MatchAllFrame(os[..|os| - 1], ps[..|ps| - 1], caps, sort);
      if m.ok {
        MatchFrame(os[|os| - 1], ps[|ps| - 1], m.caps, sort);
        FramedThen(BagAll(ps[..|ps| - 1]), Bag(ps[|ps| - 1]), caps, m, Match(os[|os| - 1], ps[|ps| - 1], m.caps, sort));
      }
    }
  }

  lemma FailedGrows(a: multiset<nat>, b: multiset<nat>, caps: Captures, m: Matched)
    ensures Framed(a, caps, m) && !m.ok ==> Framed(a + b, caps, m)
  {}

  lemma FramedThen(a: multiset<nat>, b: multiset<nat>, caps: Captures, m: Matched, m2: Matched)
    requires Framed(a, caps, m) && m.ok && Framed(b, m.caps, m2)
    ensures Framed(a + b, caps, m2)
  {
    forall id | id !in a + b ensures SameCell(id, caps, m2.caps) {
      assert SameCell(id, caps, m.caps) && SameCell(id, m.caps, m2.caps);
    }
    forall id | id in a + b && m2.ok ensures id in m2.caps {
      if id !in b { assert SameCell(id, m.caps, m2.caps); }
    }
  }

  // ----- Soundness -----

  function WithCaptures(env: Env, caps: Captures): Env {
    env.(captured := id => if id in caps then caps[id] else 0)
  }

  /** Loads that do not depend on the access width. */
  ghost predicate WidthBlind(env: Env) {
    forall segment, at, m, n :: env.load(segment, at, m) == env.load(segment, at, n)
  }

  /** Every load in the term has the width of the load it is matched with. */
  predicate SameWidths(e: Expr, p: Expr, sort: Sorter)
    requires Permutes(sort)
    decreases Size(e), 0
  {
    match e
    case MemRef(_, at, n) => p.MemRef? ==> n == p.sizeBytes && SameWidths(at, p.at, sort)
    case Op(_, os) =>
      if p.Op? && |p.operands| == |os| then
        SameLength(sort(os), os);
        SameLength(sort(p.operands), p.operands);
        PermutedSize(sort(os), os);
        SameWidthsAll(sort(os), sort(p.operands), sort)
      else true
    case Extended(v, _, _) => p.Extended? ==> SameWidths(v, p.v, sort)
    case Cleared(v, _) => p.Cleared? ==> SameWidths(v, p.v, sort)
    case _ => true
  }

  predicate SameWidthsAll(os: seq<Expr>, ps: seq<Expr>, sort: Sorter)
    requires |os| == |ps| && Permutes(sort)
    decreases TotalSize(os), 1
  {
    os != [] ==> SameWidthsAll(os[..|os| - 1], ps[..|ps| - 1], sort) && SameWidths(os[|os| - 1], ps[|ps| - 1], sort)
  }

  /** The cells of bag hold in `later` what they hold in `caps`. */
  predicate Agrees(bag: multiset<nat>, caps: Captures, later: Captures) {
    forall id | id in bag :: id in caps && id in later && later[id] == caps[id]
  }

  lemma CaptureAgrees(id: nat, v: Word, caps: Captures, later: Captures)
    requires Agrees(multiset{id}, caps[id := v], later)
    ensures id in later && later[id] == v
  {
    assert id in multiset{id};
  }

  lemma {:induction false} MatchSound(e: Expr, p: Expr, caps: Captures, sort: Sorter, env: Env, later: Captures)
    requires Permutes(sort) && (WidthBlind(env) || SameWidths(e, p, sort)) && Linear(Bag(p))
    requires var m := Match(e, p, caps, sort); m.ok && Agrees(Bag(p), m.caps, later)
    ensures Eval(e, env) == Eval(p, WithCaptures(env, later))
    decreases Size(e), 0
  {
    hide Plus, Times, LowBits, SignExtended, Linear, Agrees;
    match e
    case Immediate(v) => if p.ImmediateCapture? { CaptureAgrees(p.id, v, caps, later); }
    case MemRef(_, at, _) => MatchSound(at, p.at, caps, sort, env, later);
    case Op(typ, os) =>
      var ps, env' := p.operands, WithCaptures(env, later);
      SameLength(sort(os), os);
      SameLength(sort(ps), ps);
      PermutedSize(sort(os), os);
      PermutedBag(sort(ps), ps);
      MatchAllSound(sort(os), sort(ps), caps, sort, env, later);
      PermutedSum(sort(os), os, env);
      PermutedSum(sort(ps), ps, env');
      PermutedProduct(sort(os), os, env);
      PermutedProduct(sort(ps), ps, env');
    case Extended(v, _, _) => MatchSound(v, p.v, caps, sort, env, later);
    case Cleared(v, _) => MatchSound(v, p.v, caps, sort, env, later);
    case _ =>
  }

  /** Cells written for a linear list keep their value while its last element is matched. */
  lemma AgreesEarlier(a: multiset<nat>, b: multiset<nat>, caps: Captures, m: Matched, m2: Matched, later: Captures)
    requires Linear(a + b) && m.ok && m2.ok
    requires Framed(a, caps, m) && Framed(b, m.caps, m2) && Agrees(a + b, m2.caps, later)
    ensures Linear(a) && Linear(b) && Agrees(a, m.caps, later) && Agrees(b, m2.caps, later)
  {
    forall id ensures a[id] <= 1 && b[id] <= 1 { assert (a + b)[id] <= 1; }
    forall id | id in a ensures id in m.caps && id in later && later[id] == m.caps[id] {
      assert (a + b)[id] <= 1 && id !in b && id in a + b;
      assert SameCell(id, m.caps, m2.caps);
    }
    forall id | id in b ensures id in m2.caps && id in later && later[id] == m2.caps[id] { assert id in a + b; }
  }

  lemma {:induction false} MatchAllSound(os: seq<Expr>, ps: seq<Expr>, caps: Captures, sort: Sorter, env: Env,
                                         later: Captures)
    requires |os| == |ps| && Permutes(sort) && (WidthBlind(env) || SameWidthsAll(os, ps, sort)) && Linear(BagAll(ps))
    requires var m := MatchAll(os, ps, caps, sort); m.ok && Agrees(BagAll(ps), m.caps, later)
    ensures EvalSum(os, env) == EvalSum(ps, WithCaptures(env, later))
    ensures EvalProduct(os, env) == EvalProduct(ps, WithCaptures(env, later))
    decreases TotalSize(os), 1
  {
    hide Plus, Times, Eval, Linear, Agrees, Framed, Match, Bag, WidthBlind, WithCaptures, SameWidths;
    if os != [] {
      var init, last := ps[..|ps| - 1], ps[|ps| - 1];
      var m := MatchAll(os[..|os| - 1], init, caps, sort);
      var m2 := Match(os[|os| - 1], last, m.caps, sort);
      MatchAllFrame(os[..|os| - 1], init, caps, sort);
      MatchFrame(os[|os| - 1], last, m.caps, sort);
      AgreesEarlier(BagAll(init), Bag(last), caps, m, m2, later);
      MatchAllSound(os[..|os| - 1], init, caps, sort, env, later);
      MatchSound(os[|os| - 1], last, m.caps, sort, env, later);
    }
  }

  // ----- Matching states exactly what the term is -----

  /** The pattern with its captures replaced by the captured constants. */
  function Substitute(p: Expr, caps: Captures): Expr
    decreases p, 0
  {
    match p
    case ImmediateCapture(id) => Immediate(if id in caps then caps[id] else 0)
    case MemRef(segment, at, n) => MemRef(segment, Substitute(at, caps), n)
    case Op(typ, os) => Op(typ, SubstituteAll(os, caps))
    case Extended(v, bits, sign) => Extended(Substitute(v, caps), bits, sign)
    case Cleared(v, bits) => Cleared(Substitute(v, caps), bits)
    case _ => p
  }

  function SubstituteAll(ps: seq<Expr>, caps: Captures): seq<Expr>
    decreases ps, 1
  {
    if ps == [] then [] else SubstituteAll(ps[..|ps| - 1], caps) + [Substitute(ps[|ps| - 1], caps)]
  }

  lemma {:induction false} SubstituteValue(p: Expr, caps: Captures, env: Env)
    ensures Eval(Substitute(p, caps), env) == Eval(p, WithCaptures(env, caps))
    decreases p, 0
  {
    hide Plus, Times, LowBits, SignExtended;
    match p
    case MemRef(_, at, _) => SubstituteValue(at, caps, env);
    case Op(_, os) => SubstituteAllValue(os, caps, env);
    case Extended(v, _, _) => SubstituteValue(v, caps, env);
    case Cleared(v, _) => SubstituteValue(v, caps, env);
    case _ =>
  }

  lemma {:induction false} SubstituteAllValue(ps: seq<Expr>, caps: Captures, env: Env)
    ensures EvalSum(SubstituteAll(ps, caps), env) == EvalSum(ps, WithCaptures(env, caps))
    ensures EvalProduct(SubstituteAll(ps, caps), env) == EvalProduct(ps, WithCaptures(env, caps))
    decreases ps, 1
  {
    hide Plus, Times, LowBits, SignExtended;
    if ps != [] {
      var init, last := ps[..|ps| - 1], ps[|ps| - 1];
      SubstituteAllValue(init, caps, env);
      SubstituteValue(last, caps, env);
      EvalSumAppend(SubstituteAll(init, caps), Substitute(last, caps), env);
      EvalProductAppend(SubstituteAll(init, caps), Substitute(last, caps), env);
    }
  }

  /** A successful match says the term equals the pattern with the captured constants put in,
      in every environment whose loads do not look at the access width. */
  lemma MatchMeansEqual(e: Expr, p: Expr, caps: Captures, sort: Sorter, env: Env)
    requires Permutes(sort) && WidthBlind(env) && Linear(Bag(p))
    requires Match(e, p, caps, sort).ok
    ensures Eval(e, env) == Eval(Substitute(p, Match(e, p, caps, sort).caps), env)
  {
    var later := Match(e, p, caps, sort).caps;
    MatchFrame(e, p, caps, sort);
    MatchSound(e, p, caps, sort, env, later);
    SubstituteValue(p, later, env);
  }

  /** ... and in every environment at all when matched loads have the same width. */
  lemma MatchMeansEqualAtWidths(e: Expr, p: Expr, caps: Captures, sort: Sorter, env: Env)
    requires Permutes(sort) && Linear(Bag(p)) && SameWidths(e, p, sort)
    requires Match(e, p, caps, sort).ok
    ensures Eval(e, env) == Eval(p, WithCaptures(env, Match(e, p, caps, sort).caps))
    ensures Eval(e, env) == Eval(Substitute(p, Match(e, p, caps, sort).caps), env)
  {
    var later := Match(e, p, caps, sort).caps;
    MatchFrame(e, p, caps, sort);
    MatchSound(e, p, caps, sort, env, later);
    SubstituteValue(p, later, env);
  }

  /** Without that condition the match can succeed on terms of different value:
      mem.Match compares segment and address but not the access width. */
  lemma WidthIsIgnored(sort: Sorter) returns (e: Expr, p: Expr, env: Env)
    requires Permutes(sort)
    ensures Match(e, p, map[], sort).ok && Bag(p) == multiset{} && Eval(e, env) != Eval(p, env)
  {
    e, p := MemRef(0, Immediate(0), 4), MemRef(0, Immediate(0), 8);
    env := Env(_ => 0, _ => 0, (_, _, n) => if n == 4 then 1 else 0);
    assert Match(e.at, p.at, map[], sort).ok;
  }
}
