/** Kernel and BPF symbol tables: copy-on-write revisions named by a generation. */
module Kallsyms {
  import opened Words
  import opened Options

  type Size = x: int | 0 <= x < 0x1_0000_0000

  datatype Symbol = Symbol(name: string, address: Word, size: Size)
  {
    predicate Covers(a: Word) { address <= a < address + size }
  }

  // ----- Revisions -----

  /** An immutable revision of a symbol table. */
  datatype Table<+T> = Table(content: T, generation: Word)

  const MODULE_GENERATION: Word := 0
  const BPF_GENERATION: Word := 1

  function Next(g: Word): Word { Wrap(g + 2) }

  /** The generation of a table that may not have been loaded yet. */
  function GenerationOf<T>(t: Option<Table<T>>, base: Word): Word {
    if t.None? then base else t.value.generation
  }

  ghost predicate Revises<T(!new)>(t: Option<Table<T>>, u: Option<Table<T>>, base: Word) {
    u == t || (u.Some? && u.value.generation == Next(GenerationOf(t, base)))
  }

  /** What the table has been, from before the first load on. */
  ghost predicate IsHistory<T(!new)>(h: seq<Option<Table<T>>>, base: Word) {
    |h| > 0 && h[0] == None && forall k | 0 < k < |h| :: Revises(h[k - 1], h[k], base)
  }

  ghost function Changes<T(!new)>(h: seq<Option<Table<T>>>, k: nat): (n: nat)
    requires k < |h|
    ensures n <= k
  {
    if k == 0 then 0 else Changes(h, k - 1) + if h[k] == h[k - 1] then 0 else 1
  }

  lemma {:induction false} GenerationCounts<T(!new)>(h: seq<Option<Table<T>>>, base: Word, k: nat)
    requires IsHistory(h, base) && k < |h|
    ensures GenerationOf(h[k], base) == Wrap(base + 2 * Changes(h, k))
    decreases k
  {
    if k > 0 {
      GenerationCounts(h, base, k - 1);
      assert Revises(h[k - 1], h[k], base);
      NextWraps(base + 2 * Changes(h, k - 1));
    }
  }

  lemma NextWraps(x: int)
    ensures Next(Wrap(x)) == Wrap(x + 2)
  {}

  lemma {:induction false} ChangesBetween<T(!new)>(h: seq<Option<Table<T>>>, i: nat, j: nat)
    requires i <= j < |h|
    ensures 0 <= Changes(h, j) - Changes(h, i) <= j - i
    ensures Changes(h, j) == Changes(h, i) ==> h[j] == h[i]
    decreases j - i
  {
    if i < j { ChangesBetween(h, i, j - 1); }
  }

  lemma WrapDistinct(base: Word, c: nat, d: nat)
    requires c <= d
    ensures Wrap(base + 2 * c) == Wrap(base + 2 * d) <==> (d - c) % 0x8000_0000_0000_0000 == 0
    ensures Wrap(base + 2 * c) % 2 == base % 2
  {}

  lemma WrapNear(base: Word, c: nat, d: nat)
    requires c <= d
    ensures d - c < 0x8000_0000_0000_0000 ==> (Wrap(base + 2 * c) == Wrap(base + 2 * d) <==> c == d)
    ensures base + 2 * d < 0x1_0000_0000_0000_0000 ==>
            Wrap(base + 2 * c) == base + 2 * c && Wrap(base + 2 * d) == base + 2 * d
  {}

  /** Generations keep their parity, and those of two moments are equal exactly when the number of
      changes between them is a multiple of 2^63: within any 2^63 changes a generation names one
      revision. */
  lemma GenerationNames<T(!new)>(h: seq<Option<Table<T>>>, base: Word, i: nat, j: nat)
    requires IsHistory(h, base) && i <= j < |h|
    ensures GenerationOf(h[i], base) % 2 == base % 2
    ensures GenerationOf(h[i], base) == GenerationOf(h[j], base) <==>
            (Changes(h, j) - Changes(h, i)) % 0x8000_0000_0000_0000 == 0
  {
    hide Wrap, IsHistory, Changes, GenerationOf;
    GenerationCounts(h, base, i);
    GenerationCounts(h, base, j);
    ChangesBetween(h, i, j);
    WrapDistinct(base, Changes(h, i), Changes(h, j));
  }

  lemma GenerationsIncrease<T(!new)>(h: seq<Option<Table<T>>>, base: Word, i: nat, j: nat)
    requires IsHistory(h, base) && i <= j < |h|
    ensures j - i < 0x8000_0000_0000_0000 ==>
              (GenerationOf(h[i], base) == GenerationOf(h[j], base) <==> h[i] == h[j])
    ensures base + 2 * Changes(h, j) < 0x1_0000_0000_0000_0000 && h[i] != h[j] ==>
              GenerationOf(h[i], base) < GenerationOf(h[j], base)
  {
    hide Wrap, IsHistory, Changes, GenerationOf;
    GenerationCounts(h, base, i);
    GenerationCounts(h, base, j);
    ChangesBetween(h, i, j);
    WrapNear(base, Changes(h, i), Changes(h, j));
  }

  // ----- BPF symbols -----

  ghost predicate Sorted(ss: seq<Symbol>) {
    forall i, j | 0 <= i < j < |ss| :: ss[i].address <= ss[j].address
  }

  /** The first position whose address is not below a. */
  function Position(ss: seq<Symbol>, a: Word): (p: nat)
    ensures p <= |ss| && (forall i | 0 <= i < p :: ss[i].address < a) && (p < |ss| ==> ss[p].address >= a)
  {
    if ss == [] || ss[0].address >= a then 0 else 1 + Position(ss[1..], a)
  }

  predicate Present(ss: seq<Symbol>, a: Word) {
    Position(ss, a) < |ss| && ss[Position(ss, a)].address == a
  }

  function Added(ss: seq<Symbol>, s: Symbol): seq<Symbol> {
    ss[..Position(ss, s.address)] + [s] + ss[Position(ss, s.address)..]
  }

  function Removed(ss: seq<Symbol>, a: Word): seq<Symbol> {
    if Present(ss, a) then ss[..Position(ss, a)] + ss[Position(ss, a) + 1..] else ss
  }

  function Within(s: Symbol, a: Word): Option<(string, Word)>
    requires s.address <= a
  {
    if a >= Wrap(s.address + s.size) then None else Some((s.name, a - s.address))
  }

  function Lookup(ss: seq<Symbol>, a: Word): Option<(string, Word)> {
    var p := Position(ss, a);
    if Present(ss, a) then Within(ss[p], a)
    else if p == 0 then None
    else Within(ss[p - 1], a)
  }

  /** The same answer from looking at every symbol. */
  function Scan(ss: seq<Symbol>, a: Word): (r: Option<(string, Word)>)
    ensures r.Some? <==> exists s :: s in ss && s.Covers(a)
    ensures r.Some? ==> exists s :: s in ss && s.Covers(a) && r.value == (s.name, a - s.address)
  {
    if ss == [] then None
    else if ss[0].Covers(a) then Some((ss[0].name, a - ss[0].address))
    else Scan(ss[1..], a)
  }

  lemma AddedSorted(ss: seq<Symbol>, s: Symbol)
    requires Sorted(ss)
    ensures Sorted(Added(ss, s)) && multiset(Added(ss, s)) == multiset(ss) + multiset{s}
  {
    var p := Position(ss, s.address);
    assert ss == ss[..p] + ss[p..];
    forall i | p <= i < |ss| ensures ss[i].address >= s.address {
      assert p < i ==> ss[p].address <= ss[i].address;
    }
  }

  lemma RemovedSorted(ss: seq<Symbol>, a: Word)
    requires Sorted(ss)
    ensures Sorted(Removed(ss, a))
    ensures Present(ss, a) ==> multiset(ss) == multiset(Removed(ss, a)) + multiset{ss[Position(ss, a)]}
  {
    hide Sorted, Position;
    if Present(ss, a) {
      DroppedSorted(ss, Position(ss, a));
      DroppedBag(ss, Position(ss, a));
    }
  }

  lemma DroppedSorted(ss: seq<Symbol>, p: nat)
    requires Sorted(ss) && p < |ss|
    ensures Sorted(ss[..p] + ss[p + 1..])
  {
    var r := ss[..p] + ss[p + 1..];
    forall i | 0 <= i < |r| ensures r[i] == ss[if i < p then i else i + 1] {}
  }

  lemma DroppedBag(ss: seq<Symbol>, p: nat)
    requires p < |ss|
    ensures multiset(ss) == multiset(ss[..p] + ss[p + 1..]) + multiset{ss[p]}
  {
    assert ss == ss[..p] + [ss[p]] + ss[p + 1..];
  }

  /** A removal undoes the addition before it. */
  lemma AddThenRemove(ss: seq<Symbol>, s: Symbol)
    ensures Removed(Added(ss, s), s.address) == ss
  {
    var p, r := Position(ss, s.address), Added(ss, s);
    PositionIs(r, s.address, p);
    assert r[..p] == ss[..p] && r[p + 1..] == ss[p..];
  }

  lemma PositionIs(ss: seq<Symbol>, a: Word, p: nat)
    requires p <= |ss| && (forall i | 0 <= i < p :: ss[i].address < a) && (p < |ss| ==> ss[p].address >= a)
    ensures Position(ss, a) == p
  {
    var q := Position(ss, a);
  }

  // ----- Lookup against the scan -----

  ghost predicate NonOverlapping(ss: seq<Symbol>) {
    forall i | 0 <= i < |ss| - 1 :: ss[i].address + ss[i].size <= ss[i + 1].address
  }

  /** No symbol reaches the top of the address space, and no empty symbol stands before another
      symbol of the same address. */
  ghost predicate Clean(ss: seq<Symbol>) {
    && (forall i | 0 <= i < |ss| && ss[i].size > 0 :: ss[i].address + ss[i].size < 0x1_0000_0000_0000_0000)
    && (forall i | 0 <= i < |ss| - 1 && ss[i].size == 0 && ss[i + 1].size > 0 :: ss[i].address != ss[i + 1].address)
  }

  lemma {:induction false} FarApart(ss: seq<Symbol>, i: nat, j: nat)
    requires NonOverlapping(ss) && i < j < |ss|
    ensures ss[i].address + ss[i].size <= ss[j].address
    decreases j - i
  {
    if i + 1 < j { FarApart(ss, i, j - 1); }
  }

  lemma OneCovers(ss: seq<Symbol>, i: nat, j: nat, a: Word)
    requires NonOverlapping(ss) && i < |ss| && j < |ss| && ss[i].Covers(a) && ss[j].Covers(a)
    ensures i == j
  {
    if i < j { FarApart(ss, i, j); } else if j < i { FarApart(ss, j, i); }
  }

  lemma ScanIs(ss: seq<Symbol>, k: nat, a: Word)
    requires NonOverlapping(ss) && k < |ss| && ss[k].Covers(a)
    ensures Scan(ss, a) == Some((ss[k].name, a - ss[k].address))
  {
    hide NonOverlapping;
    var s :| s in ss && s.Covers(a) && Scan(ss, a) == Some((s.name, a - s.address));
    var j :| 0 <= j < |ss| && ss[j] == s;
    OneCovers(ss, j, k, a);
  }

  /** The binary search lands on the covering symbol, or on an empty one at its address. */
  lemma LandsOn(ss: seq<Symbol>, k: nat, a: Word)
    requires NonOverlapping(ss) && k < |ss| && ss[k].Covers(a)
    ensures var p := Position(ss, a);
            if ss[k].address < a then p == k + 1 && !Present(ss, a)
            else p <= k && Present(ss, a) &&
                 (p < k ==> ss[p].size == 0 && ss[k - 1].size == 0 && ss[k - 1].address == a)
  {
    var p := Position(ss, a);
    if p < |ss| && k < p { FarApart(ss, k, p); }
    if k + 1 < |ss| { FarApart(ss, k, k + 1); }
    forall i | 0 <= i < k ensures ss[i].address <= ss[k].address { FarApart(ss, i, k); }
    if ss[k].address < a {
      PositionIs(ss, a, k + 1);
    } else if p < k {
      FarApart(ss, p, k);
      FarApart(ss, k - 1, k);
      if p < k - 1 { FarApart(ss, p, k - 1); }
    }
  }

  lemma CoveredFound(ss: seq<Symbol>, k: nat, a: Word)
    requires NonOverlapping(ss) && Clean(ss) && k < |ss| && ss[k].Covers(a)
    ensures Lookup(ss, a) == Scan(ss, a)
  {
    hide Scan, Position, NonOverlapping, Wrap;
    LandsOn(ss, k, a);
    ScanIs(ss, k, a);
    FitsWrap(ss[k].address + ss[k].size);
  }

  lemma FitsWrap(x: int)
    ensures 0 <= x < 0x1_0000_0000_0000_0000 ==> Wrap(x) == x
  {}

  lemma UncoveredMissed(ss: seq<Symbol>, a: Word)
    requires Clean(ss) && forall s | s in ss :: !s.Covers(a)
    ensures Lookup(ss, a) == None == Scan(ss, a)
  {
    hide Position, Scan;
    var p := Position(ss, a);
    if p < |ss| { FitsWrap(ss[p].address + ss[p].size); assert ss[p] in ss; }
    if p > 0 { FitsWrap(ss[p - 1].address + ss[p - 1].size); assert ss[p - 1] in ss; }
  }

  lemma TopMisses(ss: seq<Symbol>, k: nat)
    requires NonOverlapping(ss) && k < |ss| && ss[k].size > 0
    requires ss[k].address + ss[k].size >= 0x1_0000_0000_0000_0000
    ensures Lookup(ss, ss[k].address) == None && Scan(ss, ss[k].address).Some?
  {
    hide Position, Scan, NonOverlapping, Wrap;
    var a := ss[k].address;
    assert ss[k] in ss && ss[k].Covers(a);
    LandsOn(ss, k, a);
    Overflows(a, ss[k].size);
    FitsWrap(a);
  }

  lemma HiddenMisses(ss: seq<Symbol>, i: nat)
    requires NonOverlapping(ss) && i + 1 < |ss|
    requires ss[i].size == 0 && ss[i + 1].size > 0 && ss[i].address == ss[i + 1].address
    ensures Lookup(ss, ss[i].address) == None && Scan(ss, ss[i].address).Some?
  {
    hide Position, Scan, NonOverlapping, Wrap;
    var a := ss[i].address;
    assert ss[i + 1] in ss && ss[i + 1].Covers(a);
    LandsOn(ss, i + 1, a);
    FitsWrap(a);
    assert Position(ss, a) <= i;
  }

  lemma UncleanMisses(ss: seq<Symbol>) returns (a: Word)
    requires NonOverlapping(ss) && !Clean(ss)
    ensures Lookup(ss, a) == None && Scan(ss, a).Some?
  {
    hide Lookup, Scan, NonOverlapping;
    if k :| 0 <= k < |ss| && ss[k].size > 0 && ss[k].address + ss[k].size >= 0x1_0000_0000_0000_0000 {
      a := ss[k].address;
      TopMisses(ss, k);
    } else {
      var i :| 0 <= i < |ss| - 1 && ss[i].size == 0 && ss[i + 1].size > 0 && ss[i].address == ss[i + 1].address;
      a := ss[i].address;
      HiddenMisses(ss, i);
    }
  }

  lemma Overflows(x: Word, n: Size)
    requires n > 0 && x + n >= 0x1_0000_0000_0000_0000
    ensures Wrap(x + n) <= x
  {}

  /** With ranges that do not overlap, lookup finds what a scan finds for every address exactly when
      no symbol reaches the top of the address space and none hides behind an empty one. */
  lemma LookupIsScan(ss: seq<Symbol>)
    requires NonOverlapping(ss)
    ensures (forall a: Word :: Lookup(ss, a) == Scan(ss, a)) <==> Clean(ss)
  {
    hide Lookup, Scan;
    if Clean(ss) {
      forall a: Word ensures Lookup(ss, a) == Scan(ss, a) {
        if k :| 0 <= k < |ss| && ss[k].Covers(a) { CoveredFound(ss, k, a); } else { UncoveredMissed(ss, a); }
      }
    } else {
      var a := UncleanMisses(ss);
      assert Lookup(ss, a) != Scan(ss, a);
    }
  }
}
