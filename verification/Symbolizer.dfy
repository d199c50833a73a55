/** The symbolizer objects: tables are replaced, never changed, so a snapshot stays what it was. */
module Symbolizer {
  import opened Words
  import opened Options
  import opened Kallsyms

  type BpfTable = Table<seq<Symbol>>

  datatype Op = Load(symbols: seq<Symbol>) | Add(symbol: Symbol) | Remove(address: Word)

  function Symbols(t: Option<BpfTable>): seq<Symbol> { if t.None? then [] else t.value.content }

  predicate Known(ss: seq<Symbol>, s: Symbol) {
    Present(ss, s.address) && ss[Position(ss, s.address)].name == s.name
  }

  /** The table after one kernel event. */
  function Apply(t: Option<BpfTable>, op: Op): Option<BpfTable> {
    var ss, next := Symbols(t), Next(GenerationOf(t, BPF_GENERATION));
    match op
    case Load(symbols) => Some(Table(symbols, next))
    case Add(s) => if Known(ss, s) then t else Some(Table(Added(ss, s), next))
    case Remove(a) => if t.None? || !Present(ss, a) then t else Some(Table(Removed(ss, a), next))
  }

  /** Every table there has been, the missing one first. */
  function History(ops: seq<Op>): (h: seq<Option<BpfTable>>)
    ensures |h| == |ops| + 1
  {
    if ops == [] then [None] else
    var h := History(ops[..|ops| - 1]);
    h + [Apply(h[|h| - 1], ops[|ops| - 1])]
  }

  /** Under every sequence of loads, additions and removals, each revision is sorted and each
      change takes the next generation. */
  lemma {:induction false} HistorySorted(ops: seq<Op>)
    requires forall op | op in ops && op.Load? :: Sorted(op.symbols)
    ensures IsHistory(History(ops), BPF_GENERATION) && forall t | t in History(ops) :: Sorted(Symbols(t))
    decreases |ops|
  {
    hide Sorted, Symbols, Apply, Revises;
    if ops == [] {
      assert Sorted(Symbols(None)) by { EmptySorted(); }
    } else {
      var init, op := ops[..|ops| - 1], ops[|ops| - 1];
      HistorySorted(init);
      var h := History(init);
      assert h[|h| - 1] in h;
      ApplySorted(h[|h| - 1], op);
    }
  }

  lemma ApplySorted(t: Option<BpfTable>, op: Op)
    requires Sorted(Symbols(t)) && (op.Load? ==> Sorted(op.symbols))
    ensures Sorted(Symbols(Apply(t, op))) && Revises(t, Apply(t, op), BPF_GENERATION)
  {
    hide Position, Sorted, Next;
    if op.Add? { AddedSorted(Symbols(t), op.symbol); }
    if op.Remove? { RemovedSorted(Symbols(t), op.address); }
  }

  lemma EmptySorted()
    ensures Sorted(Symbols(None))
  {}

  /** Over any run of fewer than 2^63 events, a BPF generation is odd and names one table. */
  lemma BpfGenerationNames(ops: seq<Op>, i: nat, j: nat)
    requires forall op | op in ops && op.Load? :: Sorted(op.symbols)
    requires i <= j <= |ops| < 0x8000_0000_0000_0000
    ensures GenerationOf(History(ops)[i], BPF_GENERATION) % 2 == 1
    ensures GenerationOf(History(ops)[i], BPF_GENERATION) == GenerationOf(History(ops)[j], BPF_GENERATION)
            <==> History(ops)[i] == History(ops)[j]
  {
    hide History, GenerationOf, Changes, IsHistory;
    HistorySorted(ops);
    GenerationNames(History(ops), BPF_GENERATION, i, j);
    GenerationsIncrease(History(ops), BPF_GENERATION, i, j);
  }

  // ----- What a table holds -----

  /** The symbols of an address, in the order of the table. */
  function At(ss: seq<Symbol>, a: Word): seq<Symbol> {
    if ss == [] then [] else (if ss[0].address == a then [ss[0]] else []) + At(ss[1..], a)
  }

  lemma {:induction false} AtConcat(x: seq<Symbol>, y: seq<Symbol>, a: Word)
    ensures At(x + y, a) == At(x, a) + At(y, a)
    decreases |x|
  {
    if x == [] {
      assert x + y == y;
    } else {
      AtConcat(x[1..], y, a);
      assert (x + y)[1..] == x[1..] + y && (x + y)[0] == x[0];
      var first := if x[0].address == a then [x[0]] else [];
      assert first + (At(x[1..], a) + At(y, a)) == first + At(x[1..], a) + At(y, a);
    }
  }

  lemma {:induction false} NoneAt(ss: seq<Symbol>, a: Word)
    requires forall s | s in ss :: s.address != a
    ensures At(ss, a) == []
    decreases |ss|
  {
    if ss != [] { NoneAt(ss[1..], a); }
  }

  lemma OneAt(s: Symbol, a: Word)
    ensures At([s], a) == if s.address == a then [s] else []
  {
    assert [s][1..] == [];
  }

  lemma NoneBefore(ss: seq<Symbol>, a: Word, p: nat)
    requires p <= |ss| && forall i | 0 <= i < p :: ss[i].address < a
    ensures At(ss[..p], a) == []
  {
    hide At;
    NoneAt(ss[..p], a);
  }

  lemma NoneAfter(ss: seq<Symbol>, a: Word, p: nat)
    requires Sorted(ss) && p <= |ss| && (p < |ss| ==> ss[p].address > a)
    ensures At(ss[p..], a) == []
  {
    hide At;
    forall s | s in ss[p..] ensures s.address != a {
      var k :| p <= k < |ss| && ss[k] == s;
      assert p < k ==> ss[p].address <= ss[k].address;
    }
    NoneAt(ss[p..], a);
  }

  /** The search by address finds the first symbol of the address, when there is one. */
  lemma PositionAt(ss: seq<Symbol>, a: Word)
    requires Sorted(ss)
    ensures var p := Position(ss, a);
            && At(ss[..p], a) == [] && At(ss, a) == At(ss[p..], a) && (Present(ss, a) <==> At(ss, a) != [])
            && (Present(ss, a) ==> At(ss, a)[0] == ss[p] && At(ss, a)[1..] == At(ss[p + 1..], a))
  {
    hide At, Position, Sorted;
    var p := Position(ss, a);
    var x, y := ss[..p], ss[p..];
    NoneBefore(ss, a, p);
    assert ss == x + y;
    AtConcat(x, y, a);
    assert [] + At(y, a) == At(y, a);
    if Present(ss, a) {
      FirstAt(y, a);
      assert y[1..] == ss[p + 1..];
    } else {
      NoneAfter(ss, a, p);
    }
  }

  lemma FirstAt(ss: seq<Symbol>, a: Word)
    requires ss != [] && ss[0].address == a
    ensures At(ss, a) == [ss[0]] + At(ss[1..], a) && At(ss, a)[1..] == At(ss[1..], a)
  {}

  lemma AtBetween(x: seq<Symbol>, s: Symbol, y: seq<Symbol>, a: Word)
    ensures At(x + [s] + y, a) == At(x, a) + (if s.address == a then [s] else []) + At(y, a)
    ensures At(x + y, a) == At(x, a) + At(y, a)
  {
    hide At;
    AtConcat(x + [s], y, a);
    AtConcat(x, [s], a);
    AtConcat(x, y, a);
    OneAt(s, a);
  }

  lemma AddedAt(ss: seq<Symbol>, s: Symbol, a: Word)
    requires Sorted(ss)
    ensures At(Added(ss, s), a) == if a == s.address then [s] + At(ss, a) else At(ss, a)
  {
    hide At, Sorted;
    PositionAt(ss, s.address);
    var p := Position(ss, s.address);
    hide Position;
    var x, y := ss[..p], ss[p..];
    AtBetween(x, s, y, a);
    assert ss == x + y;
    assert [] + [s] + At(y, a) == [s] + At(y, a) && At(x, a) + [] == At(x, a);
  }

  lemma RemovedAtAddress(ss: seq<Symbol>, b: Word, a: Word)
    requires Sorted(ss)
    ensures At(Removed(ss, b), a) == if a == b && At(ss, b) != [] then At(ss, b)[1..] else At(ss, a)
  {
    hide At, Sorted;
    PositionAt(ss, b);
    if Present(ss, b) {
      var p := Position(ss, b);
      assert ss[p].address == b;
      hide Position;
      var x, y := ss[..p], ss[p + 1..];
      AtBetween(x, ss[p], y, a);
      assert ss == x + [ss[p]] + y;
      assert [] + At(y, a) == At(y, a) && At(x, a) + [] == At(x, a);
    }
  }

  /** What an addition of s does to a table: nothing when the name is known at the address, otherwise
      exactly s is added, before the other symbols of its address, under the next generation. */
  ghost predicate AddsSymbol(t: Option<BpfTable>, u: Option<BpfTable>, s: Symbol) {
    var ss := Symbols(t);
    if At(ss, s.address) != [] && At(ss, s.address)[0].name == s.name then u == t
    else && u.Some? && u.value.generation == Next(GenerationOf(t, BPF_GENERATION))
         && multiset(u.value.content) == multiset(ss) + multiset{s}
         && At(u.value.content, s.address) == [s] + At(ss, s.address)
  }

  /** What a removal does: nothing when there is no symbol of the address, otherwise exactly the first
      of them goes, under the next generation. */
  ghost predicate RemovesSymbol(t: Option<BpfTable>, u: Option<BpfTable>, a: Word) {
    var ss := Symbols(t);
    if At(ss, a) == [] then u == t
    else && u.Some? && u.value.generation == Next(GenerationOf(t, BPF_GENERATION))
         && multiset(ss) == multiset(u.value.content) + multiset{At(ss, a)[0]}
         && At(u.value.content, a) == At(ss, a)[1..]
  }

  lemma ApplyAdds(t: Option<BpfTable>, s: Symbol)
    requires Sorted(Symbols(t))
    ensures AddsSymbol(t, Apply(t, Add(s)), s)
  {
    hide At, Sorted, Position, Next, Added;
    PositionAt(Symbols(t), s.address);
    AddedAt(Symbols(t), s, s.address);
    AddedSorted(Symbols(t), s);
  }

  lemma ApplyRemoves(t: Option<BpfTable>, a: Word)
    requires Sorted(Symbols(t))
    ensures RemovesSymbol(t, Apply(t, Remove(a)), a)
  {
    hide Sorted, Position, Next, Removed;
    PositionAt(Symbols(t), a);
    RemovedAtAddress(Symbols(t), a, a);
    RemovedSorted(Symbols(t), a);
  }

  /** One event seen from an address whose symbols are these: an addition puts its symbol on top unless
      the top one has that name, and a removal takes the top one off. */
  function Stacked(op: Op, a: Word, before: seq<Symbol>): seq<Symbol> {
    if op.Load? then At(op.symbols, a)
    else if op.Add? then
      if op.symbol.address != a || (before != [] && before[0].name == op.symbol.name) then before
      else [op.symbol] + before
    else if op.address == a && before != [] then before[1..]
    else before
  }

  /** The symbols of an address after a sequence of events, the latest first. */
  function Stack(ops: seq<Op>, a: Word): seq<Symbol> {
    if ops == [] then [] else Stacked(ops[|ops| - 1], a, Stack(ops[..|ops| - 1], a))
  }

  /** The event changes what the table holds. */
  predicate Effective(ops: seq<Op>, op: Op) {
    match op
    case Load(_) => true
    case Add(s) => Stack(ops, s.address) == [] || Stack(ops, s.address)[0].name != s.name
    case Remove(a) => Stack(ops, a) != []
  }

  function Effects(ops: seq<Op>): nat {
    if ops == [] then 0 else
    Effects(ops[..|ops| - 1]) + if Effective(ops[..|ops| - 1], ops[|ops| - 1]) then 1 else 0
  }

  lemma ApplyAt(t: Option<BpfTable>, op: Op, a: Word)
    requires Sorted(Symbols(t))
    ensures At(Symbols(Apply(t, op)), a) == Stacked(op, a, At(Symbols(t), a))
  {
    hide At, Sorted, Position, Next, Added, Removed;
    if op.Add? {
      PositionAt(Symbols(t), op.symbol.address);
      AddedAt(Symbols(t), op.symbol, a);
    } else if op.Remove? {
      PositionAt(Symbols(t), op.address);
      RemovedAtAddress(Symbols(t), op.address, a);
    }
  }

  lemma ApplyGeneration(t: Option<BpfTable>, op: Op, ops: seq<Op>)
    requires Sorted(Symbols(t)) && forall a :: At(Symbols(t), a) == Stack(ops, a)
    ensures GenerationOf(Apply(t, op), BPF_GENERATION) ==
            var g := GenerationOf(t, BPF_GENERATION); if Effective(ops, op) then Next(g) else g
  {
    hide At, Sorted, Position, Next, Added, Removed, Stack;
    if op.Add? { PositionAt(Symbols(t), op.symbol.address); }
    if op.Remove? { PositionAt(Symbols(t), op.address); }
  }

  /** The table holds, address by address, exactly what was loaded and added and not removed since; and
      its generation counts the events that changed something. */
  ghost predicate Holds(t: Option<BpfTable>, ops: seq<Op>) {
    (forall a :: At(Symbols(t), a) == Stack(ops, a)) && GenerationOf(t, BPF_GENERATION) == Wrap(1 + 2 * Effects(ops))
  }

  lemma StepHolds(t: Option<BpfTable>, ops: seq<Op>)
    requires ops != [] && Sorted(Symbols(t)) && Holds(t, ops[..|ops| - 1])
    ensures Holds(Apply(t, ops[|ops| - 1]), ops)
  {
    hide At, Sorted, Next, Apply, Wrap, Effective, Stacked;
    var init, op := ops[..|ops| - 1], ops[|ops| - 1];
    forall a ensures At(Symbols(Apply(t, op)), a) == Stack(ops, a) { ApplyAt(t, op, a); }
    ApplyGeneration(t, op, init);
    NextWraps(1 + 2 * Effects(init));
  }

  /** So after every sequence of events. */
  lemma {:induction false} HistoryHolds(ops: seq<Op>)
    requires forall op | op in ops && op.Load? :: Sorted(op.symbols)
    ensures Holds(History(ops)[|ops|], ops)
    decreases |ops|
  {
    if ops == [] {
      NothingHeld();
    } else {
      hide Apply, Holds, Sorted;
      var init := ops[..|ops| - 1];
      HistoryHolds(init);
      HistorySorted(init);
      var t := History(init)[|init|];
      assert t in History(init);
      StepHolds(t, ops);
    }
  }

  lemma NothingHeld()
    ensures Holds(None, [])
  {}

  // ----- The BPF symbolizer -----

  class SymbolTable {
    const symbols: array<Symbol>
    const generation: Word

    constructor (symbols: array<Symbol>, generation: Word)
      ensures this.symbols == symbols && this.generation == generation
    {
      this.symbols, this.generation := symbols, generation;
    }
  }

  /** slices.BinarySearchFunc by address. */
  method BinarySearch(symbols: array<Symbol>, a: Word) returns (idx: nat, found: bool)
    requires Sorted(symbols[..])
    ensures idx == Position(symbols[..], a) && found == Present(symbols[..], a)
  {
    var j := symbols.Length;
    idx := 0;
    while idx < j
      invariant 0 <= idx <= j <= symbols.Length
      invariant forall i | 0 <= i < idx :: symbols[i].address < a
      invariant j < symbols.Length ==> symbols[j].address >= a
    {
      var h := (idx + j) / 2;
      if symbols[h].address < a { idx := h + 1; } else { j := h; }
    }
    PositionIs(symbols[..], a, idx);
    found := idx < symbols.Length && symbols[idx].address == a;
  }

  method Inserted(symbols: array<Symbol>, idx: nat, s: Symbol) returns (r: array<Symbol>)
    requires idx <= symbols.Length
    ensures fresh(r) && r[..] == symbols[..][..idx] + [s] + symbols[..][idx..]
  {
    r := new Symbol[symbols.Length + 1](_ => s);
    forall k | 0 <= k < idx { r[k] := symbols[k]; }
    forall k | idx <= k < symbols.Length { r[k + 1] := symbols[k]; }
    InsertedAt(symbols[..], r[..], idx, s);
  }

  method Dropped(symbols: array<Symbol>, idx: nat) returns (r: array<Symbol>)
    requires idx < symbols.Length
    ensures fresh(r) && r[..] == symbols[..][..idx] + symbols[..][idx + 1..]
  {
    var s := symbols[0];
    r := new Symbol[symbols.Length - 1](_ => s);
    forall k | 0 <= k < idx { r[k] := symbols[k]; }
    forall k | idx <= k < r.Length { r[k] := symbols[k + 1]; }
    RemovedAt(symbols[..], r[..], idx);
  }

  class BpfSymbolizer {
    var table: SymbolTable?

    ghost function View(): Option<BpfTable>
      reads this, if table != null then {table.symbols} else {}
    {
      if table == null then None else Some(Table(table.symbols[..], table.generation))
    }

    ghost predicate Valid()
      reads this, if table != null then {table.symbols} else {}
    {
      Sorted(Symbols(View()))
    }

    constructor ()
      ensures Valid() && View() == None
    {
      table := null;
    }

    method LookupSymbol(a: Word) returns (r: Option<(string, Word)>)
      requires Valid()
      ensures r == Lookup(Symbols(View()), a)
    {
      hide Sorted, Position, Wrap;
      if table == null { return None; }
      assert Symbols(View()) == table.symbols[..];
      var idx, found := BinarySearch(table.symbols, a);
      if !found {
        if idx == 0 { return None; }
        idx := idx - 1;
      }
      var sym := table.symbols[idx];
      if a >= Wrap(sym.address + sym.size) { return None; }
      return Some((sym.name, a - sym.address));
    }

    /** Stores a new table; the array is the caller's fresh one. */
    method Store(symbols: array<Symbol>)
      modifies this
      ensures View() == Some(Table(symbols[..], Next(GenerationOf(old(View()), BPF_GENERATION))))
      ensures table != null && table.symbols == symbols
    {
      var generation := if table == null then BPF_GENERATION else table.generation;
      table := new SymbolTable(symbols, Next(generation));
    }

    method AddBPFSymbol(addr: Word, name: string, size: Size)
      requires Valid()
      modifies this
      ensures Valid() && View() == Apply(old(View()), Add(Symbol(name, addr, size)))
      ensures AddsSymbol(old(View()), View(), Symbol(name, addr, size))
      ensures table == old(table) || fresh(table.symbols)
      ensures old(table) != null ==> old(table).symbols[..] == old(Symbols(View()))
    {
      hide Sorted, Position, Next, AddsSymbol;
      ghost var ss := Symbols(View());
      var sym := Symbol(name, addr, size);
      ApplyAdds(View(), sym);
      var oldSymbols := new Symbol[0];
      if table != null { oldSymbols := table.symbols; }
      assert oldSymbols[..] == ss;
      var idx, found := BinarySearch(oldSymbols, addr);
      assert Known(ss, sym) <==> found && oldSymbols[idx].name == name;
      if found && oldSymbols[idx].name == name { return; }
      var newSymbols := Inserted(oldSymbols, idx, sym);
      AddedSorted(ss, sym);
      assert View() == old(View());
      Store(newSymbols);
    }

    method RemoveBPFSymbol(addr: Word)
      requires Valid()
      modifies this
      ensures Valid() && View() == Apply(old(View()), Remove(addr)) && RemovesSymbol(old(View()), View(), addr)
      ensures table == old(table) || fresh(table.symbols)
      ensures old(table) != null ==> old(table).symbols[..] == old(Symbols(View()))
    {
      hide Sorted, Position, Next, RemovesSymbol;
      ApplyRemoves(View(), addr);
      if table == null { return; }
      ghost var ss := Symbols(View());
      var oldSymbols := table.symbols;
      var idx, found := BinarySearch(oldSymbols, addr);
      if !found { return; }
      var newSymbols := Dropped(oldSymbols, idx);
      RemovedSorted(ss, addr);
      assert View() == old(View());
      Store(newSymbols);
    }
  }

  lemma InsertedAt(ss: seq<Symbol>, r: seq<Symbol>, p: nat, s: Symbol)
    requires p <= |ss| && |r| == |ss| + 1 && r[p] == s
    requires forall k | 0 <= k < p :: r[k] == ss[k]
    requires forall k | p <= k < |ss| :: r[k + 1] == ss[k]
    ensures r == ss[..p] + [s] + ss[p..]
  {
    forall k | 0 <= k < |r| ensures r[k] == (ss[..p] + [s] + ss[p..])[k] {
      if k > p { assert r[k - 1 + 1] == ss[k - 1]; }
    }
  }

  lemma RemovedAt(ss: seq<Symbol>, r: seq<Symbol>, p: nat)
    requires p < |ss| && |r| == |ss| - 1
    requires forall k | 0 <= k < p :: r[k] == ss[k]
    requires forall k | p <= k < |r| :: r[k] == ss[k + 1]
    ensures r == ss[..p] + ss[p + 1..]
  {}

  // ----- Modules -----

  /** Symbols of a module are offsets with names, by descending offset. */
  datatype Module = Module(start: Word, end: Word, mapping: Option<nat>, symbols: seq<(Size, string)>, stub: bool)
  {
    predicate Covers(a: Word) { start <= a < end }
  }

  type ModuleTable = Table<seq<Module>>

  ghost predicate Descending(ms: seq<Module>) {
    forall i, j | 0 <= i < j < |ms| :: ms[i].start >= ms[j].start
  }

  /** The module that the search by start address settles on. */
  function ModuleAt(ms: seq<Module>, pc: Word): Option<Module> {
    if ms == [] then None
    else if pc >= ms[0].start then (if pc < ms[0].end then Some(ms[0]) else None)
    else ModuleAt(ms[1..], pc)
  }

  /** The first module around the address. */
  function ModuleScan(ms: seq<Module>, pc: Word): (r: Option<Module>)
    ensures r.Some? ==> r.value in ms && r.value.Covers(pc)
    ensures r.None? ==> forall m | m in ms :: !m.Covers(pc)
  {
    if ms == [] then None else if ms[0].Covers(pc) then Some(ms[0]) else ModuleScan(ms[1..], pc)
  }

  lemma {:induction false} ModuleAtIsScan(ms: seq<Module>, pc: Word)
    requires Descending(ms) && forall i, j | 0 <= i < j < |ms| :: ms[j].end <= ms[i].start
    ensures ModuleAt(ms, pc) == ModuleScan(ms, pc)
    decreases |ms|
  {
    if ms != [] {
      if pc < ms[0].start {
        ModuleAtIsScan(ms[1..], pc);
      } else if pc >= ms[0].end {
        forall m | m in ms ensures !m.Covers(pc) {
          var j :| 0 <= j < |ms| && ms[j] == m;
          assert j > 0 ==> ms[j].end <= ms[0].start;
        }
      }
    }
  }

  lemma {:induction false} ModuleAtFrom(ms: seq<Module>, pc: Word, i: nat)
    requires i <= |ms| && forall k | 0 <= k < i :: pc < ms[k].start
    ensures ModuleAt(ms, pc) == ModuleAt(ms[i..], pc)
    decreases i
  {
    if i > 0 {
      ModuleAtFrom(ms[1..], pc, i - 1);
      assert ms[1..][i - 1..] == ms[i..];
    } else {
      assert ms[0..] == ms;
    }
  }

  method GetModuleByAddress(ms: seq<Module>, pc: Word) returns (r: Option<Module>)
    requires Descending(ms)
    ensures r == ModuleAt(ms, pc)
  {
    var i, j := 0, |ms|;
    while i < j
      invariant 0 <= i <= j <= |ms|
      invariant forall k | 0 <= k < i :: pc < ms[k].start
      invariant j < |ms| ==> pc >= ms[j].start
    {
      var h := (i + j) / 2;
      if pc >= ms[h].start { j := h; } else { i := h + 1; }
    }
    ModuleAtFrom(ms, pc, i);
    if i >= |ms| { return None; }
    var m := ms[i];
    if pc < m.start || pc >= m.end { return None; }
    return Some(m);
  }

  // ----- Symbols of a module -----

  /** The offset in the module, cut to 32 bits. */
  function Offset(m: Module, pc: Word): (o: Size)
    ensures (pc - m.start - o) % 0x1_0000_0000 == 0
    ensures m.Covers(pc) && m.end - m.start <= 0x1_0000_0000 ==> o == pc - m.start
  {
    Wrap(pc - m.start) % 0x1_0000_0000
  }

  ghost predicate Falling(ss: seq<(Size, string)>) {
    forall i, j | 0 <= i < j < |ss| :: ss[i].0 >= ss[j].0
  }

  function FirstBelow(ss: seq<(Size, string)>, o: Size): (p: nat)
    ensures p <= |ss| && (forall i | 0 <= i < p :: ss[i].0 > o) && (p < |ss| ==> ss[p].0 <= o)
  {
    if ss == [] || ss[0].0 <= o then 0 else 1 + FirstBelow(ss[1..], o)
  }

  function SymbolAt(m: Module, pc: Word): Option<(string, Size)> {
    var o := Offset(m, pc);
    var p := FirstBelow(m.symbols, o);
    if m.stub || p == |m.symbols| then None else Some((m.symbols[p].1, o - m.symbols[p].0))
  }

  ghost predicate NearestBelow(ss: seq<(Size, string)>, o: Size, s: (Size, string)) {
    s in ss && s.0 <= o && forall q | q in ss && q.0 <= o :: q.0 <= s.0
  }

  lemma SymbolAtMeans(m: Module, pc: Word)
    requires Falling(m.symbols)
    ensures var r, o := SymbolAt(m, pc), Offset(m, pc);
            && (r.None? <==> m.stub || forall s | s in m.symbols :: s.0 > o)
            && (r.Some? ==> exists s :: NearestBelow(m.symbols, o, s) && r.value == (s.1, o - s.0))
  {
    hide Offset;
    var p := FirstBelow(m.symbols, Offset(m, pc));
    if p < |m.symbols| {
      assert m.symbols[p] in m.symbols;
      assert NearestBelow(m.symbols, Offset(m, pc), m.symbols[p]);
    }
  }

  /** The symbol with the greatest offset at or below the address, unless the module is a stub or
      has none. */
  method LookupSymbolByAddress(m: Module, pc: Word) returns (r: Option<(string, Size)>)
    requires Falling(m.symbols)
    ensures r == SymbolAt(m, pc)
    ensures r.None? <==> m.stub || forall s | s in m.symbols :: s.0 > Offset(m, pc)
    ensures r.Some? ==> exists s :: NearestBelow(m.symbols, Offset(m, pc), s) && r.value == (s.1, Offset(m, pc) - s.0)
  {
    hide Offset, NearestBelow, Falling, FirstBelow;
    SymbolAtMeans(m, pc);
    if m.stub { return None; }
    var o := Offset(m, pc);
    var i := FindBelow(m.symbols, o);
    if i >= |m.symbols| { return None; }
    r := Some((m.symbols[i].1, o - m.symbols[i].0));
  }

  method FindBelow(ss: seq<(Size, string)>, o: Size) returns (i: nat)
    requires Falling(ss)
    ensures i == FirstBelow(ss, o)
  {
    hide Falling, FirstBelow;
    var j := |ss|;
    i := 0;
    while i < j
      invariant 0 <= i <= j <= |ss|
      invariant i > 0 ==> ss[i - 1].0 > o
      invariant j < |ss| ==> ss[j].0 <= o
    {
      var h := (i + j) / 2;
      if ss[h].0 > o { i := h + 1; } else { j := h; }
    }
    FirstBelowIs(ss, o, i);
  }

  lemma FirstBelowIs(ss: seq<(Size, string)>, o: Size, i: nat)
    requires Falling(ss) && i <= |ss| && (i > 0 ==> ss[i - 1].0 > o) && (i < |ss| ==> ss[i].0 <= o)
    ensures FirstBelow(ss, o) == i
  {
    var p := FirstBelow(ss, o);
  }
}
