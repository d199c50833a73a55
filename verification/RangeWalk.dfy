/** Walks over the .NET runtime's code range structures in a memory image that may be cyclic,
    aliased or corrupt. */
module RangeWalk {
  import opened Words
  import opened Options

  const MAX_NODES := 0x10_0000
  const MAX_LEVEL := 5

  /** The pointers of one level of a RangeSectionMap. */
  type Entries = es: seq<Word> | |es| == 256 witness seq(256, _ => 0)

  datatype Range = Range(start: Word, end: Word, id: Word)
  {
    predicate Used() { start != 0 && end != 0 && id != 0 }
  }

  /** A RangeListBlock. */
  datatype Block = Block(ranges: seq<Range>, next: Word)

  /** What reading at an address gives in each of the roles it may have; reads may fail, and so may
      what is done with a range section. */
  datatype Image = Image(
    level: Word -> Option<Entries>,
    fragment: Word -> Option<(Word, Word)>,
    section: Word -> Option<Word>,
    usable: Word -> bool,
    block: Word -> Option<Block>)

  /** Levels of a map are counted from 1 at the root. */
  datatype Role = LevelMap(level: nat) | Fragment | Section | ListBlock

  /** One read of the target's memory. */
  datatype Read = Read(role: Role, address: Word)

  /** A pointer without its collectible bit. */
  function Masked(x: Word): (r: Word)
    ensures r % 2 == 0 && r <= x <= r + 1
  {
    x - x % 2
  }

  ghost predicate Reached(seen: set<Word>, x: Word) { x == 0 || x in seen }

  /** Everything the node points to has been reached. */
  ghost predicate Covered(im: Image, r: Read, seen: set<Word>) {
    match r.role
    case LevelMap(_) => LevelCovered(im, r.address, seen)
    case Fragment =>
      var f := im.fragment(r.address);
      f.Some? && Reached(seen, Masked(f.value.0)) && f.value.1 in seen
    case Section => im.section(r.address).Some? && im.usable(r.address)
    case ListBlock => im.block(r.address).Some?
  }

  ghost predicate LevelCovered(im: Image, a: Word, seen: set<Word>) {
    im.level(a).Some? && forall i | 0 <= i < 256 :: Reached(seen, Masked(im.level(a).value[i]))
  }

  /** The first node read points to the second in its role: a level to the next one or, the last, to
      fragments; and a fragment to the next one and to its section. */
  ghost predicate PointsTo(im: Image, r: Read, to: Read) {
    match r.role
    case LevelMap(level) =>
      && im.level(r.address).Some? && to.role == (if level < MAX_LEVEL then LevelMap(level + 1) else Fragment)
      && EntryOf(im.level(r.address).value, to.address)
    case Fragment =>
      var f := im.fragment(r.address);
      && f.Some?
      && ((to.role.Fragment? && to.address == Masked(f.value.0)) || (to.role.Section? && to.address == f.value.1))
    case _ => false
  }

  predicate EntryOf(es: Entries, a: Word) { exists i | 0 <= i < 256 :: Masked(es[i]) == a }

  /** Some read before the k-th points to it. */
  ghost predicate HasParent(im: Image, rs: seq<Read>, k: nat)
    requires k < |rs|
  {
    exists j | 0 <= j < k :: PointsTo(im, rs[j], rs[k])
  }

  /** Every read after the first was of something an earlier one points to. */
  ghost predicate Rooted(im: Image, rs: seq<Read>) { forall k | 1 <= k < |rs| :: HasParent(im, rs, k) }

  lemma RootedMore(im: Image, rs: seq<Read>, j: nat, r: Read)
    requires Rooted(im, rs) && j < |rs| && PointsTo(im, rs[j], r)
    ensures Rooted(im, rs + [r])
  {
    hide PointsTo;
    var all := rs + [r];
    forall k | 1 <= k < |all| ensures HasParent(im, all, k) {
      if k < |rs| {
        assert HasParent(im, rs, k);
        var i :| 0 <= i < k && PointsTo(im, rs[i], rs[k]);
        assert all[i] == rs[i] && all[k] == rs[k];
      } else {
        assert all[j] == rs[j] && all[k] == r;
      }
    }
  }

  /** The read failed, or what is done with the range section did. */
  ghost predicate Fails(im: Image, r: Read) {
    match r.role
    case LevelMap(_) => im.level(r.address).None?
    case Fragment => im.fragment(r.address).None?
    case Section => im.section(r.address).None? || !im.usable(r.address)
    case ListBlock => im.block(r.address).None?
  }

  /** Why a walk stops early: the node limit, or a failure at the last read. */
  ghost predicate Trouble(im: Image, rs: seq<Read>, seen: set<Word>) {
    |seen| == MAX_NODES || (rs != [] && Fails(im, rs[|rs| - 1]))
  }

  /** Everything but a next fragment still to be read has been reached. */
  ghost predicate CoveredBut(im: Image, r: Read, seen: set<Word>, ptr: Word) {
    Covered(im, r, seen + {ptr}) && (r.role.Fragment? ==> im.fragment(r.address).value.1 in seen)
  }

  lemma StillCovered(im: Image, r: Read, seen: set<Word>, ptr: Word, more: set<Word>, next: Word)
    requires CoveredBut(im, r, seen, ptr) && seen <= more && ptr in more
    ensures CoveredBut(im, r, more, next)
  {
    StaysCovered(im, r, seen + {ptr}, more + {next});
  }

  lemma NowCovered(im: Image, r: Read, seen: set<Word>, ptr: Word)
    requires CoveredBut(im, r, seen, ptr) && Reached(seen, ptr)
    ensures Covered(im, r, seen)
  {
    hide Masked;
  }

  lemma StaysCovered(im: Image, r: Read, seen: set<Word>, more: set<Word>)
    requires Covered(im, r, seen) && seen <= more
    ensures Covered(im, r, more)
  {}

  // ----- Lists -----

  function Addresses(rs: seq<Read>): set<Word> { set r | r in rs :: r.address }

  lemma NoAddresses()
    ensures Addresses([]) == {}
  {}

  lemma OneAddress(rs: seq<Read>, r: Read)
    ensures Addresses(rs + [r]) == Addresses(rs) + {r.address}
  {
    assert forall x | x in rs :: x in rs + [r];
    assert r in rs + [r];
  }

  /** The next address on a list of range sections after the reads made. */
  function NextSection(im: Image, head: Word, rs: seq<Read>): Option<Word> {
    if rs == [] then Some(head) else im.section(rs[|rs| - 1].address)
  }

  function NextBlock(im: Image, head: Word, rs: seq<Read>): Option<Word> {
    if rs == [] then Some(Wrap(head + 8)) else
    var b := im.block(rs[|rs| - 1].address);
    if b.None? then None else Some(b.value.next)
  }

  /** Read k follows the list of range sections. */
  predicate Chained(im: Image, head: Word, rs: seq<Read>, k: nat)
    requires k < |rs|
  {
    rs[k].role.Section? && rs[k].address != 0 && NextSection(im, head, rs[..k]) == Some(rs[k].address)
  }

  /** Why the walk of a list of blocks ends: no next block, one already read, the node limit, a read that
      failed, or a block with an unused range. */
  ghost predicate ListEnds(im: Image, head: Word, rs: seq<Read>, seen: set<Word>) {
    var next := NextBlock(im, head, rs);
    || next.None? || next.value == 0 || next.value in Addresses(rs) || |seen| == MAX_NODES
    || (rs != [] && exists r | r in im.block(rs[|rs| - 1].address).value.ranges ::
                      r.start == 0 || r.end == 0 || r.id == 0)
  }

  predicate BlockChained(im: Image, head: Word, rs: seq<Read>, k: nat)
    requires k < |rs|
  {
    rs[k].role.ListBlock? && rs[k].address != 0 && NextBlock(im, head, rs[..k]) == Some(rs[k].address)
  }

  /** Such reads begin at the head and go from each section to the one it names. */
  lemma ChainMeans(im: Image, head: Word, rs: seq<Read>, k: nat)
    requires k < |rs| && Chained(im, head, rs, k)
    ensures rs[k].address == if k == 0 then head else im.section(rs[k - 1].address).value
    ensures k > 0 ==> im.section(rs[k - 1].address).Some?
  {}

  /** The first block stands behind the 8 bytes at the head. */
  lemma BlockChainMeans(im: Image, head: Word, rs: seq<Read>, k: nat)
    requires k < |rs| && BlockChained(im, head, rs, k)
    ensures k > 0 ==> im.block(rs[k - 1].address).Some?
    ensures rs[k].address == if k == 0 then Wrap(head + 8) else im.block(rs[k - 1].address).value.next
  {}

  ghost predicate NextReached(im: Image, a: Word, seen: set<Word>) {
    im.section(a).Some? && Reached(seen, im.section(a).value)
  }

  // ----- Ranges added -----

  type Ranges = map<Word, Word>

  /** addRange does nothing for an empty range, and is not called for a known start. */
  function AddOne(ranges: Ranges, r: Range): Ranges {
    if r.start in ranges || r.end <= r.start then ranges else ranges[r.start := r.end]
  }

  /** The ranges up to the first unused one. */
  function Added(ranges: Ranges, rs: seq<Range>): Ranges
    decreases |rs|
  {
    if rs == [] || !rs[0].Used() then ranges else Added(AddOne(ranges, rs[0]), rs[1..])
  }

  function AddedBlocks(ranges: Ranges, im: Image, rs: seq<Read>): Ranges {
    if rs == [] then ranges else
    var before := AddedBlocks(ranges, im, rs[..|rs| - 1]);
    var b := im.block(rs[|rs| - 1].address);
    if b.None? then before else Added(before, b.value.ranges)
  }

  lemma {:induction false} AddedKeeps(ranges: Ranges, rs: seq<Range>, a: Word)
    requires a in ranges
    ensures a in Added(ranges, rs) && Added(ranges, rs)[a] == ranges[a]
    decreases |rs|
  {
    if rs != [] && rs[0].Used() { AddedKeeps(AddOne(ranges, rs[0]), rs[1..], a); }
  }

  /** None of the first n ranges has a field that is 0. */
  ghost predicate AllSet(rs: seq<Range>, n: nat)
    requires n <= |rs|
  {
    forall k | 0 <= k < n :: rs[k].start != 0 && rs[k].end != 0 && rs[k].id != 0
  }

  /** A block adds every proper range before its first unused one, under the end of the first range
      with that start unless the start was known. */
  lemma {:induction false} AddedMeans(ranges: Ranges, rs: seq<Range>, i: nat)
    requires i < |rs| && AllSet(rs, i + 1) && rs[i].start < rs[i].end
    requires rs[i].start !in ranges && forall k | 0 <= k < i :: rs[k].start != rs[i].start || rs[k].end <= rs[k].start
    ensures rs[i].start in Added(ranges, rs) && Added(ranges, rs)[rs[i].start] == rs[i].end
    decreases |rs|
  {
    assert rs[0].Used();
    if i == 0 {
      AddedKeeps(AddOne(ranges, rs[0]), rs[1..], rs[0].start);
    } else {
      AddedMeans(AddOne(ranges, rs[0]), rs[1..], i - 1);
    }
  }

  /** Whatever was known, the start of such a range is known afterwards. */
  lemma {:induction false} AddedHas(ranges: Ranges, rs: seq<Range>, i: nat)
    requires i < |rs| && AllSet(rs, i + 1) && rs[i].start < rs[i].end
    ensures rs[i].start in Added(ranges, rs)
    decreases |rs|
  {
    assert rs[0].Used();
    if i == 0 {
      AddedKeeps(AddOne(ranges, rs[0]), rs[1..], rs[0].start);
    } else {
      AddedHas(AddOne(ranges, rs[0]), rs[1..], i - 1);
    }
  }

  /** The i-th range, with none unused up to it, starts at a and ends at the end. */
  ghost predicate Gives(rs: seq<Range>, i: nat, a: Word, end: Word) {
    i < |rs| && AllSet(rs, i + 1) && rs[i].start == a && rs[i].end == end && a < end
  }

  /** ... and nothing else. */
  lemma {:induction false} AddedOnly(ranges: Ranges, rs: seq<Range>, a: Word)
    requires a in Added(ranges, rs)
    ensures a in ranges || exists i :: Gives(rs, i, a, Added(ranges, rs)[a])
    decreases |rs|
  {
    if rs != [] && rs[0].Used() {
      var more := AddOne(ranges, rs[0]);
      AddedOnly(more, rs[1..], a);
      if a in more {
        AddedKeeps(more, rs[1..], a);
        assert a !in ranges ==> Gives(rs, 0, a, Added(ranges, rs)[a]);
      } else {
        var i :| Gives(rs[1..], i, a, Added(more, rs[1..])[a]);
        GivesLater(rs, i, a, Added(more, rs[1..])[a]);
      }
    }
  }

  lemma GivesLater(rs: seq<Range>, i: nat, a: Word, end: Word)
    requires rs != [] && rs[0].Used() && Gives(rs[1..], i, a, end)
    ensures Gives(rs, i + 1, a, end)
  {
    forall k | 0 <= k < i + 2 ensures rs[k].start != 0 && rs[k].end != 0 && rs[k].id != 0 {
      if k > 0 { assert rs[k] == rs[1..][k - 1]; }
    }
  }

  /** The blocks read give every such range of theirs ... */
  lemma {:induction false} BlocksGive(ranges: Ranges, im: Image, rs: seq<Read>, k: nat, i: nat)
    requires k < |rs| && im.block(rs[k].address).Some?
    requires var b := im.block(rs[k].address).value;
             i < |b.ranges| && AllSet(b.ranges, i + 1) && b.ranges[i].start < b.ranges[i].end
    ensures im.block(rs[k].address).value.ranges[i].start in AddedBlocks(ranges, im, rs)
    decreases |rs|
  {
    hide AllSet;
    var n := |rs| - 1;
    var b := im.block(rs[n].address);
    if k == n {
      AddedHas(AddedBlocks(ranges, im, rs[..n]), b.value.ranges, i);
    } else {
      BlocksGive(ranges, im, rs[..n], k, i);
      var a := im.block(rs[k].address).value.ranges[i].start;
      if b.Some? { AddedKeeps(AddedBlocks(ranges, im, rs[..n]), b.value.ranges, a); }
    }
  }

  /** ... and nothing else. */
  lemma {:induction false} BlocksGiveOnly(ranges: Ranges, im: Image, rs: seq<Read>, a: Word)
    requires a in AddedBlocks(ranges, im, rs)
    ensures var all := AddedBlocks(ranges, im, rs);
            || (a in ranges && all[a] == ranges[a])
            || exists k, i :: 0 <= k < |rs| && im.block(rs[k].address).Some? &&
                              Gives(im.block(rs[k].address).value.ranges, i, a, all[a])
    decreases |rs|
  {
    hide Gives;
    if rs != [] {
      var n := |rs| - 1;
      var before, b := AddedBlocks(ranges, im, rs[..n]), im.block(rs[n].address);
      if a in before {
        BlocksGiveOnly(ranges, im, rs[..n], a);
        if b.Some? { AddedKeeps(before, b.value.ranges, a); }
        assert AddedBlocks(ranges, im, rs)[a] == before[a];
        if !(a in ranges && before[a] == ranges[a]) {
          var k, i :| 0 <= k < |rs[..n]| && im.block(rs[..n][k].address).Some? &&
                      Gives(im.block(rs[..n][k].address).value.ranges, i, a, before[a]);
          assert rs[k] == rs[..n][k];
        }
      } else {
        AddedOnly(before, b.value.ranges, a);
      }
    }
  }

  // ----- The walker -----

  class RangeWalker {
    var seen: set<Word>
    var log: seq<Read>
    var ranges: Ranges

    /** From the n-th on, no two reads are of the same address, and each was of a marked one. */
    ghost predicate Valid(n: nat)
      reads this
    {
      && n <= |log| && |seen| <= MAX_NODES
      && (forall i, j | n <= i < j < |log| :: log[i].address != log[j].address)
      && (forall i | n <= i < |log| :: log[i].address in seen)
    }

    ghost predicate Unread(n: nat, a: Word)
      reads this
    {
      forall i | n <= i < |log| :: log[i].address != a
    }

    /** What the walk has covered since it had made n reads. */
    ghost predicate CoveredFrom(im: Image, n: nat)
      reads this
    {
      forall k | n <= k < |log| :: Covered(im, log[k], seen)
    }

    /** Every marked address has been read, after the first read, which is not marked. */
    ghost predicate AllRead()
      reads this
    {
      log != [] && seen == Addresses(log[1..])
    }

    constructor (ranges: Ranges)
      ensures Valid(0) && seen == {} && log == [] && this.ranges == ranges
    {
      seen, log, this.ranges := {}, [], ranges;
    }

    method MarkSeen(a: Word, ghost n: nat) returns (isFresh: bool, ok: bool)
      requires Valid(n)
      modifies this`seen
      ensures Valid(n) && seen == if isFresh then old(seen) + {a} else old(seen)
      ensures isFresh ==> ok && a !in old(seen) && Unread(n, a)
      ensures ok && !isFresh ==> a in seen
      ensures !ok <==> a !in old(seen) && |old(seen)| == MAX_NODES
    {
      if a in seen { return false, true; }
      if |seen| >= MAX_NODES { return false, false; }
      seen := seen + {a};
      return true, true;
    }

    // ----- Reads of the target's memory -----

    method ReadLevel(im: Image, a: Word, level: nat) returns (r: Option<Entries>)
      requires if log == [] then seen == {} else Valid(1) && a in seen && Unread(1, a)
      modifies this`log
      ensures Valid(1) && r == im.level(a) && log == old(log) + [Read(LevelMap(level), a)]
    {
      log := log + [Read(LevelMap(level), a)];
      return im.level(a);
    }

    method ReadFragment(im: Image, a: Word, ghost n: nat) returns (r: Option<(Word, Word)>)
      requires Valid(n) && a in seen && Unread(n, a)
      modifies this`log
      ensures Valid(n) && r == im.fragment(a) && log == old(log) + [Read(Fragment, a)]
    {
      log := log + [Read(Fragment, a)];
      return im.fragment(a);
    }

    method ReadSection(im: Image, a: Word, ghost n: nat) returns (r: Option<Word>)
      requires Valid(n) && a in seen && Unread(n, a)
      modifies this`log
      ensures Valid(n) && r == im.section(a) && log == old(log) + [Read(Section, a)]
    {
      log := log + [Read(Section, a)];
      return im.section(a);
    }

    method ReadBlock(im: Image, a: Word, ghost n: nat) returns (r: Option<Block>)
      requires Valid(n) && a in seen && Unread(n, a)
      modifies this`log
      ensures Valid(n) && r == im.block(a) && log == old(log) + [Read(ListBlock, a)]
    {
      log := log + [Read(ListBlock, a)];
      return im.block(a);
    }

    // ----- Lists -----

    /** Walks the list of range sections of .NET 6 and 7: the reads follow the next pointers from the
        head, none twice, and a successful walk ends at the end of the list or where it repeats. */
    method WalkRangeSectionList(im: Image, head: Word) returns (ok: bool)
      requires seen == {} && log == []
      modifies this`seen, this`log
      ensures Valid(0) && forall k | 0 <= k < |log| :: Chained(im, head, log, k)
      ensures ok ==> Reached(seen, head) && CoveredFrom(im, 0) && seen == Addresses(log)
      ensures ok ==> forall k | 0 <= k < |log| :: NextReached(im, log[k].address, seen)
      ensures !ok ==> Trouble(im, log, seen)
    {
      hide Chained, Reached, Addresses;
      NoAddresses();
      var ptr := head;
      while ptr != 0
        invariant Valid(0) && CoveredFrom(im, 0) && seen == Addresses(log)
        invariant forall k | 0 <= k < |log| :: Chained(im, head, log, k)
        invariant NextSection(im, head, log) == Some(ptr)
        decreases MAX_NODES - |seen|
      {
        var isFresh;
        isFresh, ok := MarkSeen(ptr, 0);
        if !ok { return false; }
        if !isFresh { break; }
        ghost var before, marked := log, seen - {ptr};
        var next := ReadSection(im, ptr, 0);
        forall k | 0 <= k < |before| ensures Covered(im, log[k], seen) { StaysCovered(im, before[k], marked, seen); }
        ChainGrows(im, head, before, Read(Section, ptr));
        OneAddress(before, Read(Section, ptr));
        if next.None? || !im.usable(ptr) { return false; }
        ptr := next.value;
      }
      ok := true;
      ListDone(im, head, log, ptr);
    }

    /** Walks a list of blocks of stub ranges: the reads follow the next pointers, none twice, and the
        ranges added are those of the blocks read, each up to its first unused one. */
    method WalkRangeList(im: Image, head: Word)
      requires seen == {} && log == []
      modifies this
      ensures Valid(0) && forall k | 0 <= k < |log| :: BlockChained(im, head, log, k)
      ensures ranges == AddedBlocks(old(ranges), im, log) && ListEnds(im, head, log, seen)
    {
      hide Addresses;
      NoAddresses();
      var blockPtr := Wrap(head + 8);
      while blockPtr != 0
        invariant Valid(0) && NextBlock(im, head, log) == Some(blockPtr) && seen == Addresses(log)
        invariant forall k | 0 <= k < |log| :: BlockChained(im, head, log, k)
        invariant ranges == AddedBlocks(old(ranges), im, log)
        decreases MAX_NODES - |seen|
      {
        var isFresh, ok := MarkSeen(blockPtr, 0);
        if !ok || !isFresh { return; }
        ghost var before := log;
        var block := ReadBlock(im, blockPtr, 0);
        BlockChainGrows(im, head, before, Read(ListBlock, blockPtr));
        OneAddress(before, Read(ListBlock, blockPtr));
        assert log[..|log| - 1] == before;
        if block.None? { return; }
        var full := AddRanges(block.value.ranges);
        if !full {
          ghost var r :| r in block.value.ranges && !r.Used();
          return;
        }
        blockPtr := block.value.next;
      }
    }

    /** Adds the ranges of a block up to the first unused one. */
    method AddRanges(rs: seq<Range>) returns (full: bool)
      modifies this`ranges
      ensures ranges == Added(old(ranges), rs)
      ensures full == forall r | r in rs :: r.Used()
    {
      for i := 0 to |rs|
        invariant Added(old(ranges), rs) == Added(ranges, rs[i..]) && forall k | 0 <= k < i :: rs[k].Used()
      {
        var r := rs[i];
        assert rs[i..][1..] == rs[i + 1..];
        if r.start == 0 || r.end == 0 || r.id == 0 { return false; }
        if r.start in ranges { continue; }
        if r.start < r.end { ranges := ranges[r.start := r.end]; }
      }
      return true;
    }

    // ----- The map of .NET 8 -----

    /** Reads a fragment not seen before, and its range section unless that has been seen. Read j points
        to the fragment. */
    method OneFragment(im: Image, ptr: Word, ghost j: nat) returns (isFresh: bool, ok: bool, next: Word)
      requires Valid(1) && ptr != 0 && AllRead() && Rooted(im, log)
      requires j < |log| && PointsTo(im, log[j], Read(Fragment, ptr))
      modifies this`seen, this`log
      ensures Valid(1) && old(seen) <= seen && old(log) <= log && (ok ==> ptr in seen) && Rooted(im, log)
      ensures ok && !isFresh ==> unchanged(this)
      ensures ok && isFresh ==> |seen| > |old(seen)|
      ensures ok && isFresh ==> forall k | |old(log)| <= k < |log| :: CoveredBut(im, log[k], seen, next)
      ensures ok && isFresh ==> |log| > |old(log)| && PointsTo(im, log[|old(log)|], Read(Fragment, next))
      ensures if ok then AllRead() else Trouble(im, log, seen)
    {
      hide Masked, Rooted, Addresses, Covered, CoveredBut;
      next := 0;
      isFresh, ok := MarkSeen(ptr, 1);
      if !ok || !isFresh { return; }
      ghost var made := |log|;
      RootedMore(im, log, j, Read(Fragment, ptr));
      TailGrows(log, Read(Fragment, ptr));
      var f := ReadFragment(im, ptr, 1);
      if f.None? { return true, false, 0; }
      next := Masked(f.value.0);
      var sectionFresh;
      sectionFresh, ok := MarkSeen(f.value.1, 1);
      if !ok { return; }
      FragmentCovered(im, ptr, seen);
      if !sectionFresh { return; }
      RootedMore(im, log, made, Read(Section, f.value.1));
      TailGrows(log, Read(Section, f.value.1));
      var section := ReadSection(im, f.value.1, 1);
      if section.None? || !im.usable(f.value.1) { return true, false, 0; }
      SectionCovered(im, f.value.1, seen, next);
    }

    method WalkFragments(im: Image, head: Word, ghost j: nat) returns (ok: bool)
      requires Valid(1) && AllRead() && Rooted(im, log) && j < |log| && PointsTo(im, log[j], Read(Fragment, head))
      modifies this`seen, this`log
      ensures Valid(1) && old(seen) <= seen && old(log) <= log && Rooted(im, log)
      ensures ok ==> Reached(seen, head) && CoveredFrom(im, |old(log)|)
      ensures if ok then AllRead() else Trouble(im, log, seen)
    {
      hide Covered, CoveredBut, Rooted, PointsTo, Trouble, Addresses;
      var ptr := head;
      ghost var n := |log|;
      ghost var parent: nat := j;
      while ptr != 0
        invariant Valid(1) && old(seen) <= seen && old(log) <= log && n <= |log| && AllRead() && Rooted(im, log)
        invariant parent < |log| && PointsTo(im, log[parent], Read(Fragment, ptr))
        invariant ptr != head ==> Reached(seen, head)
        invariant forall k | n <= k < |log| :: CoveredBut(im, log[k], seen, ptr)
        decreases MAX_NODES - |seen|
      {
        ghost var rs, before := log, seen;
        var isFresh, next;
        isFresh, ok, next := OneFragment(im, ptr, parent);
        if !ok { return; }
        if !isFresh { break; }
        forall k | n <= k < |log| ensures CoveredBut(im, log[k], seen, next) {
          if k < |rs| { StillCovered(im, log[k], before, ptr, seen, next); }
        }
        ptr := next;
        parent := |rs|;
      }
      forall k | n <= k < |log| ensures Covered(im, log[k], seen) { NowCovered(im, log[k], seen, ptr); }
      ok := true;
    }

    /** The node has been marked but not read yet, and read j points to it. */
    ghost predicate Awaits(im: Image, ptr: Word, level: nat, j: nat)
      reads this
    {
      && Valid(1) && ptr in seen && Unread(1, ptr)
      && Rooted(im, log) && log != [] && seen == Addresses(log[1..]) + {ptr}
      && j < |log| && PointsTo(im, log[j], Read(LevelMap(level), ptr))
    }

    /** Walks one level of the map. Its own address has been marked, and not read yet, unless it is
        the root's. */
    method WalkLevel(im: Image, ptr: Word, level: nat, ghost j: nat) returns (ok: bool)
      requires 1 <= level <= MAX_LEVEL
      requires if level == 1 then seen == {} && log == [] else Awaits(im, ptr, level, j)
      modifies this`seen, this`log
      ensures Valid(1) && old(seen) <= seen && old(log) + [Read(LevelMap(level), ptr)] <= log && Rooted(im, log)
      ensures ok ==> CoveredFrom(im, |old(log)|)
      ensures if ok then AllRead() else Trouble(im, log, seen)
      decreases MAX_NODES - |seen|
    {
      hide Masked, Rooted, Addresses;
      NowRead(im, log, ptr, level, j);
      var entries := ReadLevel(im, ptr, level);
      ghost var own := |log|;
      if entries.None? { return false; }
      hide Trouble, PointsTo, Fails;
      for i := 0 to 256
        invariant Valid(1) && old(seen) <= seen && old(log) + [Read(LevelMap(level), ptr)] <= log
        invariant forall k | 0 <= k < i :: Reached(seen, Masked(entries.value[k]))
        invariant CoveredFrom(im, own) && AllRead() && Rooted(im, log)
      {
        var p := Masked(entries.value[i]);
        if p == 0 { continue; }
        NoFewer(old(seen), seen);
        ok := WalkEntry(im, p, level, own);
        if !ok { return; }
      }
      ok := true;
    }

    /** Walks what an entry of a level, the read before the own-th, points to. */
    method WalkEntry(im: Image, p: Word, level: nat, ghost own: nat) returns (ok: bool)
      requires Valid(1) && 1 <= level <= MAX_LEVEL && CoveredFrom(im, own) && 0 < own <= |log|
      requires AllRead() && Rooted(im, log) && log[own - 1].role == LevelMap(level)
      requires im.level(log[own - 1].address).Some? && EntryOf(im.level(log[own - 1].address).value, p)
      modifies this`seen, this`log
      ensures Valid(1) && old(seen) <= seen && old(log) <= log && Rooted(im, log)
      ensures ok ==> p in seen || p == 0
      ensures ok ==> CoveredFrom(im, own)
      ensures if ok then AllRead() else Trouble(im, log, seen)
      decreases MAX_NODES - |seen|, 0
    {
      hide Covered, Rooted, Addresses, EntryOf;
      ghost var before, made := seen, log;
      if level < MAX_LEVEL {
        var isFresh;
        isFresh, ok := MarkSeen(p, 1);
        if !ok || !isFresh { return; }
        ok := WalkLevel(im, p, level + 1, own - 1);
      } else {
        ok := WalkFragments(im, p, own - 1);
      }
      if !ok { return; }
      forall k | own <= k < |made| ensures Covered(im, log[k], seen) {
        assert log[k] == made[k];
        StaysCovered(im, made[k], before, seen);
      }
    }

    /** The whole map: the root is read first and without a mark; after it every read is of a marked
        address and none is of an address read before, so that only the root's can be read twice; and
        every read is of what an earlier one points to, in its role. At most MAX_NODES addresses are
        marked. When the walk succeeds, everything that any node read points to was reached, and read.
        It fails only at the node limit or at a read that does. */
    method WalkRangeSectionMap(im: Image, root: Word) returns (ok: bool)
      requires seen == {} && log == []
      modifies this`seen, this`log
      ensures |seen| <= MAX_NODES && |log| >= 1 && log[0] == Read(LevelMap(1), root) && Rooted(im, log)
      ensures forall i, j | 1 <= i < j < |log| :: log[i].address != log[j].address
      ensures forall i | 1 <= i < |log| :: log[i].address in seen
      ensures ok ==> AllRead() && forall k | 0 <= k < |log| :: Covered(im, log[k], seen)
      ensures !ok ==> Trouble(im, log, seen)
    {
      ok := WalkLevel(im, root, 1, 0);
    }
  }

  lemma FragmentCovered(im: Image, ptr: Word, seen: set<Word>)
    requires im.fragment(ptr).Some? && im.fragment(ptr).value.1 in seen
    ensures CoveredBut(im, Read(Fragment, ptr), seen, Masked(im.fragment(ptr).value.0))
  {}

  lemma SectionCovered(im: Image, a: Word, seen: set<Word>, next: Word)
    requires im.section(a).Some? && im.usable(a)
    ensures CoveredBut(im, Read(Section, a), seen, next)
  {}

  lemma TailGrows(rs: seq<Read>, r: Read)
    requires rs != []
    ensures Addresses((rs + [r])[1..]) == Addresses(rs[1..]) + {r.address}
  {
    hide Addresses;
    assert (rs + [r])[1..] == rs[1..] + [r];
    OneAddress(rs[1..], r);
  }

  /** Reading a level keeps reads rooted; the root's comes first. */
  lemma NowRead(im: Image, rs: seq<Read>, ptr: Word, level: nat, j: nat)
    requires rs != [] ==> Rooted(im, rs) && j < |rs| && PointsTo(im, rs[j], Read(LevelMap(level), ptr))
    ensures Rooted(im, rs + [Read(LevelMap(level), ptr)])
    ensures rs != [] ==> Addresses((rs + [Read(LevelMap(level), ptr)])[1..]) == Addresses(rs[1..]) + {ptr}
    ensures rs == [] ==> Addresses((rs + [Read(LevelMap(level), ptr)])[1..]) == {}
  {
    hide PointsTo, Addresses;
    var r := Read(LevelMap(level), ptr);
    if rs != [] {
      hide Rooted;
      RootedMore(im, rs, j, r);
      TailGrows(rs, r);
    } else {
      assert ([] + [r])[1..] == [];
      NoAddresses();
    }
  }

  lemma NoFewer(a: set<Word>, b: set<Word>)
    requires a <= b
    ensures |a| <= |b|
  {
    assert b == a + (b - a);
  }

  lemma ChainGrows(im: Image, head: Word, rs: seq<Read>, r: Read)
    requires (forall k | 0 <= k < |rs| :: Chained(im, head, rs, k)) && NextSection(im, head, rs) == Some(r.address)
    requires r.role.Section? && r.address != 0
    ensures forall k | 0 <= k < |rs + [r]| :: Chained(im, head, rs + [r], k)
  {
    forall k | 0 <= k < |rs + [r]| ensures Chained(im, head, rs + [r], k) {
      if k < |rs| {
        assert Chained(im, head, rs, k);
        assert (rs + [r])[..k] == rs[..k];
      } else {
        assert (rs + [r])[..k] == rs;
      }
    }
  }

  lemma BlockChainGrows(im: Image, head: Word, rs: seq<Read>, r: Read)
    requires (forall k | 0 <= k < |rs| :: BlockChained(im, head, rs, k)) && NextBlock(im, head, rs) == Some(r.address)
    requires r.role.ListBlock? && r.address != 0
    ensures forall k | 0 <= k < |rs + [r]| :: BlockChained(im, head, rs + [r], k)
  {
    forall k | 0 <= k < |rs + [r]| ensures BlockChained(im, head, rs + [r], k) {
      if k < |rs| {
        assert BlockChained(im, head, rs, k);
        assert (rs + [r])[..k] == rs[..k];
      } else {
        assert (rs + [r])[..k] == rs;
      }
    }
  }

  /** A chain whose next address is 0 or was read has been read completely. */
  lemma ListDone(im: Image, head: Word, rs: seq<Read>, ptr: Word)
    requires (forall k | 0 <= k < |rs| :: Chained(im, head, rs, k)) && NextSection(im, head, rs) == Some(ptr)
    requires ptr == 0 || ptr in Addresses(rs)
    ensures var seen := Addresses(rs);
            Reached(seen, head) && forall k | 0 <= k < |rs| :: NextReached(im, rs[k].address, seen)
  {
    var seen := Addresses(rs);
    forall k | 0 <= k < |rs| ensures NextReached(im, rs[k].address, seen) {
      if k + 1 < |rs| {
        assert Chained(im, head, rs, k + 1);
        assert rs[..k + 1][k] == rs[k];
        assert rs[k + 1] in rs;
      }
    }
    if rs != [] {
      assert Chained(im, head, rs, 0);
      assert rs[..0] == [] && rs[0] in rs;
    }
  }
}
