/** The binary search of findMappingForTrace, from a file address to a mapping. */
module MappingSearch {
  import opened Words
  import opened Options
  import opened ProcessModel
  import opened ProcessTable

  /** The condition of the binary search. */
  predicate Past(m: Mapping, file: FileID, a: Word) {
    if m.frame.file != file then m.frame.file >= file else m.frame.start >= a
  }

  predicate Holds(m: Mapping, file: FileID, a: Word) {
    m.frame.file == file && m.frame.start < a < m.frame.end
  }

  /** The mapping of the file around the address, found by looking at every mapping. */
  function Scan(ms: seq<Mapping>, file: FileID, a: Word): (r: Option<Frame>)
    ensures r.Some? <==> exists m :: m in ms && Holds(m, file, a)
    ensures r.Some? ==> exists m :: m in ms && Holds(m, file, a) && r.value == m.frame
  {
    if ms == [] then None
    else if Holds(ms[0], file, a) then Some(ms[0].frame)
    else Scan(ms[1..], file, a)
  }

  /** Where the search in [i, j) ends. */
  function Cut(ms: seq<Mapping>, file: FileID, a: Word, i: nat, j: nat): (c: nat)
    requires i <= j <= |ms|
    ensures i <= c <= j
    ensures (i < c ==> !Past(ms[c - 1], file, a)) && (c < j ==> Past(ms[c], file, a))
    decreases j - i
  {
    if i == j then i else
    var h := (i + j) / 2;
    if Past(ms[h], file, a) then Cut(ms, file, a, i, h) else Cut(ms, file, a, h + 1, j)
  }

  /** The candidate before the cut, when it is a true match. */
  function Search(ms: seq<Mapping>, file: FileID, a: Word): (r: Option<Frame>)
    ensures r.Some? ==> exists m :: m in ms && Holds(m, file, a) && r.value == m.frame
  {
    var c := Cut(ms, file, a, 0, |ms|);
    if c > 0 && Holds(ms[c - 1], file, a) then Some(ms[c - 1].frame) else None
  }

  /** The binary search never answers with a mapping that does not hold the address. */
  method FindMapping(ms: seq<Mapping>, file: FileID, a: Word) returns (r: Option<Frame>)
    ensures r == Search(ms, file, a)
    ensures r.Some? ==> exists m :: m in ms && Holds(m, file, a) && r.value == m.frame
  {
    var i, j := 0, |ms|;
    while i < j
      invariant 0 <= i <= j <= |ms| && Cut(ms, file, a, i, j) == Cut(ms, file, a, 0, |ms|)
    {
      var h := (i + j) / 2;
      if !Past(ms[h], file, a) { i := h + 1; } else { j := h; }
    }
    if i > 0 {
      var f := ms[i - 1].frame;
      if f.file == file && f.start <= a < f.end { return Some(f); }
    }
    return None;
  }

  // ----- What the search misses -----

  ghost predicate InOrder(ms: seq<Mapping>) {
    forall i, j | 0 <= i < j < |ms| :: Before(ms[i], ms[j])
  }

  /** No mapping of the file that starts below the address stands after one that does not. */
  ghost predicate Straight(ms: seq<Mapping>, file: FileID, a: Word) {
    forall i, j | 0 <= i < j < |ms| && ms[i].frame.file == file == ms[j].frame.file && ms[j].frame.start < a ::
      ms[i].frame.start < a
  }

  /** Mapping i holds the address, but mapping j is the last of the file to start below it, and ends there. */
  ghost predicate Hides(ms: seq<Mapping>, file: FileID, a: Word, i: nat, j: nat) {
    && i < j < |ms| && Holds(ms[i], file, a)
    && ms[j].frame.file == file && ms[j].frame.start < a && ms[j].frame.end <= a
    && forall k | j < k < |ms| && ms[k].frame.file == file :: ms[k].frame.start >= a
  }

  lemma PastLater(ms: seq<Mapping>, file: FileID, a: Word, i: nat, j: nat)
    requires InOrder(ms) && Straight(ms, file, a) && i <= j < |ms| && Past(ms[i], file, a)
    ensures Past(ms[j], file, a)
  {
    assert i < j ==> Before(ms[i], ms[j]);
  }

  lemma HiddenMissed(ms: seq<Mapping>, file: FileID, a: Word, i: nat, j: nat)
    requires InOrder(ms) && Straight(ms, file, a) && Hides(ms, file, a, i, j)
    ensures Search(ms, file, a).None? && Scan(ms, file, a).Some?
  {
    hide Straight;
    var c := Cut(ms, file, a, 0, |ms|);
    assert ms[i] in ms;
    forall k | j < k < |ms| ensures Past(ms[k], file, a) { assert Before(ms[j], ms[k]); }
    if c <= j { PastLater(ms, file, a, c, j); }
  }

  lemma AfterHolder(ms: seq<Mapping>, file: FileID, a: Word, i: nat)
    requires InOrder(ms) && Straight(ms, file, a) && i < |ms| && Holds(ms[i], file, a)
    ensures Cut(ms, file, a, 0, |ms|) > i
  {
    hide InOrder, Straight;
    var c := Cut(ms, file, a, 0, |ms|);
    if c <= i { PastLater(ms, file, a, c, i); }
  }

  lemma PastCut(ms: seq<Mapping>, file: FileID, a: Word, k: nat)
    requires InOrder(ms) && Straight(ms, file, a) && Cut(ms, file, a, 0, |ms|) <= k < |ms|
    ensures Past(ms[k], file, a)
  {
    hide InOrder, Straight, Past;
    PastLater(ms, file, a, Cut(ms, file, a, 0, |ms|), k);
  }

  lemma MissedHidden(ms: seq<Mapping>, file: FileID, a: Word) returns (i: nat, j: nat)
    requires InOrder(ms) && Straight(ms, file, a) && Search(ms, file, a).None? && Scan(ms, file, a).Some?
    ensures Hides(ms, file, a, i, j)
  {
    hide InOrder, Straight, Cut, Scan;
    i :| 0 <= i < |ms| && Holds(ms[i], file, a);
    AfterHolder(ms, file, a, i);
    j := Cut(ms, file, a, 0, |ms|) - 1;
    assert !Past(ms[j], file, a) && !Holds(ms[j], file, a);
    InFileOrder(ms, i, j);
    forall k | j < k < |ms| ensures Past(ms[k], file, a) { PastCut(ms, file, a, k); }
  }

  lemma InFileOrder(ms: seq<Mapping>, i: nat, j: nat)
    requires InOrder(ms) && i < j < |ms|
    ensures ms[i].frame.file <= ms[j].frame.file
  {
    assert Before(ms[i], ms[j]);
  }

  /** Where the file's mappings fall on both sides of the address in list order, the search misses an
      address that a scan finds exactly when a later mapping of the file hides the one around it. */
  lemma MissedIff(ms: seq<Mapping>, file: FileID, a: Word)
    requires InOrder(ms) && Straight(ms, file, a)
    ensures Search(ms, file, a).None? && Scan(ms, file, a).Some? <==> exists i, j :: Hides(ms, file, a, i, j)
  {
    hide Search, Scan, InOrder, Straight, Hides;
    if i, j :| Hides(ms, file, a, i, j) { HiddenMissed(ms, file, a, i, j); }
    if Search(ms, file, a).None? && Scan(ms, file, a).Some? { var i, j := MissedHidden(ms, file, a); }
  }

  // ----- When it finds everything -----

  /** Later mappings of a file are later parts of it. */
  ghost predicate Ascends(ms: seq<Mapping>) {
    forall i, j | 0 <= i < j < |ms| && ms[i].frame.file == ms[j].frame.file ::
      ms[i].frame.start < ms[j].frame.start && ms[i].frame.end <= ms[j].frame.start
  }

  /** The search is as good as a scan. */
  ghost predicate FindsAll(ms: seq<Mapping>) {
    forall file, a: Word :: Search(ms, file, a) == Scan(ms, file, a)
  }

  lemma AscendsFinds(ms: seq<Mapping>)
    requires InOrder(ms) && Ascends(ms)
    ensures FindsAll(ms)
  {
    hide Search, Scan, InOrder;
    forall file, a: Word ensures Search(ms, file, a) == Scan(ms, file, a) {
      assert !exists i, j :: Hides(ms, file, a, i, j);
      MissedIff(ms, file, a);
      forall m, n | m in ms && n in ms && Holds(m, file, a) && Holds(n, file, a) ensures m == n {}
    }
  }

  /** Frames of whole, plain ranges, and each part of a file mapped once. */
  ghost predicate MappedOnce(ms: seq<Mapping>) {
    && (forall m | m in ms :: m.frame.start + 1 < m.frame.end)
    && forall i, j | 0 <= i < j < |ms| && ms[i].frame.file == ms[j].frame.file ::
         ms[i].frame.end <= ms[j].frame.start || ms[j].frame.end <= ms[i].frame.start
  }

  /** A found mapping is followed by a later part of the file. */
  lemma FindsNext(ms: seq<Mapping>, i: nat)
    requires MappedOnce(ms) && FindsAll(ms) && i + 1 < |ms| && ms[i].frame.file == ms[i + 1].frame.file
    ensures ms[i].frame.start < ms[i + 1].frame.start
  {
    var file, a := ms[i].frame.file, ms[i].frame.start + 1;
    var c := Cut(ms, file, a, 0, |ms|);
    assert ms[i] in ms && Holds(ms[i], file, a);
    assert Search(ms, file, a) == Scan(ms, file, a);
    assert Holds(ms[c - 1], file, a);
    assert c - 1 == i;
  }

  lemma {:induction false} FindsLater(ms: seq<Mapping>, i: nat, j: nat)
    requires InOrder(ms) && MappedOnce(ms) && FindsAll(ms) && i < j < |ms| && ms[i].frame.file == ms[j].frame.file
    ensures ms[i].frame.start < ms[j].frame.start
    decreases j - i
  {
    hide FindsAll, MappedOnce;
    InFileOrder(ms, j - 1, j);
    if i < j - 1 { InFileOrder(ms, i, j - 1); }
    if i < j - 1 { FindsLater(ms, i, j - 1); }
    FindsNext(ms, j - 1);
  }

  /** For lists in the order of the sort that map each part of a file once, the search is as good as a
      scan for all files and addresses exactly when mappings of a file ascend in the file as they do
      in memory. */
  lemma FindsAllIff(ms: seq<Mapping>)
    requires InOrder(ms) && MappedOnce(ms)
    ensures FindsAll(ms) <==> Ascends(ms)
  {
    hide FindsAll, InOrder;
    if Ascends(ms) { AscendsFinds(ms); }
    if FindsAll(ms) {
      forall i, j | 0 <= i < j < |ms| && ms[i].frame.file == ms[j].frame.file
        ensures ms[i].frame.start < ms[j].frame.start && ms[i].frame.end <= ms[j].frame.start
      {
        FindsLater(ms, i, j);
        assert ms[j] in ms;
      }
    }
  }

  /** Every file is loaded at one bias. */
  ghost predicate OneBias(ms: seq<Mapping>) {
    forall m, n | m in ms && n in ms && m.frame.file == n.frame.file ::
      m.vaddr - m.frame.start == n.vaddr - n.frame.start
  }

  lemma FrameEnd(m: Mapping)
    requires ValidMapping(m)
    ensures m.frame.end <= m.frame.start + m.length
  {}

  lemma Distinct(ms: seq<Mapping>, i: nat, j: nat)
    requires GoodMaps(ms) && i < j < |ms|
    ensures Apart(ms[i], ms[j]) && ValidMapping(ms[i]) && ValidMapping(ms[j])
  {
    Twice(ms, i, j);
  }

  lemma Twice(ms: seq<Mapping>, i: nat, j: nat)
    requires i < j < |ms|
    ensures ms[i] == ms[j] ==> multiset(ms)[ms[i]] >= 2
  {
    assert ms == ms[..i] + [ms[i]] + ms[i + 1..j] + [ms[j]] + ms[j + 1..];
  }

  /** So it is when every file is loaded at one bias. */
  lemma OneBiasFinds(ms: seq<Mapping>)
    requires GoodMaps(ms) && InOrder(ms) && OneBias(ms)
    ensures Ascends(ms) && FindsAll(ms)
  {
    hide GoodMaps, FindsAll;
    forall i, j | 0 <= i < j < |ms| && ms[i].frame.file == ms[j].frame.file
      ensures ms[i].frame.start < ms[j].frame.start && ms[i].frame.end <= ms[j].frame.start
    {
      assert Before(ms[i], ms[j]);
      Distinct(ms, i, j);
      FrameEnd(ms[i]);
    }
    AscendsFinds(ms);
  }

  // ----- Lists in which it misses -----

  const WHOLE := Mapping(4096, 8192, OID(1, 1), Frame(7, 0, 8192))
  const COPY := Mapping(20480, 4096, OID(1, 1), Frame(7, 0, 4096))

  /** A file mapped twice: the later copy hides the end of the earlier one. */
  lemma TwoBiases()
    ensures GoodMaps([WHOLE, COPY]) && InOrder([WHOLE, COPY])
    ensures Search([WHOLE, COPY], 7, 6000) == None && Scan([WHOLE, COPY], 7, 6000) == Some(WHOLE.frame)
  {
    var ms := [WHOLE, COPY];
    assert multiset(ms) == multiset{WHOLE, COPY};
    assert Hides(ms, 7, 6000, 0, 1);
    HiddenMissed(ms, 7, 6000, 0, 1);
  }

  const FIRST := Mapping(4096, 4096, OID(1, 1), Frame(7, 0, 4096))
  const FAR := Mapping(12288, 4096, OID(1, 1), Frame(7, 16384, 20480))
  const NEAR := Mapping(20480, 4096, OID(1, 1), Frame(7, 8192, 12288))
  const OTHER := Mapping(40960, 4096, OID(1, 2), Frame(8, 0, 4096))

  lemma GoodExamples()
    ensures GoodMaps([FIRST, FAR, NEAR]) && GoodMaps([FIRST, FAR, NEAR, OTHER])
  {
    assert multiset([FIRST, FAR, NEAR]) == multiset{FIRST, FAR, NEAR};
    assert multiset([FIRST, FAR, NEAR, OTHER]) == multiset{FIRST, FAR, NEAR, OTHER};
  }

  /** Where a file's mappings are out of order, whether an address is found depends on the mappings of
      other files: the middle of the list moves. */
  lemma OutOfOrder()
    ensures var ms, more := [FIRST, FAR, NEAR], [FIRST, FAR, NEAR, OTHER];
            && GoodMaps(ms) && InOrder(ms) && GoodMaps(more) && InOrder(more) && !Straight(ms, 7, 9000)
            && Search(ms, 7, 9000) == None && Search(more, 7, 9000) == Some(NEAR.frame) == Scan(ms, 7, 9000)
  {
    var ms, more := [FIRST, FAR, NEAR], [FIRST, FAR, NEAR, OTHER];
    GoodExamples();
    hide GoodMaps;
    assert Cut(ms, 7, 9000, 0, 3) == Cut(ms, 7, 9000, 0, 1) == 1;
    assert Cut(more, 7, 9000, 0, 4) == Cut(more, 7, 9000, 3, 4) == 3;
    assert NEAR in ms;
  }
}
