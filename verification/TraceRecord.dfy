/** Decoding the variable data of a trace record into its regions. */
module TraceRecord {
  import opened Options
  import opened Frames

  type Word16 = x: int | 0 <= x < 0x1_0000

  const MAX_WORDS := 3072

  // ----- Words in bytes -----

  function WordOf(b: seq<bv8>): bv64
    requires |b| == 8
  {
    (b[0] as bv64) | ((b[1] as bv64) << 8) | ((b[2] as bv64) << 16) | ((b[3] as bv64) << 24) |
    ((b[4] as bv64) << 32) | ((b[5] as bv64) << 40) | ((b[6] as bv64) << 48) | ((b[7] as bv64) << 56)
  }

  function BytesOf(w: bv64): (b: seq<bv8>)
    ensures |b| == 8
  {
    [(w & 0xff) as bv8, ((w >> 8) & 0xff) as bv8, ((w >> 16) & 0xff) as bv8, ((w >> 24) & 0xff) as bv8,
     ((w >> 32) & 0xff) as bv8, ((w >> 40) & 0xff) as bv8, ((w >> 48) & 0xff) as bv8, ((w >> 56) & 0xff) as bv8]
  }

  lemma WordOfBytes(w: bv64)
    ensures WordOf(BytesOf(w)) == w
  {}

  /** The words in bytes, by index, and the bytes of words. */
  function Words(b: seq<bv8>): (ws: seq<bv64>)
    ensures |ws| == |b| / 8
  {
    seq(|b| / 8, i requires 0 <= i < |b| / 8 => WordOf(b[8 * i..8 * i + 8]))
  }

  function Bytes(ws: seq<bv64>): (b: seq<bv8>)
    ensures |b| == 8 * |ws|
  {
    if ws == [] then [] else Bytes(ws[..|ws| - 1]) + BytesOf(ws[|ws| - 1])
  }

  lemma {:induction false} BytesAt(ws: seq<bv64>, i: nat)
    requires i < |ws|
    ensures Bytes(ws)[8 * i..8 * i + 8] == BytesOf(ws[i])
    decreases |ws|
  {
    hide BytesOf;
    var init := ws[..|ws| - 1];
    if i < |ws| - 1 {
      BytesAt(init, i);
      assert Bytes(ws)[8 * i..8 * i + 8] == Bytes(init)[8 * i..8 * i + 8];
    }
  }

  lemma WordsBytes(ws: seq<bv64>)
    ensures Words(Bytes(ws)) == ws
  {
    hide BytesOf, WordOf, Bytes;
    forall i | 0 <= i < |ws| ensures Words(Bytes(ws))[i] == ws[i] {
      BytesAt(ws, i);
      WordOfBytes(ws[i]);
    }
  }

  // ----- Regions -----

  datatype Span = Span(lo: nat, hi: nat)

  /** A region, absent when its end is 0, and where the next one starts. */
  datatype Step = Bad | Step(span: Option<Span>, pos: Word16)

  /** Rounding up to 8 in 16 bits. */
  function Align(end: Word16): Word16 {
    var x := (end + 7) % 0x1_0000;
    x - x % 8
  }

  function Next(length: nat, pos: Word16, end: Word16): Step {
    if end == 0 then Step(None, pos)
    else if pos > end || end > length then Bad
    else Step(Some(Span(pos, end)), Align(end))
  }

  /** The regions for a list of ends. */
  function Regions(length: nat, pos: Word16, ends: seq<Word16>): Option<seq<Option<Span>>>
    decreases |ends|
  {
    if ends == [] then Some([]) else
    var s := Next(length, pos, ends[0]);
    if s.Bad? then None else
    var rest := Regions(length, s.pos, ends[1..]);
    if rest.None? then None else Some([s.span] + rest.value)
  }

  lemma AlignIff(end: Word16)
    ensures Align(end) >= end <==> end <= 65528
    ensures Align(end) % 8 == 0
  {}

  ghost predicate InBounds(length: nat, from: nat, s: Option<Span>) {
    s.Some? ==> from <= s.value.lo <= s.value.hi <= length && s.value.lo % 8 == 0
  }

  /** Every region ends before a later one starts. */
  ghost predicate Ascending(ss: seq<Option<Span>>) {
    forall i, j | 0 <= i < j < |ss| && ss[i].Some? && ss[j].Some? :: ss[i].value.hi <= ss[j].value.lo
  }

  /** For every list of ends and data of up to 65528 bytes, decoding fails or gives ascending,
      pairwise disjoint, in-bounds regions that start on multiples of 8. */
  lemma {:induction false} RegionsAscend(length: nat, pos: Word16, ends: seq<Word16>)
    requires length <= 65528 && pos % 8 == 0 && Regions(length, pos, ends).Some?
    ensures var ss := Regions(length, pos, ends).value;
            |ss| == |ends| && Ascending(ss) && forall i | 0 <= i < |ss| :: InBounds(length, pos, ss[i])
    decreases |ends|
  {
    hide Align;
    if ends != [] {
      var s := Next(length, pos, ends[0]);
      AlignIff(ends[0]);
      RegionsAscend(length, s.pos, ends[1..]);
      var ss, rest := Regions(length, pos, ends).value, Regions(length, s.pos, ends[1..]).value;
      forall i | 0 <= i < |ss| ensures InBounds(length, pos, ss[i]) && (i > 0 ==> InBounds(length, s.pos, ss[i])) {
        assert i > 0 ==> ss[i] == rest[i - 1];
      }
      forall i, j | 0 <= i < j < |ss| && ss[i].Some? && ss[j].Some? ensures ss[i].value.hi <= ss[j].value.lo {
        if i > 0 { assert ss[i] == rest[i - 1] && ss[j] == rest[j - 1]; }
      }
    }
  }

  /** No region that ends above 65528 is followed by a present one. */
  ghost predicate NoWrap(ends: seq<Word16>) {
    forall i, j | 0 <= i < j < |ends| && ends[i] != 0 && ends[j] != 0 :: ends[i] <= 65528
  }

  lemma TailOf(length: nat, pos: Word16, ends: seq<Word16>)
    requires ends != [] && Regions(length, pos, ends).Some?
    ensures var s := Next(length, pos, ends[0]);
            && s.Step? && Regions(length, s.pos, ends[1..]).Some?
            && Regions(length, pos, ends).value == [s.span] + Regions(length, s.pos, ends[1..]).value
  {
    hide Next;
  }

  lemma {:induction false} RegionCount(length: nat, pos: Word16, ends: seq<Word16>)
    requires Regions(length, pos, ends).Some?
    ensures var ss := Regions(length, pos, ends).value;
            |ss| == |ends| && forall i | 0 <= i < |ends| :: ss[i].Some? <==> ends[i] != 0
    decreases |ends|
  {
    hide Align;
    if ends != [] {
      TailOf(length, pos, ends);
      RegionCount(length, Next(length, pos, ends[0]).pos, ends[1..]);
    }
  }

  lemma {:induction false} NoWrapAscends(length: nat, pos: Word16, ends: seq<Word16>)
    requires Regions(length, pos, ends).Some? && NoWrap(ends)
    ensures var ss := Regions(length, pos, ends).value;
            Ascending(ss) && forall i | 0 <= i < |ss| && ss[i].Some? :: pos <= ss[i].value.lo
    decreases |ends|
  {
    hide Align, Regions;
    if ends == [] {
      assert Regions(length, pos, ends) == Some([]) by { NoRegions(length, pos); }
    } else {
      TailOf(length, pos, ends);
      var s, tail := Next(length, pos, ends[0]), ends[1..];
      var ss, rest := Regions(length, pos, ends).value, Regions(length, s.pos, tail).value;
      NoWrapTail(ends);
      NoWrapAscends(length, s.pos, tail);
      RegionCount(length, s.pos, tail);
      AlignIff(ends[0]);
      forall i | 0 < i < |ss| && ss[i].Some? ensures s.pos <= ss[i].value.lo && (ends[0] != 0 ==> ends[0] <= s.pos) {
        assert ss[i] == rest[i - 1] && ends[i] == tail[i - 1];
      }
      forall i, j | 0 <= i < j < |ss| && ss[i].Some? && ss[j].Some? ensures ss[i].value.hi <= ss[j].value.lo {
        if i > 0 { assert ss[i] == rest[i - 1] && ss[j] == rest[j - 1]; }
      }
    }
  }

  lemma NoRegions(length: nat, pos: Word16)
    ensures Regions(length, pos, []) == Some([])
  {}

  lemma NoWrapTail(ends: seq<Word16>)
    requires ends != [] && NoWrap(ends)
    ensures NoWrap(ends[1..])
  {
    forall i, j | 0 <= i < j < |ends[1..]| && ends[1..][i] != 0 && ends[1..][j] != 0 ensures ends[1..][i] <= 65528 {
      assert ends[i + 1] != 0 && ends[j + 1] != 0;
    }
  }

  /** The first present region starts at the position. */
  lemma {:induction false} StartsAtPosition(length: nat, pos: Word16, ends: seq<Word16>, j: nat) returns (k: nat)
    requires Regions(length, pos, ends).Some? && j < |ends| && ends[j] != 0
    ensures var ss := Regions(length, pos, ends).value; k < |ss| && ss[k].Some? && ss[k].value.lo == pos
    decreases |ends|
  {
    hide Align;
    TailOf(length, pos, ends);
    k := 0;
    if ends[0] == 0 {
      k := StartsAtPosition(length, pos, ends[1..], j - 1);
      k := k + 1;
    }
  }

  lemma {:induction false} WrapBreaks(length: nat, pos: Word16, ends: seq<Word16>, i: nat, j: nat)
    requires Regions(length, pos, ends).Some? && i < j < |ends| && ends[i] > 65528 && ends[j] != 0
    ensures !Ascending(Regions(length, pos, ends).value)
    decreases |ends|
  {
    TailOf(length, pos, ends);
    var s := Next(length, pos, ends[0]);
    var ss, rest := Regions(length, pos, ends).value, Regions(length, s.pos, ends[1..]).value;
    if i > 0 {
      WrapBreaks(length, s.pos, ends[1..], i - 1, j - 1);
      hide Regions, Next;
      var a, b :| 0 <= a < b < |rest| && rest[a].Some? && rest[b].Some? && rest[a].value.hi > rest[b].value.lo;
      assert ss[a + 1] == rest[a] && ss[b + 1] == rest[b];
    } else {
      assert s.pos == 0 by { WrapsToZero(ends[0]); }
      var k := StartsAtPosition(length, 0, ends[1..], j - 1);
      assert ss[k + 1] == rest[k] && ss[0].Some? && ss[0].value.hi == ends[0];
    }
  }

  lemma WrapsToZero(end: Word16)
    requires end > 65528
    ensures Align(end) == 0
  {}

  /** For every list of ends that gives regions, these ascend exactly when no region that ends above
      65528, where rounding up wraps to 0, is followed by a present one. */
  lemma AscendIff(length: nat, ends: seq<Word16>)
    requires Regions(length, 0, ends).Some?
    ensures Ascending(Regions(length, 0, ends).value) <==> NoWrap(ends)
  {
    hide Regions, Ascending;
    if NoWrap(ends) {
      NoWrapAscends(length, 0, ends);
    } else {
      var i, j :| 0 <= i < j < |ends| && ends[i] != 0 && ends[j] != 0 && ends[i] > 65528;
      WrapBreaks(length, 0, ends, i, j);
    }
  }

  lemma OneRegionOnly(length: nat, pos: Word16, end: Word16)
    requires pos <= end <= length && end != 0
    ensures Regions(length, pos, [end]) == Some([Some(Span(pos, end))])
  {
    hide Align;
    assert [end][1..] == [];
    assert Regions(length, Align(end), []) == Some([]);
    assert [Some(Span(pos, end))] + [] == [Some(Span(pos, end))];
  }

  lemma RegionFirst(length: nat, pos: Word16, end: Word16, more: seq<Word16>)
    requires pos <= end <= length && end != 0 && Regions(length, Align(end), more).Some?
    ensures Regions(length, pos, [end] + more) == Some([Some(Span(pos, end))] + Regions(length, Align(end), more).value)
  {
    hide Align;
    assert ([end] + more)[1..] == more;
  }

  // ----- A record gives back what was put into it -----

  function Padding(n: nat): seq<bv8> { seq((8 - n % 8) % 8, _ => 0) }

  function Padded(part: seq<bv8>): (r: seq<bv8>)
    ensures |r| % 8 == 0 && |part| <= |r| < |part| + 8
  {
    part + Padding(|part|)
  }

  function Data(parts: seq<seq<bv8>>): seq<bv8> {
    if parts == [] then [] else Padded(parts[0]) + Data(parts[1..])
  }

  function Ends(parts: seq<seq<bv8>>, pos: nat): seq<Word16>
    requires pos + |Data(parts)| <= 65528
    decreases |parts|
  {
    if parts == [] then [] else
    [if parts[0] == [] then 0 else pos + |parts[0]|] + Ends(parts[1..], pos + |Padded(parts[0])|)
  }

  function Part(raw: seq<bv8>, s: Option<Span>): seq<bv8>
    requires s.Some? ==> s.value.lo <= s.value.hi <= |raw|
  {
    if s.None? then [] else raw[s.value.lo..s.value.hi]
  }

  ghost predicate Recovers(raw: seq<bv8>, pos: Word16, ends: seq<Word16>, parts: seq<seq<bv8>>) {
    var r := Regions(|raw|, pos, ends);
    && r.Some? && |r.value| == |parts|
    && forall i | 0 <= i < |parts| :: PartIs(raw, r.value[i], parts[i])
  }

  ghost predicate PartIs(raw: seq<bv8>, s: Option<Span>, part: seq<bv8>) {
    (s.Some? ==> s.value.lo <= s.value.hi <= |raw|) && Part(raw, s) == part
  }

  lemma AlignPadded(pos: nat, part: seq<bv8>)
    requires pos % 8 == 0 && part != [] && pos + |Padded(part)| <= 65528
    ensures Align(pos + |part|) == pos + |Padded(part)|
  {
    RoundsUp(pos, |part|);
  }

  lemma RoundsUp(pos: nat, n: nat)
    requires pos % 8 == 0
    ensures var x := pos + n + 7; x - x % 8 == pos + n + (8 - n % 8) % 8
  {
    var p, q, r := pos / 8, n / 8, n % 8;
    if r == 0 {
      assert pos + n + 7 == 8 * (p + q) + 7;
    } else {
      assert pos + n + 7 == 8 * (p + q + 1) + (r - 1);
    }
  }

  /** For every list of regions of together at most 65528 bytes, decoding recovers each of them. */
  lemma {:induction false} DecodeRecord(before: seq<bv8>, parts: seq<seq<bv8>>)
    requires |before| % 8 == 0 && |before| + |Data(parts)| <= 65528
    ensures Recovers(before + Data(parts), |before|, Ends(parts, |before|), parts)
    decreases |parts|
  {
    if parts != [] {
      hide Align, Padding, PartIs;
      var part, rest, raw := parts[0], parts[1..], before + Data(parts);
      var pos' := before + Padded(part);
      assert raw == pos' + Data(rest);
      DecodeRecord(pos', rest);
      var ends := Ends(parts, |before|);
      assert ends[1..] == Ends(rest, |pos'|);
      FirstPart(before, part, Data(rest));
      var r, rs := Regions(|raw|, |before|, ends), Regions(|raw|, |pos'|, ends[1..]);
      assert r.Some? && r.value[1..] == rs.value;
      forall i | 0 <= i < |parts| ensures PartIs(raw, r.value[i], parts[i]) {
        if i > 0 { assert r.value[i] == rs.value[i - 1] && parts[i] == rest[i - 1]; }
      }
    }
  }

  lemma FirstPart(before: seq<bv8>, part: seq<bv8>, more: seq<bv8>)
    requires |before| % 8 == 0 && |before| + |Padded(part)| + |more| <= 65528
    ensures var raw, end: Word16 := before + Padded(part) + more, if part == [] then 0 else |before| + |part|;
            var s := Next(|raw|, |before|, end);
            s.Step? && s.pos == |before| + |Padded(part)| && PartIs(raw, s.span, part)
  {
    var raw := before + Padded(part) + more;
    if part != [] {
      AlignPadded(|before|, part);
      hide Align;
      assert raw[|before|..|before| + |part|] == part;
    }
  }

  // ----- One record -----

  predicate IsSpan(s: Option<Span>, length: nat) { s.Some? ==> s.value.lo <= s.value.hi <= length }

  predicate Fits(s: Option<Span>, room: nat) {
    s.Some? && s.value.lo <= s.value.hi ==> (s.value.hi - s.value.lo) % 8 == 0 && (s.value.hi - s.value.lo) / 8 <= room
  }

  /** The words of a region for which there is room, and where the next region starts. */
  function Copied(raw: seq<bv8>, pos: Word16, end: Word16, room: nat): (r: Option<(seq<bv64>, Word16)>)
    ensures r.Some? ==> |r.value.0| <= room
  {
    var s := Next(|raw|, pos, end);
    if s.Bad? || !Fits(s.span, room) then None else Some((Words(Part(raw, s.span)), s.pos))
  }

  function Labels(raw: seq<bv8>, pos: Word16, end: Word16): Option<(seq<bv8>, Word16)> {
    var s := Next(|raw|, pos, end);
    if s.Bad? then None else Some((Part(raw, s.span), s.pos))
  }

  datatype Trace = Trace(context: seq<bv64>, kernel: seq<bv64>, frames: seq<bv64>, thread: seq<bv8>, go: seq<bv8>)

  function Decoded(raw: seq<bv8>, e: seq<Word16>): Option<Trace>
    requires |e| == 5
  {
    var a := Copied(raw, 0, e[0], MAX_WORDS);
    if a.None? then None else
    var b := Copied(raw, a.value.1, e[1], MAX_WORDS - |a.value.0|);
    if b.None? then None else
    var c := Copied(raw, b.value.1, e[2], MAX_WORDS - |a.value.0| - |b.value.0|);
    if c.None? then None else
    var d := Labels(raw, c.value.1, e[3]);
    if d.None? then None else
    var f := Labels(raw, d.value.1, e[4]);
    if f.None? then None else Some(Trace(a.value.0, b.value.0, c.value.0, d.value.0, f.value.0))
  }

  // ----- The decoder -----

  class VariableDataDecoder {
    const raw: seq<bv8>
    const buf: array<bv64>
    var used: nat
    var pos: Word16

    constructor (raw: seq<bv8>, buf: array<bv64>)
      ensures this.raw == raw && this.buf == buf && used == 0 && pos == 0
    {
      this.raw, this.buf, used, pos := raw, buf, 0, 0;
    }

    method DecodeBytes(end: Word16) returns (ok: bool, data: seq<bv8>)
      modifies this`pos
      ensures Labels(raw, old(pos), end) == if ok then Some((data, pos)) else None
      ensures ok ==> data == Part(raw, Next(|raw|, old(pos), end).span)
    {
      hide Align;
      if end == 0 { return true, []; }
      if pos > end || end > |raw| { return false, []; }
      data := raw[pos..end];
      pos := Align(end);
      ok := true;
    }

    /** Copies a region of words to the next free part of the buffer. */
    method CopyUint64(end: Word16) returns (ok: bool, ghost ws: seq<bv64>)
      requires used <= buf.Length
      modifies this, buf
      ensures Copied(raw, old(pos), end, buf.Length - old(used)) == if ok then Some((ws, pos)) else None
      ensures ok ==> used == old(used) + |ws| <= buf.Length && buf[..used] == old(buf[..used]) + ws
    {
      hide Words, Align;
      ghost var s := Next(|raw|, pos, end);
      ws := [];
      var val;
      ok, val := DecodeBytes(end);
      if !ok { return; }
      var n := |val| / 8;
      if |val| % 8 != 0 || n > buf.Length - used { return false, []; }
      ws := Words(val);
      var src := Words(val);
      forall i | 0 <= i < n { buf[used + i] := src[i]; }
      assert buf[..used + n] == old(buf[..used]) + src;
      used := used + n;
    }
  }

  /** Where the words of a trace are in the buffer, and its label data. */
  datatype Loaded = Loaded(context: Span, kernel: Span, frames: Span, thread: seq<bv8>, go: seq<bv8>)

  /** The words of each region are in a part of the buffer of its own, one after the other. */
  ghost predicate Holds(l: Loaded, buf: seq<bv64>, t: Trace) {
    && l.context == Span(0, |t.context|) && l.kernel == Span(|t.context|, |t.context| + |t.kernel|)
    && l.frames == Span(|t.context| + |t.kernel|, |t.context| + |t.kernel| + |t.frames|)
    && l.frames.hi <= |buf| && buf[..l.frames.hi] == t.context + t.kernel + t.frames
    && l.thread == t.thread && l.go == t.go
  }

  method LoadBpfTrace(raw: seq<bv8>, ends: seq<Word16>, buf: array<bv64>) returns (r: Option<Loaded>)
    requires |ends| == 5 && buf.Length == MAX_WORDS
    modifies buf
    ensures r.Some? <==> Decoded(raw, ends).Some?
    ensures r.Some? ==> Holds(r.value, buf[..], Decoded(raw, ends).value)
  {
    hide Copied, Labels;
    var vd := new VariableDataDecoder(raw, buf);
    var ok;
    ghost var cs, ks, fs;
    assert buf[..0] == [];
    ok, cs := vd.CopyUint64(ends[0]);
    if !ok { return None; }
    var c := vd.used;
    ok, ks := vd.CopyUint64(ends[1]);
    if !ok { return None; }
    var k := vd.used;
    ok, fs := vd.CopyUint64(ends[2]);
    if !ok { return None; }
    var f := vd.used;
    var thread, go;
    ok, thread := vd.DecodeBytes(ends[3]);
    if !ok { return None; }
    ok, go := vd.DecodeBytes(ends[4]);
    if !ok { return None; }
    assert [] + cs == cs;
    assert buf[..][..f] == buf[..f];
    return Some(Loaded(Span(0, c), Span(c, k), Span(k, f), thread, go));
  }

  // ----- Regions of a record -----

  function Count(s: Option<Span>): nat
    requires s.Some? ==> s.value.lo <= s.value.hi
  {
    if s.None? then 0 else (s.value.hi - s.value.lo) / 8
  }

  ghost predicate AllInBounds(length: nat, ss: seq<Option<Span>>) {
    forall i | 0 <= i < |ss| :: InBounds(length, 0, ss[i])
  }

  /** The three word regions fit one after the other into the buffer. */
  ghost predicate AllFit(length: nat, ss: seq<Option<Span>>)
    requires |ss| == 5 && AllInBounds(length, ss)
  {
    && Fits(ss[0], MAX_WORDS) && Count(ss[0]) <= MAX_WORDS
    && Fits(ss[1], MAX_WORDS - Count(ss[0])) && Count(ss[0]) + Count(ss[1]) <= MAX_WORDS
    && Fits(ss[2], MAX_WORDS - Count(ss[0]) - Count(ss[1]))
  }

  lemma {:induction false} RegionsInBounds(length: nat, pos: Word16, ends: seq<Word16>)
    requires pos % 8 == 0 && Regions(length, pos, ends).Some?
    ensures |Regions(length, pos, ends).value| == |ends| && AllInBounds(length, Regions(length, pos, ends).value)
    decreases |ends|
  {
    hide Align;
    if ends != [] {
      var s := Next(length, pos, ends[0]);
      AlignIff(ends[0]);
      RegionsInBounds(length, s.pos, ends[1..]);
    }
  }

  /** The five regions of a record, one step at a time. */
  datatype Steps = Steps(a: Step, b: Step, c: Step, d: Step, f: Step)

  function StepsOf(length: nat, e: seq<Word16>): Option<Steps>
    requires |e| == 5
  {
    var a := Next(length, 0, e[0]);
    if a.Bad? then None else
    var b := Next(length, a.pos, e[1]);
    if b.Bad? then None else
    var c := Next(length, b.pos, e[2]);
    if c.Bad? then None else
    var d := Next(length, c.pos, e[3]);
    if d.Bad? then None else
    var f := Next(length, d.pos, e[4]);
    if f.Bad? then None else Some(Steps(a, b, c, d, f))
  }

  lemma RegionsByStep(length: nat, e: seq<Word16>)
    requires |e| == 5
    ensures Regions(length, 0, e).Some? <==> StepsOf(length, e).Some?
    ensures StepsOf(length, e).Some? ==>
              var s := StepsOf(length, e).value;
              && s.a.Step? && s.b.Step? && s.c.Step? && s.d.Step? && s.f.Step?
              && Regions(length, 0, e).value == [s.a.span, s.b.span, s.c.span, s.d.span, s.f.span]
  {
    hide Next, Regions;
    assert e[0..] == e;
    Ended(length, e);
    var a := Next(length, 0, e[0]);
    OneRegion(length, 0, e, 0);
    if a.Step? {
      var b := Next(length, a.pos, e[1]);
      OneRegion(length, a.pos, e, 1);
      if b.Step? {
        var c := Next(length, b.pos, e[2]);
        OneRegion(length, b.pos, e, 2);
        if c.Step? {
          var d := Next(length, c.pos, e[3]);
          OneRegion(length, c.pos, e, 3);
          if d.Step? {
            var f := Next(length, d.pos, e[4]);
            OneRegion(length, d.pos, e, 4);
            if f.Step? {
              assert [a.span] + ([b.span] + ([c.span] + ([d.span] + ([f.span] + [])))) ==
                     [a.span, b.span, c.span, d.span, f.span];
            }
          }
        }
      }
    }
  }

  lemma DecodedByStep(raw: seq<bv8>, e: seq<Word16>)
    requires |e| == 5
    ensures Decoded(raw, e).Some? ==> StepsOf(|raw|, e).Some?
    ensures StepsOf(|raw|, e).Some? ==>
              var s := StepsOf(|raw|, e).value;
              && s.a.Step? && s.b.Step? && s.c.Step? && s.d.Step? && s.f.Step?
              && AllInBounds(|raw|, [s.a.span, s.b.span, s.c.span, s.d.span, s.f.span])
              && (Decoded(raw, e).Some? <==> AllFit(|raw|, [s.a.span, s.b.span, s.c.span, s.d.span, s.f.span]))
              && (Decoded(raw, e).Some? ==>
                    Decoded(raw, e).value == Trace(Words(Part(raw, s.a.span)), Words(Part(raw, s.b.span)),
                                                   Words(Part(raw, s.c.span)),
                                                   Part(raw, s.d.span), Part(raw, s.f.span)))
  {
    hide Words, Align, Regions;
    RegionsByStep(|raw|, e);
    if StepsOf(|raw|, e).Some? { RegionsInBounds(|raw|, 0, e); }
    hide Next;
  }

  lemma OneRegion(length: nat, pos: Word16, e: seq<Word16>, i: nat)
    requires i < |e|
    ensures var s := Next(length, pos, e[i]);
            Regions(length, pos, e[i..]) == if s.Bad? then None
              else Prepended(s.span, Regions(length, s.pos, e[i + 1..]))
  {
    hide Next;
    assert e[i..][1..] == e[i + 1..];
  }

  function Prepended(s: Option<Span>, r: Option<seq<Option<Span>>>): Option<seq<Option<Span>>> {
    if r.None? then None else Some([s] + r.value)
  }

  lemma Ended(length: nat, e: seq<Word16>)
    ensures forall pos :: Regions(length, pos, e[|e|..]) == Some([])
  {}

  /** Decoding succeeds exactly when the ends give regions whose words fit, and then yields their
      contents. */
  lemma DecodedRegions(raw: seq<bv8>, e: seq<Word16>)
    requires |e| == 5
    ensures Decoded(raw, e).Some? ==> Regions(|raw|, 0, e).Some?
    ensures Regions(|raw|, 0, e).Some? ==>
              var ss := Regions(|raw|, 0, e).value;
              && |ss| == 5 && AllInBounds(|raw|, ss) && (Decoded(raw, e).Some? <==> AllFit(|raw|, ss))
              && (Decoded(raw, e).Some? ==>
                    Decoded(raw, e).value == Trace(Words(Part(raw, ss[0])), Words(Part(raw, ss[1])),
                                                   Words(Part(raw, ss[2])),
                                                   Part(raw, ss[3]), Part(raw, ss[4])))
  {
    hide Words, Regions, Decoded, StepsOf, AllFit, AllInBounds;
    RegionsByStep(|raw|, e);
    DecodedByStep(raw, e);
  }

  /** For every record made of context values, kernel frames, frames and labels that fits, decoding
      and walking its frame data gives back exactly those. */
  lemma RecordRoundTrip(cs: seq<bv64>, ks: seq<bv64>, fs: seq<Frame>, thread: seq<bv8>, go: seq<bv8>)
    requires (forall f | f in fs :: WellFormed(f)) && |cs| + |ks| + |Joined(fs)| <= MAX_WORDS
    requires |Data([Bytes(cs), Bytes(ks), Bytes(Joined(fs)), thread, go])| <= 65528
    ensures var parts := [Bytes(cs), Bytes(ks), Bytes(Joined(fs)), thread, go];
            && |Ends(parts, 0)| == 5
            && Decoded(Data(parts), Ends(parts, 0)) == Some(Trace(cs, ks, Joined(fs), thread, go))
            && Split(Joined(fs)) == Some(fs)
  {
    hide Bytes, Words, Regions, Ends, Data, Split, Joined, WellFormed, Decoded;
    var parts := [Bytes(cs), Bytes(ks), Bytes(Joined(fs)), thread, go];
    var raw, e := Data(parts), Ends(parts, 0);
    assert [] + raw == raw;
    EndsCount(parts, 0);
    DecodeRecord([], parts);
    WordsBytes(cs);
    WordsBytes(ks);
    WordsBytes(Joined(fs));
    SplitJoined(fs);
    DecodedRegions(raw, e);
    var ss := Regions(|raw|, 0, e).value;
    assert PartIs(raw, ss[0], parts[0]) && PartIs(raw, ss[1], parts[1]) && PartIs(raw, ss[2], parts[2]);
    assert PartIs(raw, ss[3], parts[3]) && PartIs(raw, ss[4], parts[4]);
    PartCount(raw, ss[0], |cs|);
    PartCount(raw, ss[1], |ks|);
    PartCount(raw, ss[2], |Joined(fs)|);
  }

  // ----- A record whose label regions overlap -----

  const OVERLAPPING: seq<Word16> := [0, 0, 0, 65532, 10]

  lemma RegionAbsent(length: nat, pos: Word16, more: seq<Word16>)
    requires Regions(length, pos, more).Some?
    ensures Regions(length, pos, [0] + more) == Some([None] + Regions(length, pos, more).value)
  {
    assert ([0] + more)[1..] == more;
  }

  lemma OverlappingRegions()
    ensures Regions(65535, 0, OVERLAPPING) == Some([None, None, None, Some(Span(0, 65532)), Some(Span(0, 10))])
  {
    hide Regions;
    WrapsToZero(65532);
    OneRegionOnly(65535, 0, 10);
    RegionFirst(65535, 0, 65532, [10]);
    assert [65532] + [10] == [65532, 10];
    var labels := [Some(Span(0, 65532)), Some(Span(0, 10))];
    assert [Some(Span(0, 65532))] + [Some(Span(0, 10))] == labels;
    RegionAbsent(65535, 0, [65532, 10]);
    RegionAbsent(65535, 0, [0] + [65532, 10]);
    RegionAbsent(65535, 0, [0] + ([0] + [65532, 10]));
    assert [0] + ([0] + ([0] + [65532, 10])) == OVERLAPPING;
    assert [None] + ([None] + ([None] + labels)) == [None, None, None, Some(Span(0, 65532)), Some(Span(0, 10))];
  }

  /** A record of 65535 bytes with thread labels up to 65532 and Go labels up to 10 decodes, and the Go
      labels are the first bytes of the thread labels. */
  lemma LabelsOverlap(raw: seq<bv8>)
    requires |raw| == 65535
    ensures Decoded(raw, OVERLAPPING) == Some(Trace([], [], [], raw[..65532], raw[..10]))
  {
    hide Regions, Decoded, Words;
    OverlappingRegions();
    DecodedRegions(raw, OVERLAPPING);
    NoWords();
  }

  lemma NoWords()
    ensures Words([]) == []
  {}

  lemma {:induction false} EndsCount(parts: seq<seq<bv8>>, pos: nat)
    requires pos + |Data(parts)| <= 65528
    ensures |Ends(parts, pos)| == |parts|
    decreases |parts|
  {
    if parts != [] { EndsCount(parts[1..], pos + |Padded(parts[0])|); }
  }

  lemma PartCount(raw: seq<bv8>, s: Option<Span>, n: nat)
    requires IsSpan(s, |raw|) && |Part(raw, s)| == 8 * n
    ensures Count(s) == n && forall room: nat | n <= room :: Fits(s, room)
  {}
}
