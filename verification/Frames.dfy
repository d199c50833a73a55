/** Frames as eBPF lays them out: a header word with type, flags, length and data, then variables. */
module Frames {
  import opened Options

  function Header(ty: bv8, flags: bv8, length: bv8, data: bv64): bv64 {
    (((ty as bv64) << 60) | ((flags as bv64) << 56) | ((length as bv64) << 52)) | data
  }

  function TypeOf(h: bv64): bv8 { (h >> 60) as bv8 }

  function FlagsOf(h: bv64): bv8 { ((h >> 56) & 0xf) as bv8 }

  function LengthOf(h: bv64): bv8 { (((h >> 52) & 0xff) as bv8) & 0xf }

  function DataOf(h: bv64): bv64 { h & 0xf_ffff_ffff_ffff }

  /** A header gives back the fields it was made from exactly when each fits its bits. */
  lemma HeaderRoundTrip(ty: bv8, flags: bv8, length: bv8, data: bv64)
    ensures var h := Header(ty, flags, length, data);
            (TypeOf(h) == ty && FlagsOf(h) == flags && LengthOf(h) == length && DataOf(h) == data)
            <==> ty < 16 && flags < 16 && length < 16 && data < 0x10_0000_0000_0000
  {}

  // ----- Walking frame data -----

  type Frame = seq<bv64>

  function Size(h: bv64): nat { LengthOf(h) as nat }

  predicate WellFormed(f: Frame) { f != [] && Size(f[0]) == |f| }

  /** The frames of a sequence of words; none when a length is 0 or reaches past the end. */
  function Split(ws: seq<bv64>): Option<seq<Frame>>
    decreases |ws|
  {
    if ws == [] then Some([]) else
    var n := Size(ws[0]);
    if n == 0 || n > |ws| then None else
    var rest := Split(ws[n..]);
    if rest.None? then None else Some([ws[..n]] + rest.value)
  }

  function Joined(fs: seq<Frame>): seq<bv64> { if fs == [] then [] else fs[0] + Joined(fs[1..]) }

  lemma {:induction false} SplitJoined(fs: seq<Frame>)
    requires forall f | f in fs :: WellFormed(f)
    ensures Split(Joined(fs)) == Some(fs)
    decreases |fs|
  {
    hide LengthOf;
    if fs != [] {
      var f, ws := fs[0], Joined(fs);
      assert f in fs;
      SplitJoined(fs[1..]);
      assert ws[0] == f[0] && ws[..|f|] == f && ws[|f|..] == Joined(fs[1..]);
      assert fs == [f] + fs[1..];
    }
  }

  lemma {:induction false} JoinedSplit(ws: seq<bv64>)
    requires Split(ws).Some?
    ensures Joined(Split(ws).value) == ws && forall f | f in Split(ws).value :: WellFormed(f)
    decreases |ws|
  {
    hide LengthOf;
    if ws != [] {
      var n := Size(ws[0]);
      JoinedSplit(ws[n..]);
      var fs := Split(ws).value;
      assert fs[1..] == Split(ws[n..]).value;
      assert ws == ws[..n] + ws[n..];
    }
  }

  /** The loop over a trace's frame data. A length of 0 leaves no header to read, and one past the end
      cannot be sliced: the program panics, exactly when the data does not split into frames. */
  method WalkFrames(data: seq<bv64>) returns (frames: seq<Frame>, panics: bool)
    ensures panics <==> Split(data).None?
    ensures !panics ==> frames == Split(data).value && Joined(frames) == data
    ensures (forall f | f in frames :: WellFormed(f)) && Joined(frames) <= data
  {
    hide Size, Split, Joined, Prepend;
    frames, panics := [], false;
    var rest := data;
    NothingWalked(data);
    while rest != []
      invariant Split(data) == Prepend(frames, Split(rest))
      invariant Joined(frames) + rest == data && forall f | f in frames :: WellFormed(f)
      decreases |rest|
    {
      var n := Size(rest[0]);
      SplitOne(rest);
      Unprepended(frames, Split(rest));
      if n == 0 || n > |rest| { return frames, true; }
      PrependOne(frames, rest[..n], Split(rest[n..]));
      JoinedAppend(frames, rest[..n]);
      assert Joined(frames) + rest == Joined(frames) + rest[..n] + rest[n..];
      frames := frames + [rest[..n]];
      rest := rest[n..];
    }
    AllWalked(frames);
  }

  lemma NothingWalked(data: seq<bv64>)
    ensures Split(data) == Prepend([], Split(data)) && Joined([]) + data == data
  {
    hide Split;
    if Split(data).Some? { assert [] + Split(data).value == Split(data).value; }
  }

  lemma AllWalked(fs: seq<Frame>)
    ensures Prepend(fs, Split([])) == Some(fs) && Joined(fs) + [] == Joined(fs)
  {
    assert fs + [] == fs;
  }

  lemma Unprepended(fs: seq<Frame>, r: Option<seq<Frame>>)
    ensures Prepend(fs, r).None? <==> r.None?
  {}

  lemma SplitOne(ws: seq<bv64>)
    requires ws != []
    ensures var n := Size(ws[0]);
            if n == 0 || n > |ws| then Split(ws) == None
            else var r := Split(ws[n..]); Split(ws) == if r.None? then None else Some([ws[..n]] + r.value)
  {
    hide Size;
  }

  function Prepend(fs: seq<Frame>, r: Option<seq<Frame>>): Option<seq<Frame>> {
    if r.None? then None else Some(fs + r.value)
  }

  lemma PrependOne(fs: seq<Frame>, f: Frame, r: Option<seq<Frame>>)
    ensures Prepend(fs, if r.None? then None else Some([f] + r.value)) == Prepend(fs + [f], r)
  {
    if r.Some? { assert fs + ([f] + r.value) == (fs + [f]) + r.value; }
  }

  lemma {:induction false} JoinedAppend(fs: seq<Frame>, f: Frame)
    ensures Joined(fs + [f]) == Joined(fs) + f
    decreases |fs|
  {
    if fs == [] {
      assert [f][1..] == [] && f + [] == f;
    } else {
      assert (fs + [f])[1..] == fs[1..] + [f];
      JoinedAppend(fs[1..], f);
    }
  }
}
