/** Length-prefixed frames: the codec, in C and in Rust, and what a stream of bytes makes of them. */
module Framing {
  import opened Basics
  import opened Endian

  const FRAME_HEADER := 4
  const MAX_FRAME := 8192

  function FrameWrap(payload: seq<byte>): Option<seq<byte>> {
    if |payload| > MAX_FRAME then None else Some(ToBytes(|payload|, FRAME_HEADER) + payload)
  }

  datatype Split = NeedMore | TooLong | Frame(payload: seq<byte>, total: nat)

  function FrameSplit(s: seq<byte>): (r: Split)
    ensures r.Frame? ==> FRAME_HEADER <= r.total <= |s|
  {
    if |s| < FRAME_HEADER then NeedMore
    else
      var declared := BigEndian(s[..FRAME_HEADER]);
      if declared > MAX_FRAME then TooLong
      else if |s| - FRAME_HEADER < declared then NeedMore
      else Frame(s[FRAME_HEADER..FRAME_HEADER + declared], FRAME_HEADER + declared)
  }

  lemma SplitsWrapped(payload: seq<byte>, rest: seq<byte>)
    requires |payload| <= MAX_FRAME
    ensures FrameSplit(FrameWrap(payload).value + rest) == Frame(payload, FRAME_HEADER + |payload|)
  {
    hide ToBytes, BigEndian, Pow256;
    var h := ToBytes(|payload|, FRAME_HEADER);
    var s := h + payload + rest;
    Pow256Values();
    BytesOfNumber(|payload|, FRAME_HEADER);
    HeaderLength(|payload|);
    assert s[..FRAME_HEADER] == h;
    assert s[FRAME_HEADER..FRAME_HEADER + |payload|] == payload;
  }

  lemma HeaderLength(n: nat)
    ensures |ToBytes(n, FRAME_HEADER)| == FRAME_HEADER
  {}

  /** Only a wrapped payload splits off. */
  lemma OnlyWrappedSplits(s: seq<byte>)
    ensures FrameSplit(s).Frame? ==>
            var f := FrameSplit(s); |f.payload| <= MAX_FRAME && s == FrameWrap(f.payload).value + s[f.total..]
  {
    hide ToBytes, BigEndian;
    if FrameSplit(s).Frame? {
      var h := s[..FRAME_HEADER];
      NumberOfBytes(h);
      assert s == h + s[FRAME_HEADER..FrameSplit(s).total] + s[FrameSplit(s).total..];
    }
  }

  /** The four bytes in front, high one first, announce at most 8192: that many are a frame, more an error. */
  lemma PrefixDecides(s: seq<byte>)
    requires |s| >= 4
    ensures var tooLong := s[0] != 0 || s[1] != 0 || 256 * (s[2] as int) + s[3] > 8192;
            var n := 256 * (s[2] as int) + s[3];
            && (FrameSplit(s).TooLong? <==> tooLong)
            && (FrameSplit(s).NeedMore? <==> !tooLong && |s| < 4 + n)
            && (!tooLong && |s| >= 4 + n ==> FrameSplit(s) == Frame(s[4..4 + n], 4 + n))
  {
    hide BigEndian;
    var h := s[..4];
    BigEndian4(h);
    assert forall i :: 0 <= i < 4 ==> h[i] == s[i];
  }

  /** A verdict other than "need more" stands whatever follows. */
  lemma SplitGrows(s: seq<byte>, t: seq<byte>)
    requires !FrameSplit(s).NeedMore?
    ensures FrameSplit(s + t) == FrameSplit(s)
    ensures FrameSplit(s).Frame? ==> (s + t)[FrameSplit(s).total..] == s[FrameSplit(s).total..] + t
  {
    hide BigEndian;
    assert (s + t)[..FRAME_HEADER] == s[..FRAME_HEADER];
    if FrameSplit(s).Frame? {
      var n := FrameSplit(s).total;
      assert (s + t)[FRAME_HEADER..n] == s[FRAME_HEADER..n];
    }
  }

  // ---------------------------------------------------------------- what a connection makes of its bytes

  /** The payloads handed to the session, the bytes kept for later, and whether the connection was given up. */
  datatype Drained = Drained(handed: seq<seq<byte>>, kept: seq<byte>, failed: bool)

  /** Once the connection has failed nothing is kept: nobody reads it any more. */
  function Drain(s: seq<byte>): Drained
    decreases |s|
  {
    match FrameSplit(s)
    case NeedMore => Drained([], s, false)
    case TooLong => Drained([], [], true)
    case Frame(payload, total) =>
      var d := Drain(s[total..]);
      d.(handed := [payload] + d.handed)
  }

  function Feed(d: Drained, piece: seq<byte>): Drained {
    if d.failed then d
    else
      var e := Drain(d.kept + piece);
      e.(handed := d.handed + e.handed)
  }

  function FeedAll(d: Drained, pieces: seq<seq<byte>>): Drained
    decreases |pieces|
  {
    if pieces == [] then d else FeedAll(Feed(d, pieces[0]), pieces[1..])
  }

  const OPENED := Drained([], [], false)

  lemma {:induction false} DrainContinues(s: seq<byte>, t: seq<byte>)
    ensures Drain(s + t) == Feed(Drain(s), t)
    decreases |s|
  {
    hide FrameSplit;
    match FrameSplit(s)
    case NeedMore => assert [] + Drain(s + t).handed == Drain(s + t).handed;
    case TooLong => SplitGrows(s, t);
    case Frame(payload, total) =>
      SplitGrows(s, t);
      DrainContinues(s[total..], t);
      var d := Drain(s[total..]);
      if !d.failed {
        var e := Drain(d.kept + t);
        assert [payload] + (d.handed + e.handed) == [payload] + d.handed + e.handed;
      }
  }

  lemma FeedContinues(d: Drained, p: seq<byte>, q: seq<byte>)
    ensures Feed(Feed(d, p), q) == Feed(d, p + q)
  {
    hide Drain;
    if !d.failed {
      DrainContinues(d.kept + p, q);
      assert d.kept + p + q == d.kept + (p + q);
      var e := Drain(d.kept + p);
      if !e.failed {
        var f := Drain(e.kept + q);
        assert d.handed + (e.handed + f.handed) == d.handed + e.handed + f.handed;
      }
    }
  }

  /** How the network cuts the stream makes no difference to what the session is handed. */
  lemma {:induction false} PartitionIndependent(d: Drained, pieces: seq<seq<byte>>)
    requires d.failed || Drain(d.kept) == Drained([], d.kept, false)
    ensures FeedAll(d, pieces) == Feed(d, Concat(pieces))
    decreases |pieces|
  {
    hide Drain;
    if pieces == [] {
      assert d.kept + [] == d.kept && d.handed + [] == d.handed;
    } else {
      FeedContinues(d, pieces[0], Concat(pieces[1..]));
      if !d.failed { KeptWaits(d.kept + pieces[0]); }
      PartitionIndependent(Feed(d, pieces[0]), pieces[1..]);
    }
  }

  /** What is kept holds no complete frame. */
  lemma {:induction false} KeptWaits(s: seq<byte>)
    ensures !Drain(s).failed ==> Drain(Drain(s).kept) == Drained([], Drain(s).kept, false)
    decreases |s|
  {
    hide FrameSplit;
    if FrameSplit(s).Frame? { KeptWaits(s[FrameSplit(s).total..]); }
  }

  function WrapAll(payloads: seq<seq<byte>>): seq<byte>
    requires forall i :: 0 <= i < |payloads| ==> |payloads[i]| <= MAX_FRAME
  {
    if payloads == [] then [] else FrameWrap(payloads[0]).value + WrapAll(payloads[1..])
  }

  /** Whatever follows the wrapped payloads, they are handed on first and in order. */
  lemma {:induction false} DrainsWrapped(payloads: seq<seq<byte>>, rest: seq<byte>)
    requires forall i :: 0 <= i < |payloads| ==> |payloads[i]| <= MAX_FRAME
    ensures var d := Drain(rest); Drain(WrapAll(payloads) + rest) == d.(handed := payloads + d.handed)
    decreases |payloads|
  {
    hide FrameSplit, FrameWrap, Drain;
    if payloads == [] {
      assert WrapAll([]) + rest == rest && [] + Drain(rest).handed == Drain(rest).handed;
    } else {
      WrapLength(payloads[0]);
      var w, tail := FrameWrap(payloads[0]).value, WrapAll(payloads[1..]) + rest;
      assert WrapAll(payloads) == w + WrapAll(payloads[1..]);
      assert WrapAll(payloads) + rest == w + tail;
      DrainsOne(payloads[0], tail);
      assert forall i :: 0 <= i < |payloads[1..]| ==> |payloads[1..][i]| <= MAX_FRAME;
      DrainsWrapped(payloads[1..], rest);
      assert payloads + Drain(rest).handed == [payloads[0]] + (payloads[1..] + Drain(rest).handed);
    }
  }

  lemma DrainsOne(payload: seq<byte>, tail: seq<byte>)
    requires |payload| <= MAX_FRAME
    ensures var d := Drain(tail); Drain(FrameWrap(payload).value + tail) == d.(handed := [payload] + d.handed)
  {
    hide FrameSplit;
    WrapLength(payload);
    var w := FrameWrap(payload).value;
    SplitsWrapped(payload, tail);
    assert (w + tail)[|w|..] == tail;
  }

  lemma WrapLength(payload: seq<byte>)
    requires |payload| <= MAX_FRAME
    ensures FrameWrap(payload).Some? && |FrameWrap(payload).value| == FRAME_HEADER + |payload|
  {}

  /** Every partition of concatenated frames hands on exactly the payloads, and keeps nothing. */
  lemma FramesSurvivePartition(payloads: seq<seq<byte>>, pieces: seq<seq<byte>>)
    requires forall i :: 0 <= i < |payloads| ==> |payloads[i]| <= MAX_FRAME
    requires Concat(pieces) == WrapAll(payloads)
    ensures FeedAll(OPENED, pieces) == Drained(payloads, [], false)
  {
    PartitionIndependent(OPENED, pieces);
    DrainsWrapped(payloads, []);
    assert WrapAll(payloads) + [] == WrapAll(payloads) == [] + Concat(pieces) && payloads + [] == payloads;
    assert [] + payloads == payloads;
  }

  /**
   * The converse: the stream is the frames handed on, then what is kept, or on failure a prefix that
   * declares more than a frame may hold.
   */
  lemma {:induction false} HandedIsTheStream(s: seq<byte>) returns (rest: seq<byte>)
    ensures var d := Drain(s);
            && (forall i :: 0 <= i < |d.handed| ==> |d.handed[i]| <= MAX_FRAME)
            && s == WrapAll(d.handed) + rest
            && (if d.failed then FrameSplit(rest).TooLong? else FrameSplit(rest).NeedMore? && d.kept == rest)
    decreases |s|
  {
    hide FrameSplit, FrameWrap;
    match FrameSplit(s)
    case Frame(payload, total) =>
      OnlyWrappedSplits(s);
      rest := HandedIsTheStream(s[total..]);
      var d := Drain(s[total..]);
      assert ([payload] + d.handed)[1..] == d.handed;
      WrapLength(payload);
      assert s == FrameWrap(payload).value + WrapAll(d.handed) + rest;
    case _ =>
      rest := s;
      assert s == WrapAll([]) + rest;
  }

  // ---------------------------------------------------------------- the programs

  /** `nev_proto_frame_wrap`. */
  method FrameWrapC(payload: seq<byte>, buf: array<byte>) returns (length: Option<nat>)
    modifies buf
    ensures var w := FrameWrap(payload);
            if w.None? || |w.value| > buf.Length then length == None && buf[..] == old(buf[..])
            else length == Some(|w.value|) && buf[..] == w.value + old(buf[..])[|w.value|..]
  {
    hide ToBytes;
    HeaderLength(|payload|);
    if |payload| > MAX_FRAME { return None; }
    if buf.Length < |payload| + FRAME_HEADER { return None; }
    ghost var was := buf[..];
    var n := |payload|;
    HeaderBytes(n);
    buf[0] := n / 0x100_0000;
    buf[1] := n / 0x1_0000 % 0x100;
    buf[2] := n / 0x100 % 0x100;
    buf[3] := n % 0x100;
    forall i | 0 <= i < n { buf[FRAME_HEADER + i] := payload[i]; }
    length := Some(n + FRAME_HEADER);
    assert buf[..FRAME_HEADER] == ToBytes(n, FRAME_HEADER);
    assert buf[..] == ToBytes(n, FRAME_HEADER) + payload + was[FRAME_HEADER + n..];
  }

  /** The four shifts of the C code. */
  lemma HeaderBytes(n: nat)
    requires n <= MAX_FRAME
    ensures ToBytes(n, FRAME_HEADER) == [n / 0x100_0000, n / 0x1_0000 % 0x100, n / 0x100 % 0x100, n % 0x100]
  {
    hide ToBytes;
    HeaderLength(n);
    Pow256Values();
    Pow256Three();
    ToBytesAt(n, 4, 0);
    ToBytesAt(n, 4, 1);
    ToBytesAt(n, 4, 2);
    ToBytesAt(n, 4, 3);
  }

  lemma Pow256Three()
    ensures Pow256(3) == 0x100_0000
  {
    assert Pow256(3) == 256 * Pow256(2);
    assert Pow256(2) == 256 * Pow256(1);
  }
}
