/** The device's WebSocket client (RFC 6455): the frame codec, and the receive buffer parsed in place. */
module WebSocket {
  import opened Basics
  import opened Endian

  const OP_TEXT: nat := 1
  const OP_BIN: nat := 2
  const OP_CLOSE: nat := 8
  const OP_PING: nat := 9
  const OP_PONG: nat := 10

  // ---------------------------------------------------------------- frames as section 5.2 defines them

  /** The length field of a frame, in its one minimal form. */
  function LengthField(n: nat): seq<byte>
    requires n < Pow256(8)
  {
    if n <= 125 then [n] else if n <= 0xFFFF then [126] + ToBytes(n, 2) else [127] + ToBytes(n, 8)
  }

  /** An unfragmented frame from a server: FIN set, no reserved bit, no mask. */
  function ServerFrame(op: nat, payload: seq<byte>): seq<byte>
    requires op < 16 && |payload| < Pow256(8)
  {
    [0x80 + op] + LengthField(|payload|) + payload
  }

  datatype ReadResult = NeedMore | Malformed | Frame(opcode: nat, at: nat, len: nat)

  /** `nev_ws_frame_read` once the declared length is known; `cap` is the size of the receive buffer. */
  function Sized(cap: nat, opcode: nat, at: nat, plen: nat, have: nat): ReadResult {
    if plen > cap then Malformed
    else if have < at + plen then NeedMore
    else Frame(opcode, at, plen)
  }

  /** `nev_ws_frame_read`: what a buffer holding `s` starts with. */
  function FrameRead(cap: nat, s: seq<byte>): ReadResult {
    if |s| < 2 then NeedMore
    else
      var b0, b1 := s[0], s[1];
      if b0 / 16 % 8 != 0 || b0 / 128 == 0 || b1 / 128 != 0 then Malformed
      else if b1 == 126 then
        if |s| < 4 then NeedMore
        else
          var plen := BigEndian(s[2..4]);
          if plen <= 125 then Malformed else Sized(cap, b0 % 16, 4, plen, |s|)
      else if b1 == 127 then
        if |s| < 10 then NeedMore
        else
          var plen := BigEndian(s[2..10]);
          if plen <= 0xFFFF || plen > cap then Malformed else Sized(cap, b0 % 16, 10, plen, |s|)
      else Sized(cap, b0 % 16, 2, b1, |s|)
  }

  /** Whatever decides a read stays decided when more bytes arrive. */
  lemma FrameReadGrows(cap: nat, s: seq<byte>, t: seq<byte>)
    requires s <= t && !FrameRead(cap, s).NeedMore?
    ensures FrameRead(cap, t) == FrameRead(cap, s)
  {
    if |s| >= 4 { assert s[2..4] == t[2..4]; }
    if |s| >= 10 { assert s[2..10] == t[2..10]; }
  }

  /** Where the payload of a frame starts, and what stands before it. */
  lemma FrameLayout(op: nat, payload: seq<byte>)
    requires op < 16 && |payload| < Pow256(8)
    ensures var f, n := ServerFrame(op, payload), |payload|;
            var at := |f| - n;
            && at == (if n <= 125 then 2 else if n <= 0xFFFF then 4 else 10)
            && f[0] == 0x80 + op && f[at..] == payload
            && f[1] == (if n <= 125 then n else if n <= 0xFFFF then 126 else 127)
            && (at == 4 ==> BigEndian(f[2..4]) == n)
            && (at == 10 ==> BigEndian(f[2..10]) == n)
  {
    var f, n := ServerFrame(op, payload), |payload|;
    Pow256Values();
    if 125 < n <= 0xFFFF {
      assert f[2..4] == ToBytes(n, 2);
      BytesOfNumber(n, 2);
    } else if n > 0xFFFF {
      assert f[2..10] == ToBytes(n, 8);
      BytesOfNumber(n, 8);
    }
  }

  /** A complete server frame that fits the buffer is read as what it is, whatever follows it. */
  lemma ReadsServerFrame(cap: nat, op: nat, payload: seq<byte>, rest: seq<byte>)
    requires op < 16 && |payload| <= cap < Pow256(8)
    ensures var f := ServerFrame(op, payload);
            var at := |f| - |payload|;
            FrameRead(cap, f + rest) == Frame(op, at, |payload|) && (f + rest)[at..at + |payload|] == payload
  {
    hide ServerFrame, LengthField, BigEndian, ToBytes, Pow256;
    FrameLayout(op, payload);
    var f := ServerFrame(op, payload);
    var at := |f| - |payload|;
    FrameReadGrows(cap, f, f + rest);
    assert (f + rest)[at..at + |payload|] == f[at..];
  }

  /** Every strict prefix of a server frame that fits asks for more; none is an error. */
  lemma PrefixNeedsMore(cap: nat, op: nat, payload: seq<byte>, n: nat)
    requires op < 16 && |payload| <= cap < Pow256(8) && n < |ServerFrame(op, payload)|
    ensures FrameRead(cap, ServerFrame(op, payload)[..n]) == NeedMore
  {
    FrameLayout(op, payload);
    var f := ServerFrame(op, payload);
    if n >= 4 { assert f[..n][2..4] == f[2..4]; }
    if n >= 10 { assert f[..n][2..10] == f[2..10]; }
  }

  /** Only a server frame is ever read as a frame, so no payload has two encodings. */
  lemma OnlyServerFramesRead(cap: nat, s: seq<byte>)
    requires FrameRead(cap, s).Frame? && cap < Pow256(8)
    ensures var Frame(op, at, len) := FrameRead(cap, s);
            && op < 16 && len <= cap && 2 <= at && at + len <= |s|
            && s[..at + len] == ServerFrame(op, s[at..at + len])
  {
    var Frame(op, at, len) := FrameRead(cap, s);
    LengthFieldRead(cap, s);
    assert s[..at + len] == [s[0]] + s[1..at] + s[at..at + len];
  }

  lemma LengthFieldRead(cap: nat, s: seq<byte>)
    requires FrameRead(cap, s).Frame? && cap < Pow256(8)
    ensures var Frame(op, at, len) := FrameRead(cap, s);
            op < 16 && len <= cap && 2 <= at && at + len <= |s| && s[0] == 0x80 + op && s[1..at] == LengthField(len)
  {
    hide FrameRead, LengthField, BigEndian;
    var Frame(op, at, len) := FrameRead(cap, s);
    FrameForms(cap, s);
    assert s[1..at] == [s[1]] + s[2..at];
    if at > 2 {
      NumberOfBytes(s[2..at]);
      LongLength(len, at - 2);
    } else {
      ShortLength(len);
    }
  }

  /** What a frame that is read looks like, its length as it stands there. */
  lemma FrameForms(cap: nat, s: seq<byte>)
    requires FrameRead(cap, s).Frame?
    ensures var Frame(op, at, len) := FrameRead(cap, s);
            && op < 16 && len <= cap && (at == 2 || at == 4 || at == 10) && at + len <= |s| && s[0] == 0x80 + op
            && (at == 2 ==> s[1] == len <= 125)
            && (at == 4 ==> s[1] == 126 && len == BigEndian(s[2..4]) && len > 125)
            && (at == 10 ==> s[1] == 127 && len == BigEndian(s[2..10]) && len > 0xFFFF)
  {
    hide BigEndian;
  }

  lemma ShortLength(n: nat)
    requires n <= 125
    ensures LengthField(n) == [n]
  {}

  lemma LongLength(n: nat, k: nat)
    requires (k == 2 && 125 < n < Pow256(2)) || (k == 8 && 0xFFFF < n < Pow256(8))
    ensures LengthField(n) == [if k == 2 then 126 else 127] + ToBytes(n, k)
  {
    hide ToBytes;
    Pow256Values();
  }

  // ---------------------------------------------------------------- frames the client writes

  /** Exclusive or of the `k` low bits. */
  function XorBits(a: nat, b: nat, k: nat): nat {
    if k == 0 then 0 else 2 * XorBits(a / 2, b / 2, k - 1) + (a + b) % 2
  }

  function Pow2(k: nat): nat { if k == 0 then 1 else 2 * Pow2(k - 1) }

  lemma {:induction false} XorBitsTwice(a: nat, b: nat, k: nat)
    requires a < Pow2(k)
    ensures XorBits(a, b, k) < Pow2(k)
    ensures XorBits(XorBits(a, b, k), b, k) == a
  {
    if k > 0 {
      XorBitsTwice(a / 2, b / 2, k - 1);
      var h := XorBits(a / 2, b / 2, k - 1);
      var x := 2 * h + (a + b) % 2;
      assert x / 2 == h && x % 2 == (a + b) % 2;
      LowBit(a, b, h);
    }
  }

  lemma LowBit(a: nat, b: nat, h: nat)
    ensures (2 * h + (a + b) % 2 + b) % 2 == a % 2
  {}

  function Xor(a: byte, b: byte): byte {
    assert Pow2(8) == 256;
    XorBitsTwice(a, b, 8);
    XorBits(a, b, 8)
  }

  /** Bit `k`, the lowest being bit 0. */
  function Bit(n: nat, k: nat): nat { if k == 0 then n % 2 else Bit(n / 2, k - 1) }

  lemma {:induction false} XorBitsDiffer(a: nat, b: nat, k: nat, i: nat)
    requires i < k
    ensures Bit(XorBits(a, b, k), i) == if Bit(a, i) == Bit(b, i) then 0 else 1
  {
    hide XorBits, Bit;
    XorBitsStep(a, b, k);
    BitStep(a, i);
    BitStep(b, i);
    BitStep(XorBits(a, b, k), i);
    if i > 0 { XorBitsDiffer(a / 2, b / 2, k - 1, i - 1); } else { SameParity(a, b); }
  }

  lemma XorBitsStep(a: nat, b: nat, k: nat)
    requires k > 0
    ensures XorBits(a, b, k) / 2 == XorBits(a / 2, b / 2, k - 1) && XorBits(a, b, k) % 2 == (a + b) % 2
  {}

  lemma BitStep(n: nat, i: nat)
    ensures Bit(n, i) == if i == 0 then n % 2 else Bit(n / 2, i - 1)
  {}

  lemma SameParity(a: nat, b: nat)
    ensures (a + b) % 2 == if a % 2 == b % 2 then 0 else 1
  {}

  function Masked(p: seq<byte>, mask: seq<byte>): (q: seq<byte>)
    requires |mask| == 4
    ensures |q| == |p|
  {
    seq(|p|, i requires 0 <= i < |p| => Xor(p[i], mask[i % 4]))
  }

  /** Section 5.3 of RFC 6455: octet `k` of each group of four differs in the bits that octet `k` of the mask has set. */
  lemma MaskedDiffers(p: seq<byte>, mask: seq<byte>, j: nat, k: nat, bit: nat)
    requires |mask| == 4 && k < 4 && 4 * j + k < |p| && bit < 8
    ensures Bit(Masked(p, mask)[4 * j + k], bit) != Bit(p[4 * j + k], bit) <==> Bit(mask[k], bit) == 1
  {
    assert (4 * j + k) % 4 == k;
    XorBitsDiffer(p[4 * j + k], mask[k], 8, bit);
    BitIs(mask[k], bit);
    BitIs(p[4 * j + k], bit);
  }

  lemma {:induction false} BitIs(n: nat, k: nat)
    ensures Bit(n, k) == 0 || Bit(n, k) == 1
  {
    if k > 0 { BitIs(n / 2, k - 1); }
  }

  /** Masking is its own inverse. */
  lemma UnmaskMasked(p: seq<byte>, mask: seq<byte>)
    requires |mask| == 4
    ensures Masked(Masked(p, mask), mask) == p
  {
    assert Pow2(8) == 256;
    forall i | 0 <= i < |p| ensures Masked(Masked(p, mask), mask)[i] == p[i] { XorBitsTwice(p[i], mask[i % 4], 8); }
  }

  /** An unfragmented frame from a client, which must be masked. */
  function ClientFrame(op: nat, payload: seq<byte>, mask: seq<byte>): seq<byte>
    requires op < 16 && |payload| < Pow256(8) && |mask| == 4
  {
    var lf := LengthField(|payload|);
    [0x80 + op] + [0x80 + lf[0]] + lf[1..] + mask + Masked(payload, mask)
  }

  /** What a server makes of a client frame: the mask bit set, the payload unmasked. */
  function ServerReads(s: seq<byte>): Option<(nat, seq<byte>)> {
    if |s| < 2 || s[0] / 16 != 8 || s[1] / 128 == 0 then None
    else
      var n7 := s[1] % 128;
      var at := if n7 == 126 then 4 else if n7 == 127 then 10 else 2;
      if |s| < at + 4 then None
      else
        var n := if at == 2 then n7 else BigEndian(s[2..at]);
        if |s| < at + 4 + n then None
        else Some((s[0] % 16, Masked(s[at + 4..at + 4 + n], s[at..at + 4])))
  }

  /** Where the parts of a client frame stand. */
  lemma ClientLayout(op: nat, payload: seq<byte>, mask: seq<byte>)
    requires op < 16 && |payload| < Pow256(8) && |mask| == 4
    ensures var f, n := ClientFrame(op, payload, mask), |payload|;
            var at := if n <= 125 then 2 else if n <= 0xFFFF then 4 else 10;
            && |f| == at + 4 + n >= 6 && f[0] == 0x80 + op
            && f[1] == 0x80 + (if n <= 125 then n else if n <= 0xFFFF then 126 else 127)
            && f[at..at + 4] == mask && f[at + 4..at + 4 + n] == Masked(payload, mask)
            && (at > 2 ==> f[2..at] == ToBytes(n, at - 2))
  {
    hide ToBytes, Masked;
    var f, n, lf := ClientFrame(op, payload, mask), |payload|, LengthField(|payload|);
    var at := 1 + |lf|;
    assert f[at..at + 4] == mask && f[at + 4..at + 4 + n] == Masked(payload, mask);
    if at > 2 { assert f[2..at] == lf[1..] == ToBytes(n, at - 2); }
  }

  /** A server recovers opcode and payload from what the client wrote. */
  lemma ServerRecovers(op: nat, payload: seq<byte>, mask: seq<byte>)
    requires op < 16 && |payload| < Pow256(8) && |mask| == 4
    ensures ServerReads(ClientFrame(op, payload, mask)) == Some((op, payload))
  {
    hide ClientFrame, Masked, ToBytes, BigEndian, Pow256;
    var n := |payload|;
    ClientLayout(op, payload, mask);
    UnmaskMasked(payload, mask);
    Pow256Values();
    if 125 < n <= 0xFFFF { BytesOfNumber(n, 2); }
    if n > 0xFFFF { BytesOfNumber(n, 8); }
  }

  /** A client frame reflected back is refused as a protocol error, not unmasked, once two bytes of it are there. */
  lemma ReflectedFrameRefused(cap: nat, op: nat, payload: seq<byte>, mask: seq<byte>, s: seq<byte>)
    requires op < 16 && |payload| < Pow256(8) && |mask| == 4
    requires |s| >= 2 && s[..2] == ClientFrame(op, payload, mask)[..2]
    ensures FrameRead(cap, s) == Malformed
  {
    hide ClientFrame, Masked;
    ClientLayout(op, payload, mask);
    assert s[1] == s[..2][1] == ClientFrame(op, payload, mask)[1];
  }

  /** `nev_ws_frame_write`: the whole frame, or nothing when it does not fit. */
  method FrameWrite(out: array<byte>, opcode: byte, payload: seq<byte>, mask: seq<byte>) returns (n: nat)
    requires |mask| == 4 && |payload| < Pow256(8)
    modifies out
    ensures var f := ClientFrame(opcode % 16, payload, mask);
            if |f| <= out.Length then n == |f| && out[..n] == f else n == 0 && out[..] == old(out[..])
  {
    var len := |payload|;
    var header := 2 + 4;
    if len > 125 && len <= 0xFFFF { header := header + 2; }
    else if len > 0xFFFF { header := header + 8; }
    if header + len > out.Length { return 0; }

    var o := WriteHead(out, opcode, len);
    o := Copy(out, o, mask);
    n := CopyMasked(out, o, payload, mask);
  }

  /** The loop that masks the payload on its way into the frame. */
  method CopyMasked(out: array<byte>, at: nat, payload: seq<byte>, mask: seq<byte>) returns (o: nat)
    requires |mask| == 4 && at + |payload| <= out.Length
    modifies out
    ensures o == at + |payload| && out[..o] == old(out[..at]) + Masked(payload, mask)
  {
    var i := 0;
    while i < |payload|
      invariant 0 <= i <= |payload|
      invariant out[..at + i] == old(out[..at]) + Masked(payload, mask)[..i]
    {
      out[at + i] := Xor(payload[i], mask[i % 4]);
      i := i + 1;
    }
    o := at + |payload|;
  }

  /** First two bytes and the extended length. */
  method WriteHead(out: array<byte>, opcode: byte, len: nat) returns (o: nat)
    requires len < Pow256(8) && out.Length >= 1 + |LengthField(len)|
    modifies out
    ensures var lf := LengthField(len);
            o == 1 + |lf| && out[..o] == [0x80 + opcode % 16] + [0x80 + lf[0]] + lf[1..]
  {
    hide ToBytes, Pow256;
    out[0] := 0x80 + opcode % 16;
    o := 2;
    if len <= 125 {
      out[1] := 0x80 + len;
    } else if len <= 0xFFFF {
      out[1] := 0x80 + 126;
      o := PutNumber(out, o, len, 2);
    } else {
      out[1] := 0x80 + 127;
      o := PutNumber(out, o, len, 8);
    }
  }

  /** `memcpy` of `data` to `at`. */
  method Copy(out: array<byte>, at: nat, data: seq<byte>) returns (o: nat)
    requires at + |data| <= out.Length
    modifies out
    ensures o == at + |data| && out[..o] == old(out[..at]) + data
    ensures out[o..] == old(out[at + |data|..])
  {
    forall i | 0 <= i < |data| { out[at + i] := data[i]; }
    o := at + |data|;
  }

  /** Writes `k` bytes of `v` at `at`, most significant first. */
  method PutNumber(out: array<byte>, at: nat, v: nat, k: nat) returns (o: nat)
    requires at + k <= out.Length
    modifies out
    ensures o == at + k && out[..o] == old(out[..at]) + ToBytes(v, k)
  {
    var i := 0;
    while i < k
      invariant 0 <= i <= k
      invariant out[..at + i] == old(out[..at]) + ToBytes(v, k)[..i]
    {
      ToBytesAt(v, k, i);
      out[at + i] := v / Pow256(k - 1 - i) % 256;
      i := i + 1;
    }
    o := at + k;
  }
}
