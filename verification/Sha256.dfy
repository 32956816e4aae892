/** Incremental SHA-256 against FIPS 180-4. */
module Sha256 {
  import opened Basics
  import opened Endian

  // ---------------------------------------------------------------- FIPS 180-4

  type word = bv32

  /** The round constants, section 4.2.2. */
  function K(t: nat): word
    requires t < 64
  {
    if t < 8 then [0x428a2f98, 0x71374491, 0xb5c0fbcf, 0xe9b5dba5, 0x3956c25b, 0x59f111f1, 0x923f82a4, 0xab1c5ed5][t]
    else if t < 16 then [0xd807aa98, 0x12835b01, 0x243185be, 0x550c7dc3, 0x72be5d74, 0x80deb1fe, 0x9bdc06a7, 0xc19bf174][t - 8]
    else if t < 24 then [0xe49b69c1, 0xefbe4786, 0x0fc19dc6, 0x240ca1cc, 0x2de92c6f, 0x4a7484aa, 0x5cb0a9dc, 0x76f988da][t - 16]
    else if t < 32 then [0x983e5152, 0xa831c66d, 0xb00327c8, 0xbf597fc7, 0xc6e00bf3, 0xd5a79147, 0x06ca6351, 0x14292967][t - 24]
    else if t < 40 then [0x27b70a85, 0x2e1b2138, 0x4d2c6dfc, 0x53380d13, 0x650a7354, 0x766a0abb, 0x81c2c92e, 0x92722c85][t - 32]
    else if t < 48 then [0xa2bfe8a1, 0xa81a664b, 0xc24b8b70, 0xc76c51a3, 0xd192e819, 0xd6990624, 0xf40e3585, 0x106aa070][t - 40]
    else if t < 56 then [0x19a4c116, 0x1e376c08, 0x2748774c, 0x34b0bcb5, 0x391c0cb3, 0x4ed8aa4a, 0x5b9cca4f, 0x682e6ff3][t - 48]
    else [0x748f82ee, 0x78a5636f, 0x84c87814, 0x8cc70208, 0x90befffa, 0xa4506ceb, 0xbef9a3f7, 0xc67178f2][t - 56]
  }

  /** Addition modulo 2^32. */
  function Add(x: word, y: word): word { x + y }
  function Sum4(x: word, y: word, z: word, u: word): word { x + y + z + u }

  function Rotr(v: word, n: nat): word
    requires 0 < n < 32
  {
    (v >> n) | (v << (32 - n))
  }

  function Ch(x: word, y: word, z: word): word { (x & y) ^ (!x & z) }
  function Maj(x: word, y: word, z: word): word { (x & y) ^ (x & z) ^ (y & z) }
  function BigSigma0(x: word): word { Rotr(x, 2) ^ Rotr(x, 13) ^ Rotr(x, 22) }
  function BigSigma1(x: word): word { Rotr(x, 6) ^ Rotr(x, 11) ^ Rotr(x, 25) }
  function Sigma0(x: word): word { Rotr(x, 7) ^ Rotr(x, 18) ^ (x >> 3) }
  function Sigma1(x: word): word { Rotr(x, 17) ^ Rotr(x, 19) ^ (x >> 10) }

  function WordOf(b0: byte, b1: byte, b2: byte, b3: byte): word {
    ((b0 as word) << 24) | ((b1 as word) << 16) | ((b2 as word) << 8) | (b3 as word)
  }

  /** The message schedule, section 6.2.2 step 1. */
  function W(block: seq<byte>, t: nat): word
    requires |block| == 64 && t < 64
  {
    if t < 16 then WordOf(block[4 * t], block[4 * t + 1], block[4 * t + 2], block[4 * t + 3])
    else Sum4(Sigma1(W(block, t - 2)), W(block, t - 7), Sigma0(W(block, t - 15)), W(block, t - 16))
  }

  datatype Vars = Vars(a: word, b: word, c: word, d: word, e: word, f: word, g: word, h: word)

  function Round(v: Vars, k: word, w: word): Vars {
    var t1 := Add(Add(Add(Add(v.h, BigSigma1(v.e)), Ch(v.e, v.f, v.g)), k), w);
    var t2 := Add(BigSigma0(v.a), Maj(v.a, v.b, v.c));
    Vars(Add(t1, t2), v.a, v.b, v.c, Add(v.d, t1), v.e, v.f, v.g)
  }

  function Rounds(v: Vars, block: seq<byte>, t: nat): Vars
    requires |block| == 64 && t <= 64
  {
    if t == 0 then v else Round(Rounds(v, block, t - 1), K(t - 1), W(block, t - 1))
  }

  function Compress(v: Vars, block: seq<byte>): Vars
    requires |block| == 64
  {
    var w := Rounds(v, block, 64);
    Vars(Add(v.a, w.a), Add(v.b, w.b), Add(v.c, w.c), Add(v.d, w.d),
         Add(v.e, w.e), Add(v.f, w.f), Add(v.g, w.g), Add(v.h, w.h))
  }

  const INITIAL := Vars(0x6a09e667, 0xbb67ae85, 0x3c6ef372, 0xa54ff53a, 0x510e527f, 0x9b05688c, 0x1f83d9ab, 0x5be0cd19)

  function HashBlocks(v: Vars, s: seq<byte>): Vars
    requires |s| % 64 == 0
  {
    if s == [] then v else Compress(HashBlocks(v, s[..|s| - 64]), s[|s| - 64..])
  }

  const TWO64 := 0x1_0000_0000_0000_0000

  /** Eight bytes are left in the block. */
  predicate RoomForLength(n: nat) { n % 64 == 56 }

  /** How many zero bytes section 5.1.1 puts after the byte 0x80. */
  function PadZeros(length: nat): nat { (55 - length) % 64 }

  function Zeros(k: nat): seq<byte> { seq(k, _ => 0) }

  /** Section 5.1.1; the length field is the bit count as the program computes it, in 64 bits. */
  function Padded(m: seq<byte>): (p: seq<byte>)
    ensures |p| % 64 == 0
  {
    FewestZeros(|m|);
    m + [0x80] + Zeros(PadZeros(|m|)) + ToBytes(8 * |m| % TWO64, 8)
  }

  function WordBytes(w: word): seq<byte> {
    [((w >> 24) & 0xFF) as bv8 as byte, ((w >> 16) & 0xFF) as bv8 as byte, ((w >> 8) & 0xFF) as bv8 as byte, (w & 0xFF) as bv8 as byte]
  }

  function Output(v: Vars): seq<byte> {
    WordBytes(v.a) + WordBytes(v.b) + WordBytes(v.c) + WordBytes(v.d)
    + WordBytes(v.e) + WordBytes(v.f) + WordBytes(v.g) + WordBytes(v.h)
  }

  function Digest(m: seq<byte>): seq<byte> { Output(HashBlocks(INITIAL, Padded(m))) }

  /**
   * For messages of less than 2^61 bytes, the padding is the standard's: the fewest zero bits that leave
   * exactly 64 bits of the last block, and in those the message's length in bits.
   */
  lemma PaddingIsStandard(m: seq<byte>)
    requires 8 * |m| < TWO64
    ensures var p, k := Padded(m), PadZeros(|m|);
            && p[..|m|] == m && p[|m|] == 0x80
            && (forall i :: |m| < i < |p| - 8 ==> p[i] == 0)
            && BigEndian(p[|p| - 8..]) == 8 * |m|
            && RoomForLength(|m| + 1 + k)
            && (forall n :: n > |m| && RoomForLength(n) ==> n >= |m| + 1 + k)
  {
    hide ToBytes, PadZeros, RoomForLength;
    FewestZeros(|m|);
    var p, k := Padded(m), PadZeros(|m|);
    var tail := ToBytes(8 * |m|, 8);
    LengthBytes(8 * |m|);
    assert p[|p| - 8..] == tail;
    Pow256Values();
    BytesOfNumber(8 * |m|, 8);
  }

  lemma FewestZeros(length: nat)
    ensures RoomForLength(length + 1 + PadZeros(length))
    ensures forall n :: n > length && RoomForLength(n) ==> n >= length + 1 + PadZeros(length)
    ensures (length + 1 + PadZeros(length) + 8) % 64 == 0
  {}

  lemma LengthBytes(n: nat)
    ensures |ToBytes(n, 8)| == 8
  {}

  // ---------------------------------------------------------------- the program

  function Loaded(h: seq<word>): Vars
    requires |h| == 8
  {
    Vars(h[0], h[1], h[2], h[3], h[4], h[5], h[6], h[7])
  }

  method Schedule(block: seq<byte>) returns (w: array<word>)
    requires |block| == 64
    ensures fresh(w) && w.Length == 64 && forall t :: 0 <= t < 64 ==> w[t] == W(block, t)
  {
    hide WordOf, Sum4, W, Sigma0, Sigma1;
    w := new word[64];
    var i := 0;
    while i < 16
      invariant i <= 16 && forall t :: 0 <= t < i ==> w[t] == W(block, t)
    {
      w[i] := WordOf(block[i * 4], block[i * 4 + 1], block[i * 4 + 2], block[i * 4 + 3]);
      WStep(block, i);
      i := i + 1;
    }
    while i < 64
      invariant 16 <= i <= 64 && forall t :: 0 <= t < i ==> w[t] == W(block, t)
    {
      w[i] := Sum4(w[i - 16], Sigma0(w[i - 15]), w[i - 7], Sigma1(w[i - 2]));
      WStep(block, i);
      i := i + 1;
    }
  }

  /** The schedule, with the sum in the program's order. */
  lemma WStep(block: seq<byte>, t: nat)
    requires |block| == 64 && t < 64
    ensures W(block, t) ==
            if t < 16 then WordOf(block[t * 4], block[t * 4 + 1], block[t * 4 + 2], block[t * 4 + 3])
            else Sum4(W(block, t - 16), Sigma0(W(block, t - 15)), W(block, t - 7), Sigma1(W(block, t - 2)))
  {
    hide WordOf, Sigma0, Sigma1, Sum4;
    if t >= 16 { SumReverse(W(block, t - 16), Sigma0(W(block, t - 15)), W(block, t - 7), Sigma1(W(block, t - 2))); }
  }

  lemma SumReverse(x: word, y: word, z: word, u: word)
    ensures Sum4(x, y, z, u) == Sum4(u, z, y, x)
  {}

  method CompressBlock(h: array<word>, block: seq<byte>)
    requires h.Length == 8 && |block| == 64
    modifies h
    ensures Loaded(h[..]) == Compress(old(Loaded(h[..])), block)
  {
    hide W, Add, Ch, Maj, BigSigma0, BigSigma1, K, Round, Rounds, Compress;
    var w := Schedule(block);
    ghost var v := Loaded(h[..]);
    var a, b, c, d := h[0], h[1], h[2], h[3];
    var e, f, g, hh := h[4], h[5], h[6], h[7];
    RoundsStep(v, block, 0);
    var i := 0;
    while i < 64
      invariant i <= 64 && h[..] == old(h[..]) && w.Length == 64
      invariant forall t :: 0 <= t < 64 ==> w[t] == W(block, t)
      invariant Vars(a, b, c, d, e, f, g, hh) == Rounds(v, block, i)
    {
      RoundIs(Vars(a, b, c, d, e, f, g, hh), K(i), w[i]);
      RoundsStep(v, block, i + 1);
      var t1 := Add(Add(Add(Add(hh, BigSigma1(e)), Ch(e, f, g)), K(i)), w[i]);
      var t2 := Add(BigSigma0(a), Maj(a, b, c));
      hh := g;
      g := f;
      f := e;
      e := Add(d, t1);
      d := c;
      c := b;
      b := a;
      a := Add(t1, t2);
      i := i + 1;
    }
    CompressIs(v, block);
    h[0] := Add(h[0], a);
    h[1] := Add(h[1], b);
    h[2] := Add(h[2], c);
    h[3] := Add(h[3], d);
    h[4] := Add(h[4], e);
    h[5] := Add(h[5], f);
    h[6] := Add(h[6], g);
    h[7] := Add(h[7], hh);
  }

  lemma RoundIs(v: Vars, k: word, w: word)
    ensures var t1 := Add(Add(Add(Add(v.h, BigSigma1(v.e)), Ch(v.e, v.f, v.g)), k), w);
            var t2 := Add(BigSigma0(v.a), Maj(v.a, v.b, v.c));
            Round(v, k, w) == Vars(Add(t1, t2), v.a, v.b, v.c, Add(v.d, t1), v.e, v.f, v.g)
  {
    hide Add, Ch, Maj, BigSigma0, BigSigma1;
  }

  lemma RoundsStep(v: Vars, block: seq<byte>, t: nat)
    requires |block| == 64 && t <= 64
    ensures Rounds(v, block, t) == if t == 0 then v else Round(Rounds(v, block, t - 1), K(t - 1), W(block, t - 1))
  {
    hide Round, K, W;
  }

  lemma CompressIs(v: Vars, block: seq<byte>)
    requires |block| == 64
    ensures var w := Rounds(v, block, 64);
            Compress(v, block) ==
            Vars(Add(v.a, w.a), Add(v.b, w.b), Add(v.c, w.c), Add(v.d, w.d),
                 Add(v.e, w.e), Add(v.f, w.f), Add(v.g, w.g), Add(v.h, w.h))
  {
    hide Rounds, Add;
  }

  /** A hash in progress. */
  class Hasher {
    const h: array<word>
    const block: array<byte>
    var blockLen: nat
    var totalBytes: nat
    /** Everything fed so far. */
    ghost var fed: seq<byte>

    ghost predicate Valid()
      reads this, h, block
    {
      totalBytes == |fed| % TWO64 && Filling()
    }

    /** Everything but the count, which runs ahead while an update is under way. */
    ghost predicate Filling()
      reads this`blockLen, this`fed, h, block
    {
      && h.Length == 8 && block.Length == 64 && blockLen == |fed| % 64
      && Holds(fed, block[..blockLen], Loaded(h[..]))
    }

    constructor ()
      ensures Valid() && fed == [] && fresh(h) && fresh(block)
    {
      h := new word[8] [0x6a09e667, 0xbb67ae85, 0x3c6ef372, 0xa54ff53a, 0x510e527f, 0x9b05688c, 0x1f83d9ab, 0x5be0cd19];
      block := new byte[64];
      blockLen := 0;
      totalBytes := 0;
      fed := [];
      new;
      assert h[..] == [0x6a09e667, 0xbb67ae85, 0x3c6ef372, 0xa54ff53a, 0x510e527f, 0x9b05688c, 0x1f83d9ab, 0x5be0cd19];
    }

    lemma Whole()
      requires Valid()
      ensures h.Length == 8 && totalBytes == |fed| % TWO64 && blockLen == |fed| % 64
      ensures |fed| % 64 == 0 ==> Holds(fed, [], Loaded(h[..]))
    {
      hide Holds;
      if |fed| % 64 == 0 { assert block[..blockLen] == []; }
    }

    /** Copies a piece that fits into the block, and compresses the block when that fills it. */
    method Absorb(piece: seq<byte>)
      requires Filling() && |piece| <= 64 - blockLen
      modifies this`blockLen, this`fed, h, block
      ensures Filling() && fed == old(fed) + piece && blockLen == |fed| % 64
    {
      hide Compress, HashBlocks, Holds;
      ghost var held := block[..blockLen];
      forall i | 0 <= i < |piece| { block[blockLen + i] := piece[i]; }
      assert block[..blockLen + |piece|] == held + piece;
      HoldsMore(fed, held, Loaded(h[..]), piece);
      Fills(|fed|, |piece|);
      fed := fed + piece;
      blockLen := blockLen + |piece|;
      if blockLen == 64 {
        assert block[..64] == block[..];
        CompressBlock(h, block[..]);
        blockLen := 0;
        assert block[..0] == [];
      }
    }

    method Update(data: seq<byte>)
      requires Valid()
      modifies this, h, block
      ensures Valid() && fed == old(fed) + data && blockLen == |fed| % 64
    {
      hide Filling;
      AddWraps(|fed|, |data|);
      Whole();
      totalBytes := (totalBytes + |data|) % TWO64;
      assert Filling();
      var at := 0;
      while at < |data|
        invariant at <= |data| && fed == old(fed) + data[..at]
        invariant totalBytes == (|old(fed)| + |data|) % TWO64
        invariant Filling() && blockLen == |fed| % 64
      {
        var room := 64 - blockLen;
        var take := if |data| - at < room then |data| - at else room;
        assert data[..at + take] == data[..at] + data[at..at + take];
        Absorb(data[at..at + take]);
        at := at + take;
      }
      assert data[..|data|] == data;
    }

    method Final() returns (digest: seq<byte>)
      requires Valid()
      modifies this, h, block
      ensures digest == Digest(old(fed))
    {
      hide Compress, HashBlocks, ToBytes, Output, Holds, Valid, PadZeros, Zeros;
      ghost var m := fed;
      Whole();
      FewestZeros(|m|);
      var bits := totalBytes * 8 % TWO64;
      BitCount(|m|);
      Update([0x80]);
      ghost var zeros: nat := 0;
      ZerosGrow(0);
      while blockLen != 56
        invariant Valid() && zeros <= PadZeros(|m|) && fed == m + [0x80] + Zeros(zeros)
        invariant |fed| == |m| + 1 + zeros && blockLen == |fed| % 64
        decreases PadZeros(|m|) - zeros
      {
        assert !RoomForLength(|m| + 1 + zeros);
        Update([0]);
        ZerosGrow(zeros);
        zeros := zeros + 1;
      }
      assert RoomForLength(|m| + 1 + zeros);
      Update(ToBytes(bits, 8));
      LengthBytes(bits);
      assert fed == Padded(m);
      Whole();
      HoldsAll(fed, Loaded(h[..]));
      digest := Output(Loaded(h[..]));
    }
  }

  lemma ZerosGrow(k: nat)
    ensures Zeros(0) == [] && |Zeros(k)| == k && Zeros(k + 1) == Zeros(k) + [0]
  {}

  /** The chaining value covers the whole blocks of `fed`, and `held` is the rest. */
  ghost predicate Holds(fed: seq<byte>, held: seq<byte>, v: Vars) {
    && |held| < 64 && |held| <= |fed| && (|fed| - |held|) % 64 == 0
    && fed[|fed| - |held|..] == held
    && v == HashBlocks(INITIAL, fed[..|fed| - |held|])
  }

  lemma HashOneMore(s: seq<byte>)
    requires |s| % 64 == 0 && |s| > 0
    ensures HashBlocks(INITIAL, s) == Compress(HashBlocks(INITIAL, s[..|s| - 64]), s[|s| - 64..])
  {
    hide Compress;
  }

  lemma HoldsMore(fed: seq<byte>, held: seq<byte>, v: Vars, piece: seq<byte>)
    requires Holds(fed, held, v) && |held| + |piece| <= 64
    ensures |held| + |piece| < 64 ==> Holds(fed + piece, held + piece, v)
    ensures |held| + |piece| == 64 ==> Holds(fed + piece, [], Compress(v, held + piece))
  {
    hide Compress, HashBlocks;
    var all, whole := fed + piece, fed[..|fed| - |held|];
    assert fed == whole + held;
    assert all == whole + (held + piece);
    if |held| + |piece| < 64 {
      assert all[..|whole|] == whole;
    } else {
      assert all[..|all| - 64] == whole && all[|all| - 64..] == held + piece;
      assert all[..|all|] == all && all[|all|..] == [];
      HashOneMore(all);
    }
  }

  lemma HoldsAll(fed: seq<byte>, v: Vars)
    requires Holds(fed, [], v)
    ensures |fed| % 64 == 0 && v == HashBlocks(INITIAL, fed)
  {
    hide HashBlocks;
    assert fed[..|fed|] == fed;
  }

  lemma AddWraps(n: nat, k: nat)
    ensures (n % TWO64 + k) % TWO64 == (n + k) % TWO64
  {}

  lemma Fills(n: nat, k: nat)
    requires n % 64 + k <= 64
    ensures (n + k) % 64 == if n % 64 + k == 64 then 0 else n % 64 + k
  {}

  lemma BitCount(n: nat)
    ensures (n % TWO64) * 8 % TWO64 == 8 * n % TWO64
  {
    var q := n / TWO64;
    assert n == TWO64 * q + n % TWO64;
    assert 8 * n == TWO64 * (8 * q) + 8 * (n % TWO64);
  }

  /** Any sequence of updates and a final give the digest of everything that was fed, in order. */
  method HashPieces(pieces: seq<seq<byte>>) returns (digest: seq<byte>)
    ensures digest == Digest(Concat(pieces))
  {
    hide Hasher.Valid, Digest;
    var s := new Hasher();
    var i := 0;
    assert pieces[..0] == [];
    while i < |pieces|
      invariant i <= |pieces| && s.Valid() && fresh(s) && fresh(s.h) && fresh(s.block)
      invariant s.fed == Concat(pieces[..i])
    {
      s.Update(pieces[i]);
      ConcatSnoc(pieces[..i], pieces[i]);
      assert pieces[..i + 1] == pieces[..i] + [pieces[i]];
      i := i + 1;
    }
    assert pieces[..|pieces|] == pieces;
    digest := s.Final();
  }
}
