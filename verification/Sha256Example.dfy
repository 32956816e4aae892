/**
 * The example of FIPS 180-4: the hash of "abc", computed round by round.  It depends on every constant, rotation
 * and function of the standard.
 */
module Sha256Example {
  import opened Basics
  import opened Endian
  import opened Sha256

  // ---------------------------------------------------------------- one word, one round

  /** The rotations the standard uses, by shifts of a fixed width. */
  lemma Turns(x: word)
    ensures Rotr(x, 2) == (x >> 2) | (x << 30) && Rotr(x, 13) == (x >> 13) | (x << 19) &&
            Rotr(x, 22) == (x >> 22) | (x << 10)
    ensures Rotr(x, 6) == (x >> 6) | (x << 26) && Rotr(x, 11) == (x >> 11) | (x << 21) && Rotr(x, 25) == (x >> 25) | (x << 7)
    ensures Rotr(x, 7) == (x >> 7) | (x << 25) && Rotr(x, 18) == (x >> 18) | (x << 14)
    ensures Rotr(x, 17) == (x >> 17) | (x << 15) && Rotr(x, 19) == (x >> 19) | (x << 13)
  {}

  /** A word of the schedule from the four it depends on. */
  lemma Word(block: seq<byte>, t: nat, w: word)
    requires |block| == 64 && 16 <= t < 64
    requires Sum4(W(block, t - 16), Sigma0(W(block, t - 15)), W(block, t - 7), Sigma1(W(block, t - 2))) == w
    ensures W(block, t) == w
  {
    hide W, Sigma0, Sigma1, Sum4;
    WStep(block, t);
  }

  /** A round from its inputs: two new words, six that move on. */
  lemma Next(block: seq<byte>, t: nat, v: Vars, k: word, w: word, a: word, e: word) returns (next: Vars)
    requires |block| == 64 && t < 64 && Rounds(INITIAL, block, t) == v && K(t) == k && W(block, t) == w
    requires Round(v, k, w) == Vars(a, v.a, v.b, v.c, e, v.e, v.f, v.g)
    ensures next == Vars(a, v.a, v.b, v.c, e, v.e, v.f, v.g) && Rounds(INITIAL, block, t + 1) == next
  {
    hide Rounds, Round, K, W;
    RoundsStep(INITIAL, block, t + 1);
    next := Vars(a, v.a, v.b, v.c, e, v.e, v.f, v.g);
  }

  // ---------------------------------------------------------------- the block and its schedule

  const MESSAGE: seq<byte> := [97, 98, 99]

  predicate Block(block: seq<byte>) {
    |block| == 64 && block[..4] == [97, 98, 99, 0x80] && (forall i :: 4 <= i < 63 ==> block[i] == 0) && block[63] == 24
  }

  lemma PaddedMessage()
    ensures Block(Padded(MESSAGE))
  {
    hide ToBytes, PadZeros;
    ZerosNeeded();
    LengthField();
    var p := Padded(MESSAGE);
    assert p == MESSAGE + [0x80] + Zeros(52) + ([0, 0, 0, 0, 0, 0, 0] + [24]);
    assert p[..4] == [97, 98, 99, 0x80];
  }

  lemma ZerosNeeded()
    ensures PadZeros(3) == 52
  {}

  lemma LengthField()
    ensures ToBytes(24, 8) == [0, 0, 0, 0, 0, 0, 0] + [24]
  {
    assert ToBytes(0, 0) == [];
    assert ToBytes(0, 1) == [0];
    assert ToBytes(0, 2) == [0, 0];
    assert ToBytes(0, 3) == [0, 0, 0];
    assert ToBytes(0, 4) == [0, 0, 0, 0];
    assert ToBytes(0, 5) == [0, 0, 0, 0, 0];
    assert ToBytes(0, 6) == [0, 0, 0, 0, 0, 0];
    assert ToBytes(0, 7) == [0, 0, 0, 0, 0, 0, 0];
  }

  predicate Words0(block: seq<byte>)
    requires |block| == 64
  {
    W(block, 0) == 0x61626380 && (forall t :: 1 <= t < 15 ==> W(block, t) == 0) && W(block, 15) == 24
  }

  predicate Words1(block: seq<byte>)
    requires |block| == 64
  {
    && W(block, 16) == 0x61626380
    && W(block, 17) == 0x000f0000
    && W(block, 18) == 0x7da86405
    && W(block, 19) == 0x600003c6
    && W(block, 20) == 0x3e9d7b78
    && W(block, 21) == 0x0183fc00
    && W(block, 22) == 0x12dcbfdb
    && W(block, 23) == 0xe2e2c38e
    && W(block, 24) == 0xc8215c1a
    && W(block, 25) == 0xb73679a2
    && W(block, 26) == 0xe5bc3909
    && W(block, 27) == 0x32663c5b
    && W(block, 28) == 0x9d209d67
    && W(block, 29) == 0xec8726cb
    && W(block, 30) == 0x702138a4
    && W(block, 31) == 0xd3b7973b
  }

  predicate Words2(block: seq<byte>)
    requires |block| == 64
  {
    && W(block, 32) == 0x93f5997f
    && W(block, 33) == 0x3b68ba73
    && W(block, 34) == 0xaff4ffc1
    && W(block, 35) == 0xf10a5c62
    && W(block, 36) == 0x0a8b3996
    && W(block, 37) == 0x72af830a
    && W(block, 38) == 0x9409e33e
    && W(block, 39) == 0x24641522
    && W(block, 40) == 0x9f47bf94
    && W(block, 41) == 0xf0a64f5a
    && W(block, 42) == 0x3e246a79
    && W(block, 43) == 0x27333ba3
    && W(block, 44) == 0x0c4763f2
    && W(block, 45) == 0x840abf27
    && W(block, 46) == 0x7a290d5d
    && W(block, 47) == 0x065c43da
  }

  predicate Words3(block: seq<byte>)
    requires |block| == 64
  {
    && W(block, 48) == 0xfb3e89cb
    && W(block, 49) == 0xcc7617db
    && W(block, 50) == 0xb9e66c34
    && W(block, 51) == 0xa9993667
    && W(block, 52) == 0x84badedd
    && W(block, 53) == 0xc21462bc
    && W(block, 54) == 0x1487472c
    && W(block, 55) == 0xb20f7a99
    && W(block, 56) == 0xef57b9cd
    && W(block, 57) == 0xebe6b238
    && W(block, 58) == 0x9fe3095e
    && W(block, 59) == 0x78bc8d4b
    && W(block, 60) == 0xa43fcf15
    && W(block, 61) == 0x668b2ff8
    && W(block, 62) == 0xeeaba2cc
    && W(block, 63) == 0x12b1edeb
  }

  lemma FirstWords(block: seq<byte>)
    requires Block(block)
    ensures Words0(block)
  {
    hide WordOf;
    MessageWords();
    assert block[0] == block[..4][0] && block[1] == block[..4][1] && block[2] == block[..4][2] && block[3] == block[..4][3];
  }

  lemma MessageWords()
    ensures WordOf(97, 98, 99, 0x80) == 0x61626380 && WordOf(0, 0, 0, 0) == 0 && WordOf(0, 0, 0, 24) == 24
  {}

  lemma MoreWords1(block: seq<byte>)
    requires |block| == 64 && Words0(block)
    ensures Words1(block)
  {
    hide W, Rotr;
    Turns(0x00000000);
    Turns(0x00000000);
    Word(block, 16, 0x61626380);
    Turns(0x00000000);
    Turns(0x00000018);
    Word(block, 17, 0x000f0000);
    Turns(0x00000000);
    Turns(0x61626380);
    Word(block, 18, 0x7da86405);
    Turns(0x00000000);
    Turns(0x000f0000);
    Word(block, 19, 0x600003c6);
    Turns(0x00000000);
    Turns(0x7da86405);
    Word(block, 20, 0x3e9d7b78);
    Turns(0x00000000);
    Turns(0x600003c6);
    Word(block, 21, 0x0183fc00);
    Turns(0x00000000);
    Turns(0x3e9d7b78);
    Word(block, 22, 0x12dcbfdb);
    Turns(0x00000000);
    Turns(0x0183fc00);
    Word(block, 23, 0xe2e2c38e);
    Turns(0x00000000);
    Turns(0x12dcbfdb);
    Word(block, 24, 0xc8215c1a);
    Turns(0x00000000);
    Turns(0xe2e2c38e);
    Word(block, 25, 0xb73679a2);
    Turns(0x00000000);
    Turns(0xc8215c1a);
    Word(block, 26, 0xe5bc3909);
    Turns(0x00000000);
    Turns(0xb73679a2);
    Word(block, 27, 0x32663c5b);
    Turns(0x00000000);
    Turns(0xe5bc3909);
    Word(block, 28, 0x9d209d67);
    Turns(0x00000000);
    Turns(0x32663c5b);
    Word(block, 29, 0xec8726cb);
    Turns(0x00000018);
    Turns(0x9d209d67);
    Word(block, 30, 0x702138a4);
    Turns(0x61626380);
    Turns(0xec8726cb);
    Word(block, 31, 0xd3b7973b);
  }

  lemma MoreWords2(block: seq<byte>)
    requires |block| == 64 && Words0(block) && Words1(block)
    ensures Words2(block)
  {
    hide W, Rotr;
    Turns(0x000f0000);
    Turns(0x702138a4);
    Word(block, 32, 0x93f5997f);
    Turns(0x7da86405);
    Turns(0xd3b7973b);
    Word(block, 33, 0x3b68ba73);
    Turns(0x600003c6);
    Turns(0x93f5997f);
    Word(block, 34, 0xaff4ffc1);
    Turns(0x3e9d7b78);
    Turns(0x3b68ba73);
    Word(block, 35, 0xf10a5c62);
    Turns(0x0183fc00);
    Turns(0xaff4ffc1);
    Word(block, 36, 0x0a8b3996);
    Turns(0x12dcbfdb);
    Turns(0xf10a5c62);
    Word(block, 37, 0x72af830a);
    Turns(0xe2e2c38e);
    Turns(0x0a8b3996);
    Word(block, 38, 0x9409e33e);
    Turns(0xc8215c1a);
    Turns(0x72af830a);
    Word(block, 39, 0x24641522);
    Turns(0xb73679a2);
    Turns(0x9409e33e);
    Word(block, 40, 0x9f47bf94);
    Turns(0xe5bc3909);
    Turns(0x24641522);
    Word(block, 41, 0xf0a64f5a);
    Turns(0x32663c5b);
    Turns(0x9f47bf94);
    Word(block, 42, 0x3e246a79);
    Turns(0x9d209d67);
    Turns(0xf0a64f5a);
    Word(block, 43, 0x27333ba3);
    Turns(0xec8726cb);
    Turns(0x3e246a79);
    Word(block, 44, 0x0c4763f2);
    Turns(0x702138a4);
    Turns(0x27333ba3);
    Word(block, 45, 0x840abf27);
    Turns(0xd3b7973b);
    Turns(0x0c4763f2);
    Word(block, 46, 0x7a290d5d);
    Turns(0x93f5997f);
    Turns(0x840abf27);
    Word(block, 47, 0x065c43da);
  }

  lemma MoreWords3(block: seq<byte>)
    requires |block| == 64 && Words0(block) && Words1(block) && Words2(block)
    ensures Words3(block)
  {
    hide W, Rotr;
    Turns(0x3b68ba73);
    Turns(0x7a290d5d);
    Word(block, 48, 0xfb3e89cb);
    Turns(0xaff4ffc1);
    Turns(0x065c43da);
    Word(block, 49, 0xcc7617db);
    Turns(0xf10a5c62);
    Turns(0xfb3e89cb);
    Word(block, 50, 0xb9e66c34);
    Turns(0x0a8b3996);
    Turns(0xcc7617db);
    Word(block, 51, 0xa9993667);
    Turns(0x72af830a);
    Turns(0xb9e66c34);
    Word(block, 52, 0x84badedd);
    Turns(0x9409e33e);
    Turns(0xa9993667);
    Word(block, 53, 0xc21462bc);
    Turns(0x24641522);
    Turns(0x84badedd);
    Word(block, 54, 0x1487472c);
    Turns(0x9f47bf94);
    Turns(0xc21462bc);
    Word(block, 55, 0xb20f7a99);
    Turns(0xf0a64f5a);
    Turns(0x1487472c);
    Word(block, 56, 0xef57b9cd);
    Turns(0x3e246a79);
    Turns(0xb20f7a99);
    Word(block, 57, 0xebe6b238);
    Turns(0x27333ba3);
    Turns(0xef57b9cd);
    Word(block, 58, 0x9fe3095e);
    Turns(0x0c4763f2);
    Turns(0xebe6b238);
    Word(block, 59, 0x78bc8d4b);
    Turns(0x840abf27);
    Turns(0x9fe3095e);
    Word(block, 60, 0xa43fcf15);
    Turns(0x7a290d5d);
    Turns(0x78bc8d4b);
    Word(block, 61, 0x668b2ff8);
    Turns(0x065c43da);
    Turns(0xa43fcf15);
    Word(block, 62, 0xeeaba2cc);
    Turns(0xfb3e89cb);
    Turns(0x668b2ff8);
    Word(block, 63, 0x12b1edeb);
  }

  // ---------------------------------------------------------------- the rounds

  lemma Rounds0(block: seq<byte>, start: Vars) returns (v: Vars)
    requires |block| == 64 && Words0(block) &&
             start == Vars(0x6a09e667, 0xbb67ae85, 0x3c6ef372, 0xa54ff53a, 0x510e527f, 0x9b05688c, 0x1f83d9ab, 0x5be0cd19) &&
             Rounds(INITIAL, block, 0) == start
    ensures v == Vars(0x85a07b5f, 0xe5030380, 0x2b4209f5, 0x04409a6a, 0x0c657a79, 0x9b27a401, 0x714260ad, 0x43ada245) &&
            Rounds(INITIAL, block, 8) == v
  {
    hide W, Rounds, K, Rotr;
    Constants0();
    v := start;
    Turns(0x6a09e667);
    Turns(0x510e527f);
    v := Next(block, 0, v, 0x428a2f98, 0x61626380, 0x5d6aebcd, 0xfa2a4622);
    Turns(0x5d6aebcd);
    Turns(0xfa2a4622);
    v := Next(block, 1, v, 0x71374491, 0x00000000, 0x5a6ad9ad, 0x78ce7989);
    Turns(0x5a6ad9ad);
    Turns(0x78ce7989);
    v := Next(block, 2, v, 0xb5c0fbcf, 0x00000000, 0xc8c347a7, 0xf92939eb);
    Turns(0xc8c347a7);
    Turns(0xf92939eb);
    v := Next(block, 3, v, 0xe9b5dba5, 0x00000000, 0xd550f666, 0x24e00850);
    Turns(0xd550f666);
    Turns(0x24e00850);
    v := Next(block, 4, v, 0x3956c25b, 0x00000000, 0x04409a6a, 0x43ada245);
    Turns(0x04409a6a);
    Turns(0x43ada245);
    v := Next(block, 5, v, 0x59f111f1, 0x00000000, 0x2b4209f5, 0x714260ad);
    Turns(0x2b4209f5);
    Turns(0x714260ad);
    v := Next(block, 6, v, 0x923f82a4, 0x00000000, 0xe5030380, 0x9b27a401);
    Turns(0xe5030380);
    Turns(0x9b27a401);
    v := Next(block, 7, v, 0xab1c5ed5, 0x00000000, 0x85a07b5f, 0x0c657a79);
  }

  lemma Constants0()
    ensures K(0) == 0x428a2f98 && K(1) == 0x71374491 && K(2) == 0xb5c0fbcf && K(3) == 0xe9b5dba5
    ensures K(4) == 0x3956c25b && K(5) == 0x59f111f1 && K(6) == 0x923f82a4 && K(7) == 0xab1c5ed5
  {}

  lemma Rounds1(block: seq<byte>, start: Vars) returns (v: Vars)
    requires |block| == 64 && Words0(block) &&
             start == Vars(0x85a07b5f, 0xe5030380, 0x2b4209f5, 0x04409a6a, 0x0c657a79, 0x9b27a401, 0x714260ad, 0x43ada245) &&
             Rounds(INITIAL, block, 8) == start
    ensures v == Vars(0xb0fa238e, 0xc0645fde, 0xd932eb16, 0x87912990, 0x07590dcd, 0x0b92f20c, 0x745a48de, 0x1e578218) &&
            Rounds(INITIAL, block, 16) == v
  {
    hide W, Rounds, K, Rotr;
    Constants1();
    v := start;
    Turns(0x85a07b5f);
    Turns(0x0c657a79);
    v := Next(block, 8, v, 0xd807aa98, 0x00000000, 0x8e04ecb9, 0x32ca2d8c);
    Turns(0x8e04ecb9);
    Turns(0x32ca2d8c);
    v := Next(block, 9, v, 0x12835b01, 0x00000000, 0x8c87346b, 0x1cc92596);
    Turns(0x8c87346b);
    Turns(0x1cc92596);
    v := Next(block, 10, v, 0x243185be, 0x00000000, 0x4798a3f4, 0x436b23e8);
    Turns(0x4798a3f4);
    Turns(0x436b23e8);
    v := Next(block, 11, v, 0x550c7dc3, 0x00000000, 0xf71fc5a9, 0x816fd6e9);
    Turns(0xf71fc5a9);
    Turns(0x816fd6e9);
    v := Next(block, 12, v, 0x72be5d74, 0x00000000, 0x87912990, 0x1e578218);
    Turns(0x87912990);
    Turns(0x1e578218);
    v := Next(block, 13, v, 0x80deb1fe, 0x00000000, 0xd932eb16, 0x745a48de);
    Turns(0xd932eb16);
    Turns(0x745a48de);
    v := Next(block, 14, v, 0x9bdc06a7, 0x00000000, 0xc0645fde, 0x0b92f20c);
    Turns(0xc0645fde);
    Turns(0x0b92f20c);
    v := Next(block, 15, v, 0xc19bf174, 0x00000018, 0xb0fa238e, 0x07590dcd);
  }

  lemma Constants1()
    ensures K(8) == 0xd807aa98 && K(9) == 0x12835b01 && K(10) == 0x243185be && K(11) == 0x550c7dc3
    ensures K(12) == 0x72be5d74 && K(13) == 0x80deb1fe && K(14) == 0x9bdc06a7 && K(15) == 0xc19bf174
  {}

  lemma Rounds2(block: seq<byte>, start: Vars) returns (v: Vars)
    requires |block| == 64 && Words1(block) &&
             start == Vars(0xb0fa238e, 0xc0645fde, 0xd932eb16, 0x87912990, 0x07590dcd, 0x0b92f20c, 0x745a48de, 0x1e578218) &&
             Rounds(INITIAL, block, 16) == start
    ensures v == Vars(0xc5d53d8d, 0xa7a3623f, 0xc2606d6d, 0x9dc68b63, 0xaa47c347, 0x49f5114a, 0xe1257970, 0x8ada8930) &&
            Rounds(INITIAL, block, 24) == v
  {
    hide W, Rounds, K, Rotr;
    Constants2();
    v := start;
    Turns(0xb0fa238e);
    Turns(0x07590dcd);
    v := Next(block, 16, v, 0xe49b69c1, 0x61626380, 0x21da9a9b, 0x8034229c);
    Turns(0x21da9a9b);
    Turns(0x8034229c);
    v := Next(block, 17, v, 0xefbe4786, 0x000f0000, 0xc2fbd9d1, 0x846ee454);
    Turns(0xc2fbd9d1);
    Turns(0x846ee454);
    v := Next(block, 18, v, 0x0fc19dc6, 0x7da86405, 0xfe777bbf, 0xcc899961);
    Turns(0xfe777bbf);
    Turns(0xcc899961);
    v := Next(block, 19, v, 0x240ca1cc, 0x600003c6, 0xe1f20c33, 0xb0638179);
    Turns(0xe1f20c33);
    Turns(0xb0638179);
    v := Next(block, 20, v, 0x2de92c6f, 0x3e9d7b78, 0x9dc68b63, 0x8ada8930);
    Turns(0x9dc68b63);
    Turns(0x8ada8930);
    v := Next(block, 21, v, 0x4a7484aa, 0x0183fc00, 0xc2606d6d, 0xe1257970);
    Turns(0xc2606d6d);
    Turns(0xe1257970);
    v := Next(block, 22, v, 0x5cb0a9dc, 0x12dcbfdb, 0xa7a3623f, 0x49f5114a);
    Turns(0xa7a3623f);
    Turns(0x49f5114a);
    v := Next(block, 23, v, 0x76f988da, 0xe2e2c38e, 0xc5d53d8d, 0xaa47c347);
  }

  lemma Constants2()
    ensures K(16) == 0xe49b69c1 && K(17) == 0xefbe4786 && K(18) == 0x0fc19dc6 && K(19) == 0x240ca1cc
    ensures K(20) == 0x2de92c6f && K(21) == 0x4a7484aa && K(22) == 0x5cb0a9dc && K(23) == 0x76f988da
  {}

  lemma Rounds3(block: seq<byte>, start: Vars) returns (v: Vars)
    requires |block| == 64 && Words1(block) &&
             start == Vars(0xc5d53d8d, 0xa7a3623f, 0xc2606d6d, 0x9dc68b63, 0xaa47c347, 0x49f5114a, 0xe1257970, 0x8ada8930) &&
             Rounds(INITIAL, block, 24) == start
    ensures v == Vars(0x73b33bf5, 0xea992a22, 0xa0060b30, 0x363482c9, 0xba591112, 0x0109ab3a, 0xade79437, 0x6112a3b7) &&
            Rounds(INITIAL, block, 32) == v
  {
    hide W, Rounds, K, Rotr;
    Constants3();
    v := start;
    Turns(0xc5d53d8d);
    Turns(0xaa47c347);
    v := Next(block, 24, v, 0x983e5152, 0xc8215c1a, 0x1c2c2838, 0x2823ef91);
    Turns(0x1c2c2838);
    Turns(0x2823ef91);
    v := Next(block, 25, v, 0xa831c66d, 0xb73679a2, 0xcde8037d, 0x14383d8e);
    Turns(0xcde8037d);
    Turns(0x14383d8e);
    v := Next(block, 26, v, 0xb00327c8, 0xe5bc3909, 0xb62ec4bc, 0xc74c6516);
    Turns(0xb62ec4bc);
    Turns(0xc74c6516);
    v := Next(block, 27, v, 0xbf597fc7, 0x32663c5b, 0x77d37528, 0xedffbff8);
    Turns(0x77d37528);
    Turns(0xedffbff8);
    v := Next(block, 28, v, 0xc6e00bf3, 0x9d209d67, 0x363482c9, 0x6112a3b7);
    Turns(0x363482c9);
    Turns(0x6112a3b7);
    v := Next(block, 29, v, 0xd5a79147, 0xec8726cb, 0xa0060b30, 0xade79437);
    Turns(0xa0060b30);
    Turns(0xade79437);
    v := Next(block, 30, v, 0x06ca6351, 0x702138a4, 0xea992a22, 0x0109ab3a);
    Turns(0xea992a22);
    Turns(0x0109ab3a);
    v := Next(block, 31, v, 0x14292967, 0xd3b7973b, 0x73b33bf5, 0xba591112);
  }

  lemma Constants3()
    ensures K(24) == 0x983e5152 && K(25) == 0xa831c66d && K(26) == 0xb00327c8 && K(27) == 0xbf597fc7
    ensures K(28) == 0xc6e00bf3 && K(29) == 0xd5a79147 && K(30) == 0x06ca6351 && K(31) == 0x14292967
  {}

  lemma Rounds4(block: seq<byte>, start: Vars) returns (v: Vars)
    requires |block| == 64 && Words2(block) &&
             start == Vars(0x73b33bf5, 0xea992a22, 0xa0060b30, 0x363482c9, 0xba591112, 0x0109ab3a, 0xade79437, 0x6112a3b7) &&
             Rounds(INITIAL, block, 32) == start
    ensures v == Vars(0x79ea687a, 0x6dc57a8a, 0x34df1604, 0x41a65cb1, 0x1efbc0a0, 0xf0781bc8, 0xa507a53d, 0x0772a26b) &&
            Rounds(INITIAL, block, 40) == v
  {
    hide W, Rounds, K, Rotr;
    Constants4();
    v := start;
    Turns(0x73b33bf5);
    Turns(0xba591112);
    v := Next(block, 32, v, 0x27b70a85, 0x93f5997f, 0x98e12507, 0x9cd9f5f6);
    Turns(0x98e12507);
    Turns(0x9cd9f5f6);
    v := Next(block, 33, v, 0x2e1b2138, 0x3b68ba73, 0xfe604df5, 0x59249dd3);
    Turns(0xfe604df5);
    Turns(0x59249dd3);
    v := Next(block, 34, v, 0x4d2c6dfc, 0xaff4ffc1, 0xa9a7738c, 0x085f3833);
    Turns(0xa9a7738c);
    Turns(0x085f3833);
    v := Next(block, 35, v, 0x53380d13, 0xf10a5c62, 0x65a0cfe4, 0xf4b002d6);
    Turns(0x65a0cfe4);
    Turns(0xf4b002d6);
    v := Next(block, 36, v, 0x650a7354, 0x0a8b3996, 0x41a65cb1, 0x0772a26b);
    Turns(0x41a65cb1);
    Turns(0x0772a26b);
    v := Next(block, 37, v, 0x766a0abb, 0x72af830a, 0x34df1604, 0xa507a53d);
    Turns(0x34df1604);
    Turns(0xa507a53d);
    v := Next(block, 38, v, 0x81c2c92e, 0x9409e33e, 0x6dc57a8a, 0xf0781bc8);
    Turns(0x6dc57a8a);
    Turns(0xf0781bc8);
    v := Next(block, 39, v, 0x92722c85, 0x24641522, 0x79ea687a, 0x1efbc0a0);
  }

  lemma Constants4()
    ensures K(32) == 0x27b70a85 && K(33) == 0x2e1b2138 && K(34) == 0x4d2c6dfc && K(35) == 0x53380d13
    ensures K(36) == 0x650a7354 && K(37) == 0x766a0abb && K(38) == 0x81c2c92e && K(39) == 0x92722c85
  {}

  lemma Rounds5(block: seq<byte>, start: Vars) returns (v: Vars)
    requires |block| == 64 && Words2(block) &&
             start == Vars(0x79ea687a, 0x6dc57a8a, 0x34df1604, 0x41a65cb1, 0x1efbc0a0, 0xf0781bc8, 0xa507a53d, 0x0772a26b) &&
             Rounds(INITIAL, block, 40) == start
    ensures v == Vars(0x4172328d, 0xa14c14b0, 0x72ab4b91, 0x26628815, 0xfecf0bc6, 0xd57b94a9, 0xb7755da1, 0xa80f11f0) &&
            Rounds(INITIAL, block, 48) == v
  {
    hide W, Rounds, K, Rotr;
    Constants5();
    v := start;
    Turns(0x79ea687a);
    Turns(0x1efbc0a0);
    v := Next(block, 40, v, 0xa2bfe8a1, 0x9f47bf94, 0xd6670766, 0x26352d63);
    Turns(0xd6670766);
    Turns(0x26352d63);
    v := Next(block, 41, v, 0xa81a664b, 0xf0a64f5a, 0xdf46652f, 0x838b2711);
    Turns(0xdf46652f);
    Turns(0x838b2711);
    v := Next(block, 42, v, 0xc24b8b70, 0x3e246a79, 0x17aa0dfe, 0xdecd4715);
    Turns(0x17aa0dfe);
    Turns(0xdecd4715);
    v := Next(block, 43, v, 0xc76c51a3, 0x27333ba3, 0x9d4baf93, 0xfda24c2e);
    Turns(0x9d4baf93);
    Turns(0xfda24c2e);
    v := Next(block, 44, v, 0xd192e819, 0x0c4763f2, 0x26628815, 0xa80f11f0);
    Turns(0x26628815);
    Turns(0xa80f11f0);
    v := Next(block, 45, v, 0xd6990624, 0x840abf27, 0x72ab4b91, 0xb7755da1);
    Turns(0x72ab4b91);
    Turns(0xb7755da1);
    v := Next(block, 46, v, 0xf40e3585, 0x7a290d5d, 0xa14c14b0, 0xd57b94a9);
    Turns(0xa14c14b0);
    Turns(0xd57b94a9);
    v := Next(block, 47, v, 0x106aa070, 0x065c43da, 0x4172328d, 0xfecf0bc6);
  }

  lemma Constants5()
    ensures K(40) == 0xa2bfe8a1 && K(41) == 0xa81a664b && K(42) == 0xc24b8b70 && K(43) == 0xc76c51a3
    ensures K(44) == 0xd192e819 && K(45) == 0xd6990624 && K(46) == 0xf40e3585 && K(47) == 0x106aa070
  {}

  lemma Rounds6(block: seq<byte>, start: Vars) returns (v: Vars)
    requires |block| == 64 && Words3(block) &&
             start == Vars(0x4172328d, 0xa14c14b0, 0x72ab4b91, 0x26628815, 0xfecf0bc6, 0xd57b94a9, 0xb7755da1, 0xa80f11f0) &&
             Rounds(INITIAL, block, 48) == start
    ensures v == Vars(0x38cc9913, 0x3ec45cdb, 0xf5702fdb, 0x101fd28f, 0x54cb266b, 0xe50e1b4f, 0x9f4787c3, 0x529e7d00) &&
            Rounds(INITIAL, block, 56) == v
  {
    hide W, Rounds, K, Rotr;
    Constants6();
    v := start;
    Turns(0x4172328d);
    Turns(0xfecf0bc6);
    v := Next(block, 48, v, 0x19a4c116, 0xfb3e89cb, 0x05757ceb, 0xbd714038);
    Turns(0x05757ceb);
    Turns(0xbd714038);
    v := Next(block, 49, v, 0x1e376c08, 0xcc7617db, 0xf11bfaa8, 0x6e5c390c);
    Turns(0xf11bfaa8);
    Turns(0x6e5c390c);
    v := Next(block, 50, v, 0x2748774c, 0xb9e66c34, 0x7a0508a1, 0x52f1ccf7);
    Turns(0x7a0508a1);
    Turns(0x52f1ccf7);
    v := Next(block, 51, v, 0x34b0bcb5, 0xa9993667, 0x886e7a22, 0x49231c1e);
    Turns(0x886e7a22);
    Turns(0x49231c1e);
    v := Next(block, 52, v, 0x391c0cb3, 0x84badedd, 0x101fd28f, 0x529e7d00);
    Turns(0x101fd28f);
    Turns(0x529e7d00);
    v := Next(block, 53, v, 0x4ed8aa4a, 0xc21462bc, 0xf5702fdb, 0x9f4787c3);
    Turns(0xf5702fdb);
    Turns(0x9f4787c3);
    v := Next(block, 54, v, 0x5b9cca4f, 0x1487472c, 0x3ec45cdb, 0xe50e1b4f);
    Turns(0x3ec45cdb);
    Turns(0xe50e1b4f);
    v := Next(block, 55, v, 0x682e6ff3, 0xb20f7a99, 0x38cc9913, 0x54cb266b);
  }

  lemma Constants6()
    ensures K(48) == 0x19a4c116 && K(49) == 0x1e376c08 && K(50) == 0x2748774c && K(51) == 0x34b0bcb5
    ensures K(52) == 0x391c0cb3 && K(53) == 0x4ed8aa4a && K(54) == 0x5b9cca4f && K(55) == 0x682e6ff3
  {}

  lemma Rounds7(block: seq<byte>, start: Vars) returns (v: Vars)
    requires |block| == 64 && Words3(block) &&
             start == Vars(0x38cc9913, 0x3ec45cdb, 0xf5702fdb, 0x101fd28f, 0x54cb266b, 0xe50e1b4f, 0x9f4787c3, 0x529e7d00) &&
             Rounds(INITIAL, block, 56) == start
    ensures v == Vars(0x506e3058, 0xd39a2165, 0x04d24d6c, 0xb85e2ce9, 0x5ef50f24, 0xfb121210, 0x948d25b6, 0x961f4894) &&
            Rounds(INITIAL, block, 64) == v
  {
    hide W, Rounds, K, Rotr;
    Constants7();
    v := start;
    Turns(0x38cc9913);
    Turns(0x54cb266b);
    v := Next(block, 56, v, 0x748f82ee, 0xef57b9cd, 0xfcd1887b, 0x9b5e906c);
    Turns(0xfcd1887b);
    Turns(0x9b5e906c);
    v := Next(block, 57, v, 0x78a5636f, 0xebe6b238, 0xc062d46f, 0x7e44008e);
    Turns(0xc062d46f);
    Turns(0x7e44008e);
    v := Next(block, 58, v, 0x84c87814, 0x9fe3095e, 0xffb70472, 0x6d83bfc6);
    Turns(0xffb70472);
    Turns(0x6d83bfc6);
    v := Next(block, 59, v, 0x8cc70208, 0x78bc8d4b, 0xb6ae8fff, 0xb21bad3d);
    Turns(0xb6ae8fff);
    Turns(0xb21bad3d);
    v := Next(block, 60, v, 0x90befffa, 0xa43fcf15, 0xb85e2ce9, 0x961f4894);
    Turns(0xb85e2ce9);
    Turns(0x961f4894);
    v := Next(block, 61, v, 0xa4506ceb, 0x668b2ff8, 0x04d24d6c, 0x948d25b6);
    Turns(0x04d24d6c);
    Turns(0x948d25b6);
    v := Next(block, 62, v, 0xbef9a3f7, 0xeeaba2cc, 0xd39a2165, 0xfb121210);
    Turns(0xd39a2165);
    Turns(0xfb121210);
    v := Next(block, 63, v, 0xc67178f2, 0x12b1edeb, 0x506e3058, 0x5ef50f24);
  }

  lemma Constants7()
    ensures K(56) == 0x748f82ee && K(57) == 0x78a5636f && K(58) == 0x84c87814 && K(59) == 0x8cc70208
    ensures K(60) == 0x90befffa && K(61) == 0xa4506ceb && K(62) == 0xbef9a3f7 && K(63) == 0xc67178f2
  {}

  // ---------------------------------------------------------------- the digest

  lemma AllRounds(block: seq<byte>)
    requires Block(block)
    ensures Rounds(INITIAL, block, 64) ==
            Vars(0x506e3058, 0xd39a2165, 0x04d24d6c, 0xb85e2ce9, 0x5ef50f24, 0xfb121210, 0x948d25b6, 0x961f4894)
  {
    hide W, Rounds, Words0, Words1, Words2, Words3;
    FirstWords(block);
    MoreWords1(block);
    MoreWords2(block);
    MoreWords3(block);
    RoundsStep(INITIAL, block, 0);
    var v := Rounds0(block, INITIAL);
    v := Rounds1(block, v);
    v := Rounds2(block, v);
    v := Rounds3(block, v);
    v := Rounds4(block, v);
    v := Rounds5(block, v);
    v := Rounds6(block, v);
    v := Rounds7(block, v);
  }

  lemma ChainingValue()
    ensures HashBlocks(INITIAL, Padded(MESSAGE)) ==
            Vars(0xba7816bf, 0x8f01cfea, 0x414140de, 0x5dae2223, 0xb00361a3, 0x96177a9c, 0xb410ff61, 0xf20015ad)
  {
    hide Rounds, Padded, Block;
    var block := Padded(MESSAGE);
    PaddedMessage();
    BlockLength(block);
    AllRounds(block);
    CompressIs(INITIAL, block);
    OneBlock(block);
  }

  lemma BlockLength(block: seq<byte>)
    requires Block(block)
    ensures |block| == 64
  {}

  lemma OneBlock(block: seq<byte>)
    requires |block| == 64
    ensures HashBlocks(INITIAL, block) == Compress(INITIAL, block)
  {
    hide Compress;
    assert block[..0] == [] && block[0..] == block;
  }

  lemma OutputBytes()
    ensures Output(Vars(0xba7816bf, 0x8f01cfea, 0x414140de, 0x5dae2223, 0xb00361a3, 0x96177a9c, 0xb410ff61, 0xf20015ad)) ==
            [0xba, 0x78, 0x16, 0xbf, 0x8f, 0x01, 0xcf, 0xea,
             0x41, 0x41, 0x40, 0xde, 0x5d, 0xae, 0x22, 0x23,
             0xb0, 0x03, 0x61, 0xa3, 0x96, 0x17, 0x7a, 0x9c,
             0xb4, 0x10, 0xff, 0x61, 0xf2, 0x00, 0x15, 0xad]
  {
    hide WordBytes;
    BytesOf0();
    BytesOf1();
    BytesOf2();
    BytesOf3();
    BytesOf4();
    BytesOf5();
    BytesOf6();
    BytesOf7();
  }

  lemma BytesOf0()
    ensures WordBytes(0xba7816bf) == [0xba, 0x78, 0x16, 0xbf]
  {}

  lemma BytesOf1()
    ensures WordBytes(0x8f01cfea) == [0x8f, 0x01, 0xcf, 0xea]
  {}

  lemma BytesOf2()
    ensures WordBytes(0x414140de) == [0x41, 0x41, 0x40, 0xde]
  {}

  lemma BytesOf3()
    ensures WordBytes(0x5dae2223) == [0x5d, 0xae, 0x22, 0x23]
  {}

  lemma BytesOf4()
    ensures WordBytes(0xb00361a3) == [0xb0, 0x03, 0x61, 0xa3]
  {}

  lemma BytesOf5()
    ensures WordBytes(0x96177a9c) == [0x96, 0x17, 0x7a, 0x9c]
  {}

  lemma BytesOf6()
    ensures WordBytes(0xb410ff61) == [0xb4, 0x10, 0xff, 0x61]
  {}

  lemma BytesOf7()
    ensures WordBytes(0xf20015ad) == [0xf2, 0x00, 0x15, 0xad]
  {}

  /** The standard's digest of "abc". */
  lemma DigestOfAbc()
    ensures Digest([97, 98, 99]) ==
            [0xba, 0x78, 0x16, 0xbf, 0x8f, 0x01, 0xcf, 0xea,
             0x41, 0x41, 0x40, 0xde, 0x5d, 0xae, 0x22, 0x23,
             0xb0, 0x03, 0x61, 0xa3, 0x96, 0x17, 0x7a, 0x9c,
             0xb4, 0x10, 0xff, 0x61, 0xf2, 0x00, 0x15, 0xad]
  {
    hide HashBlocks, Padded, Output;
    ChainingValue();
    OutputBytes();
  }
}
