/** UTF-8 as section 4 of RFC 3629 writes its grammar. */
module Utf8 {
  import opened Basics

  predicate Tail(b: byte) { 0x80 <= b <= 0xBF }

  /** Length of the character at the front of `s`; 0 if there is none or it is ill-formed. */
  function CharLen(s: seq<byte>): (n: nat)
    ensures n <= 4 && n <= |s|
  {
    if |s| >= 1 && s[0] <= 0x7F then 1
    else if |s| >= 2 && 0xC2 <= s[0] <= 0xDF && Tail(s[1]) then 2
    else if |s| >= 3 && Tail(s[2])
            && ((s[0] == 0xE0 && 0xA0 <= s[1] <= 0xBF)
                || (0xE1 <= s[0] <= 0xEC && Tail(s[1]))
                || (s[0] == 0xED && 0x80 <= s[1] <= 0x9F)
                || (0xEE <= s[0] <= 0xEF && Tail(s[1]))) then 3
    else if |s| >= 4 && Tail(s[2]) && Tail(s[3])
            && ((s[0] == 0xF0 && 0x90 <= s[1] <= 0xBF)
                || (0xF1 <= s[0] <= 0xF3 && Tail(s[1]))
                || (s[0] == 0xF4 && 0x80 <= s[1] <= 0x8F)) then 4
    else 0
  }

  predicate Valid(s: seq<byte>)
    decreases |s|
  {
    s == [] || (CharLen(s) > 0 && Valid(s[CharLen(s)..]))
  }

  /** A character ends where it ends, whatever follows. */
  lemma CharLenPrefix(s: seq<byte>)
    requires CharLen(s) > 0
    ensures CharLen(s) <= |s| && CharLen(s[..CharLen(s)]) == CharLen(s)
    ensures !Tail(s[0]) && forall i :: 0 < i < CharLen(s) ==> Tail(s[i])
  {}

  lemma CharLenWithin(s: seq<byte>, m: nat)
    requires 0 < CharLen(s) <= m <= |s|
    ensures CharLen(s[..m]) == CharLen(s)
  {}

  lemma {:induction false} ValidAppend(s: seq<byte>, t: seq<byte>)
    requires Valid(s) && Valid(t)
    ensures Valid(s + t)
    decreases |s|
  {
    if s == [] {
      assert s + t == t;
    } else {
      var n := CharLen(s);
      assert CharLen(s + t) == n;
      assert (s + t)[n..] == s[n..] + t;
      ValidAppend(s[n..], t);
    }
  }

  /** `is_char_boundary`: not in front of a continuation byte. */
  predicate IsBoundary(s: seq<byte>, i: nat) {
    i == 0 || i == |s| || (i < |s| && !Tail(s[i]))
  }

  /** Valid text cut at a boundary is two valid texts. */
  lemma {:induction false} CutAtBoundary(s: seq<byte>, i: nat)
    requires Valid(s) && i <= |s| && IsBoundary(s, i)
    ensures Valid(s[..i]) && Valid(s[i..])
    decreases |s|
  {
    hide CharLen;
    if i == 0 {
      assert s[..0] == [] && s[0..] == s;
    } else {
      var n := CharLen(s);
      CharLenPrefix(s);
      assert n <= i;
      assert s[..i][n..] == s[n..][..i - n] && s[i..] == s[n..][i - n..];
      CutAtBoundary(s[n..], i - n);
      CharLenWithin(s, i);
    }
  }

  /** Among any four neighbouring positions of valid text there is a boundary. */
  lemma {:induction false} BoundaryNear(s: seq<byte>, i: nat)
    requires Valid(s) && 3 < i <= |s|
    ensures IsBoundary(s, i) || IsBoundary(s, i - 1) || IsBoundary(s, i - 2) || IsBoundary(s, i - 3)
    decreases |s|
  {
    var n := CharLen(s);
    CharLenPrefix(s);
    if i - 3 > n {
      BoundaryNear(s[n..], i - n);
    } else if n < |s| {
      assert CharLen(s[n..]) > 0;
      CharLenPrefix(s[n..]);
    }
  }

  // ---------------------------------------------------------------- against the bit table

  /** A code point that is no surrogate. */
  predicate Scalar(c: nat) { c < 0xD800 || 0xE000 <= c <= 0x10FFFF }

  /** One character by the table of section 3: the code point's bits, six to each byte but the first. */
  function EncodeOne(c: nat): (s: seq<byte>)
    requires c <= 0x10FFFF
    ensures 1 <= |s| <= 4
  {
    if c <= 0x7F then [c]
    else if c <= 0x7FF then [0xC0 + c / 0x40, 0x80 + c % 0x40]
    else if c <= 0xFFFF then [0xE0 + c / 0x1000, 0x80 + c / 0x40 % 0x40, 0x80 + c % 0x40]
    else [0xF0 + c / 0x40000, 0x80 + c / 0x1000 % 0x40, 0x80 + c / 0x40 % 0x40, 0x80 + c % 0x40]
  }

  ghost predicate Scalars(cs: seq<nat>) { forall i :: 0 <= i < |cs| ==> Scalar(cs[i]) }

  function Encode(cs: seq<nat>): seq<byte>
    requires forall i :: 0 <= i < |cs| ==> cs[i] <= 0x10FFFF
  {
    if cs == [] then [] else EncodeOne(cs[0]) + Encode(cs[1..])
  }

  /** An encoded character is read as one, whatever follows. */
  lemma ReadsEncoded(c: nat, rest: seq<byte>)
    requires Scalar(c)
    ensures CharLen(EncodeOne(c) + rest) == |EncodeOne(c)|
  {
    hide CharLen;
    var x := EncodeOne(c);
    var s := x + rest;
    assert forall i :: 0 <= i < |x| ==> s[i] == x[i];
    if |x| <= 2 { ShortChars(s); } else if |x| == 3 { ThreeByteChars(s); } else { FourByteChars(s); }
  }

  lemma ShortChars(s: seq<byte>)
    requires s != []
    ensures s[0] <= 0x7F ==> CharLen(s) == 1
    ensures |s| >= 2 && 0xC2 <= s[0] <= 0xDF && Tail(s[1]) ==> CharLen(s) == 2
  {}

  lemma ThreeByteChars(s: seq<byte>)
    requires |s| >= 3
    ensures 0xE0 <= s[0] <= 0xEF && Tail(s[1]) && Tail(s[2]) && (s[0] == 0xE0 ==> s[1] >= 0xA0) && (s[0] == 0xED ==> s[1] < 0xA0) ==>
              CharLen(s) == 3
  {}

  lemma FourByteChars(s: seq<byte>)
    requires |s| >= 4
    ensures 0xF0 <= s[0] <= 0xF4 && Tail(s[1]) && Tail(s[2]) && Tail(s[3]) && (s[0] == 0xF0 ==> s[1] >= 0x90) && (s[0] == 0xF4 ==> s[1] < 0x90) ==>
              CharLen(s) == 4
  {}

  /** What the bytes of a character can be. */
  lemma CharForms(s: seq<byte>)
    requires CharLen(s) > 0
    ensures var n := CharLen(s);
            && n <= |s|
            && (n == 1 ==> s[0] <= 0x7F)
            && (n == 2 ==> 0xC2 <= s[0] <= 0xDF && Tail(s[1]))
            && (n == 3 ==> 0xE0 <= s[0] <= 0xEF && Tail(s[1]) && Tail(s[2])
                           && (s[0] == 0xE0 ==> s[1] >= 0xA0) && (s[0] == 0xED ==> s[1] < 0xA0))
            && (n == 4 ==> 0xF0 <= s[0] <= 0xF4 && Tail(s[1]) && Tail(s[2]) && Tail(s[3])
                           && (s[0] == 0xF0 ==> s[1] >= 0x90) && (s[0] == 0xF4 ==> s[1] < 0x90))
  {}

  /** Only encoded characters are read. */
  lemma OnlyEncodedRead(s: seq<byte>) returns (c: nat)
    requires CharLen(s) > 0
    ensures Scalar(c) && s[..CharLen(s)] == EncodeOne(c)
  {
    hide CharLen;
    CharForms(s);
    CharLenAtMost(s);
    var n := CharLen(s);
    if n == 1 {
      c := s[0];
    } else if n == 2 {
      c := TwoBytes(s[0], s[1]);
      assert s[..2] == [s[0], s[1]];
    } else if n == 3 {
      c := ThreeBytes(s[0], s[1], s[2]);
      assert s[..3] == [s[0], s[1], s[2]];
    } else {
      c := FourBytes(s[0], s[1], s[2], s[3]);
      assert s[..4] == [s[0], s[1], s[2], s[3]];
    }
  }

  lemma CharLenAtMost(s: seq<byte>)
    ensures CharLen(s) <= 4
  {}

  lemma TwoBytes(p: int, q: int) returns (c: nat)
    requires 0xC2 <= p <= 0xDF && 0x80 <= q <= 0xBF
    ensures Scalar(c) && EncodeOne(c) == [p, q]
  {
    c := (p - 0xC0) * 0x40 + (q - 0x80);
  }

  lemma ThreeBytes(p: int, q: int, r: int) returns (c: nat)
    requires 0xE0 <= p <= 0xEF && 0x80 <= q <= 0xBF && 0x80 <= r <= 0xBF
    requires (p == 0xE0 ==> q >= 0xA0) && (p == 0xED ==> q < 0xA0)
    ensures Scalar(c) && EncodeOne(c) == [p, q, r]
  {
    var high := (p - 0xE0) * 0x40 + (q - 0x80);
    c := high * 0x40 + (r - 0x80);
    SixBits(high, r - 0x80);
    SixBits(p - 0xE0, q - 0x80);
  }

  lemma SixBits(high: nat, low: nat)
    requires low < 0x40
    ensures var c := high * 0x40 + low;
            c / 0x40 == high && c % 0x40 == low && c / 0x1000 == high / 0x40 && c / 0x40000 == high / 0x1000
  {}

  lemma LastLength(c: nat, a: nat, b: nat, d: nat, e: nat)
    requires 0xFFFF < c <= 0x10FFFF && a <= 4 && b < 0x40 && d < 0x40 && e < 0x40
    requires c / 0x40000 == a && c / 0x1000 % 0x40 == b && c / 0x40 % 0x40 == d && c % 0x40 == e
    ensures EncodeOne(c) == [0xF0 + a, 0x80 + b, 0x80 + d, 0x80 + e]
  {}

  lemma FourBytes(p: int, q: int, r: int, t: int) returns (c: nat)
    requires 0xF0 <= p <= 0xF4 && 0x80 <= q <= 0xBF && 0x80 <= r <= 0xBF && 0x80 <= t <= 0xBF
    requires (p == 0xF0 ==> q >= 0x90) && (p == 0xF4 ==> q < 0x90)
    ensures Scalar(c) && EncodeOne(c) == [p, q, r, t]
  {
    var top := (p - 0xF0) * 0x40 + (q - 0x80);
    var high := top * 0x40 + (r - 0x80);
    c := high * 0x40 + (t - 0x80);
    SixBits(high, t - 0x80);
    SixBits(top, r - 0x80);
    SixBits(p - 0xF0, q - 0x80);
    LastLength(c, p - 0xF0, q - 0x80, r - 0x80, t - 0x80);
  }

  lemma {:induction false} EncodedIsValid(cs: seq<nat>)
    requires Scalars(cs)
    ensures Valid(Encode(cs))
  {
    hide CharLen, EncodeOne;
    if cs != [] {
      var rest := Encode(cs[1..]);
      ReadsEncoded(cs[0], rest);
      NotEmpty(cs[0]);
      assert (EncodeOne(cs[0]) + rest)[|EncodeOne(cs[0])|..] == rest;
      EncodedIsValid(cs[1..]);
    }
  }

  lemma NotEmpty(c: nat)
    requires c <= 0x10FFFF
    ensures |EncodeOne(c)| > 0
  {}

  lemma {:induction false} ValidIsEncoded(s: seq<byte>) returns (cs: seq<nat>)
    requires Valid(s)
    ensures Scalars(cs) && s == Encode(cs)
    decreases |s|
  {
    hide CharLen, EncodeOne;
    if s == [] {
      cs := [];
    } else {
      CharLenPrefix(s);
      var c := OnlyEncodedRead(s);
      var more := ValidIsEncoded(s[CharLen(s)..]);
      cs := [c] + more;
      assert cs[1..] == more && s == s[..CharLen(s)] + s[CharLen(s)..];
    }
  }

  /** The texts called valid are exactly the encodings of sequences of scalar values. */
  lemma ValidIff(s: seq<byte>)
    ensures Valid(s) <==> exists cs :: Scalars(cs) && s == Encode(cs)
  {
    hide Valid, Encode;
    if Valid(s) { var cs := ValidIsEncoded(s); }
    if cs :| Scalars(cs) && s == Encode(cs) { EncodedIsValid(cs); }
  }
}
