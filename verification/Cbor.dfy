/** The subset of CBOR (RFC 8949) that firmware and daemon share: heads, and the items built on them. */
module Cbor {
  import opened Basics
  import opened Endian

  const UINT: nat := 0
  const NINT: nat := 1
  const BYTES: nat := 2
  const TEXT: nat := 3
  const ARRAY: nat := 4
  const SIMPLE: nat := 7

  const U64_LIMIT := 0x1_0000_0000_0000_0000
  const I64_MAX := 0x7FFF_FFFF_FFFF_FFFF

  /** How many argument bytes follow the initial byte of the shortest head for `v`. */
  function ArgSize(v: nat): nat {
    if v < 24 then 0 else if v <= 0xFF then 1 else if v <= 0xFFFF then 2 else if v <= 0xFFFF_FFFF then 4 else 8
  }

  /** The additional information that announces `k` argument bytes. */
  function AiOf(k: nat): nat
    requires k == 1 || k == 2 || k == 4 || k == 8
  {
    if k == 1 then 24 else if k == 2 then 25 else if k == 4 then 26 else 27
  }

  /** The canonical head: initial byte and the shortest argument that holds `v`. */
  function Head(major: nat, v: nat): seq<byte>
    requires major < 8 && v < U64_LIMIT
  {
    var k := ArgSize(v);
    if k == 0 then [32 * major + v] else [32 * major + AiOf(k)] + ToBytes(v, k)
  }

  datatype HeadRead = HeadRead(major: nat, arg: nat, size: nat)

  /** `read_head`: reserved and indefinite lengths are refused. */
  function ReadHead(s: seq<byte>): (r: Option<HeadRead>)
    ensures r.Some? ==> r.value.major < 8 && 1 <= r.value.size <= |s| && r.value.arg < U64_LIMIT
  {
    if s == [] then None
    else
      var major, ai := s[0] / 32, s[0] % 32;
      if ai < 24 then Some(HeadRead(major, ai, 1))
      else if ai > 27 then None
      else
        var k := if ai == 24 then 1 else if ai == 25 then 2 else if ai == 26 then 4 else 8;
        if |s| - 1 < k then None
        else
          NumberOfBytes(s[1..1 + k]);
          Pow256Values();
          Some(HeadRead(major, BigEndian(s[1..1 + k]), 1 + k))
  }

  lemma ArgFits(v: nat)
    requires v < U64_LIMIT
    ensures v < Pow256(ArgSize(v)) || ArgSize(v) == 0
  {
    Pow256Values();
  }

  /** Reading a head back. */
  lemma ReadsHead(major: nat, v: nat, rest: seq<byte>)
    requires major < 8 && v < U64_LIMIT
    ensures ReadHead(Head(major, v) + rest) == Some(HeadRead(major, v, |Head(major, v)|))
  {
    hide ToBytes, BigEndian, Pow256;
    var k := ArgSize(v);
    var s := Head(major, v) + rest;
    if k > 0 {
      ArgFits(v);
      BytesOfNumber(v, k);
      assert s[1..1 + k] == ToBytes(v, k);
    }
  }

  /** Of all heads a reader accepts for a value, the canonical one is the only shortest. */
  lemma HeadIsShortest(s: seq<byte>)
    requires ReadHead(s).Some?
    ensures var r := ReadHead(s).value;
            |Head(r.major, r.arg)| <= r.size && (|Head(r.major, r.arg)| == r.size ==> s[..r.size] == Head(r.major, r.arg))
  {
    var r := ReadHead(s).value;
    if r.size == 1 {
      assert s[..1] == [s[0]];
    } else {
      var k := r.size - 1;
      NumberOfBytes(s[1..1 + k]);
      Pow256Values();
      assert s[..r.size] == [s[0]] + s[1..1 + k];
    }
  }

  // ---------------------------------------------------------------- the Python reference encoder

  /** `cbor_head` of the schema generator, which spells each width out. */
  function PythonHead(major: nat, value: nat): seq<byte>
    requires major < 8 && value < U64_LIMIT
  {
    var m := 32 * major;
    if value < 24 then [m + value]
    else if value <= 0xFF then [m + 24, value]
    else if value <= 0xFFFF then [m + 25] + ToBytes(value, 2)
    else if value <= 0xFFFF_FFFF then [m + 26] + ToBytes(value, 4)
    else [m + 27] + ToBytes(value, 8)
  }

  lemma PythonHeadAgrees(major: nat, value: nat)
    requires major < 8 && value < U64_LIMIT
    ensures PythonHead(major, value) == Head(major, value)
  {
    if 24 <= value <= 0xFF { assert ToBytes(value, 1) == ToBytes(value / 256, 0) + [value]; }
  }

  // ---------------------------------------------------------------- items

  /** An item and the number of bytes it took. */
  datatype Got<+T> = Got(value: T, size: nat)

  function ReadUint(s: seq<byte>): (r: Option<Got<nat>>)
    ensures r.Some? ==> 1 <= r.value.size <= |s|
  {
    match ReadHead(s)
    case Some(HeadRead(major, arg, size)) => if major == UINT then Some(Got(arg, size)) else None
    case None => None
  }

  /** `nev_cbor_r_i64`: what does not fit a signed word is refused. */
  function ReadInt(s: seq<byte>): (r: Option<Got<int>>)
    ensures r.Some? ==> 1 <= r.value.size <= |s| && -I64_MAX - 1 <= r.value.value <= I64_MAX
  {
    match ReadHead(s)
    case None => None
    case Some(HeadRead(major, arg, size)) =>
      if arg > I64_MAX then None
      else if major == UINT then Some(Got(arg, size))
      else if major == NINT then Some(Got(-(arg as int) - 1, size))
      else None
  }

  function ReadBool(s: seq<byte>): (r: Option<Got<bool>>)
    ensures r.Some? ==> 1 <= r.value.size <= |s|
  {
    if s == [] then None
    else if s[0] == 0xF5 then Some(Got(true, 1))
    else if s[0] == 0xF4 then Some(Got(false, 1))
    else None
  }

  /** The 32 bits of a float. */
  function ReadFloat(s: seq<byte>): (r: Option<Got<nat>>)
    ensures r.Some? ==> 1 <= r.value.size <= |s|
  {
    if |s| < 5 || s[0] != 0xFA then None else Some(Got(BigEndian(s[1..5]), 5))
  }

  /** A byte or text string; the declared length is checked against what is there. */
  function ReadString(major: nat, s: seq<byte>): (r: Option<Got<seq<byte>>>)
    ensures r.Some? ==> 1 <= r.value.size <= |s|
  {
    match ReadHead(s)
    case None => None
    case Some(HeadRead(m, arg, size)) =>
      if m != major || arg > |s| - size then None
      else Some(Got(s[size..size + arg], size + arg))
  }

  function ReadArray(s: seq<byte>): (r: Option<Got<nat>>)
    ensures r.Some? ==> 1 <= r.value.size <= |s|
  {
    match ReadHead(s)
    case None => None
    case Some(HeadRead(m, arg, size)) =>
      if m != ARRAY || arg > |s| - size then None else Some(Got(arg, size))
  }

  /** One element inside an array that is being skipped: anything but another array. */
  function SkipElement(s: seq<byte>): (r: Option<nat>)
    ensures r.Some? ==> 1 <= r.value <= |s|
  {
    match ReadHead(s)
    case None => None
    case Some(HeadRead(m, arg, size)) =>
      if m == ARRAY then None
      else if m == BYTES || m == TEXT then (if arg > |s| - size then None else Some(size + arg))
      else Some(size)
  }

  function SkipElements(s: seq<byte>, count: nat): (r: Option<nat>)
    ensures r.Some? ==> r.value <= |s|
    decreases count
  {
    if count == 0 then Some(0)
    else match SkipElement(s)
      case None => None
      case Some(n) =>
        match SkipElements(s[n..], count - 1)
        case None => None
        case Some(m) => Some(n + m)
  }

  /** `nev_cbor_r_skip`: steps over one item, one level of array at most. */
  function Skip(s: seq<byte>): (r: Option<nat>)
    ensures r.Some? ==> 1 <= r.value <= |s|
  {
    match ReadHead(s)
    case None => None
    case Some(HeadRead(m, arg, size)) =>
      if m == UINT || m == NINT || m == SIMPLE then Some(size)
      else if m == BYTES || m == TEXT then (if arg > |s| - size then None else Some(size + arg))
      else if m == ARRAY then
        (match SkipElements(s[size..], arg)
         case None => None
         case Some(n) => Some(size + n))
      else None
  }
}
