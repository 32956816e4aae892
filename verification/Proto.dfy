/**
 * The generated messages, once for every schema: encoders and decoders driven by a list of field types,
 * the way the generator writes them out for C and for Rust.
 */
module Proto {
  import opened Basics
  import opened Endian
  import opened Cbor
  import Utf8

  datatype FieldType = U8 | U16 | U32 | U64 | I32 | Bool | F32 | Str(max: nat) | Raw(max: nat)

  /** `Num` for the integers, `Bits` for a float's bit pattern, `Data` for text and byte strings. */
  datatype Value = Num(n: int) | Flag(b: bool) | Bits(bits: nat) | Data(s: seq<byte>)

  function Limit(t: FieldType): int {
    match t
    case U8 => 0xFF
    case U16 => 0xFFFF
    case U32 => 0xFFFF_FFFF
    case _ => U64_LIMIT - 1
  }

  /** The value has the type's form, whatever its length. */
  predicate Typed(t: FieldType, v: Value) {
    match t
    case I32 => v.Num? && -0x8000_0000 <= v.n < 0x8000_0000
    case Bool => v.Flag?
    case F32 => v.Bits? && v.bits < 0x1_0000_0000
    case Str(_) => v.Data? && |v.s| < U64_LIMIT
    case Raw(_) => v.Data? && |v.s| < U64_LIMIT
    case _ => v.Num? && 0 <= v.n <= Limit(t)
  }

  /** It also respects the schema's bound on strings. */
  predicate InBounds(t: FieldType, v: Value) {
    Typed(t, v) && (t.Str? || t.Raw? ==> |v.s| <= t.max)
  }

  predicate AllTyped(ts: seq<FieldType>, vs: seq<Value>) {
    |ts| == |vs| && forall i :: 0 <= i < |ts| ==> Typed(ts[i], vs[i])
  }

  predicate AllInBounds(ts: seq<FieldType>, vs: seq<Value>) {
    |ts| == |vs| && forall i :: 0 <= i < |ts| ==> InBounds(ts[i], vs[i])
  }

  /** What a missing field decodes to. */
  function Zero(t: FieldType): Value {
    match t
    case Bool => Flag(false)
    case F32 => Bits(0)
    case Str(_) => Data([])
    case Raw(_) => Data([])
    case _ => Num(0)
  }

  function Zeros(ts: seq<FieldType>): seq<Value> {
    seq(|ts|, i requires 0 <= i < |ts| => Zero(ts[i]))
  }

  // ---------------------------------------------------------------- the canonical bytes

  function Field(t: FieldType, v: Value): seq<byte>
    requires Typed(t, v)
  {
    match t
    case I32 => if v.n < 0 then Head(NINT, -(v.n + 1)) else Head(UINT, v.n)
    case Bool => [if v.b then 0xF5 else 0xF4]
    case F32 => [0xFA] + ToBytes(v.bits, 4)
    case Str(_) => Head(TEXT, |v.s|) + v.s
    case Raw(_) => Head(BYTES, |v.s|) + v.s
    case _ => Head(UINT, v.n)
  }

  function Fields(ts: seq<FieldType>, vs: seq<Value>): seq<byte>
    requires AllTyped(ts, vs)
  {
    if ts == [] then [] else Field(ts[0], vs[0]) + Fields(ts[1..], vs[1..])
  }

  /** A message: an array of the id and the fields. */
  function Message(id: nat, ts: seq<FieldType>, vs: seq<Value>): seq<byte>
    requires id < 0x1_0000 && |ts| < U64_LIMIT - 1 && AllTyped(ts, vs)
  {
    Head(ARRAY, 1 + |ts|) + Head(UINT, id) + Fields(ts, vs)
  }

  // ---------------------------------------------------------------- the decoders

  /** Whose decoder reads: C's, Rust's, or none yet, `Wire` standing for what the bytes themselves say. */
  datatype Dialect = C | Rust | Wire

  type Side = d: Dialect | !d.Wire? witness C

  function Convert<T>(r: Option<Got<T>>, f: T --> Value): Option<Got<Value>>
    requires r.Some? ==> f.requires(r.value.value)
  {
    match r
    case None => None
    case Some(Got(x, n)) => Some(Got(f(x), n))
  }

  /** Rust's `as i32`. */
  function Truncate32(n: int): int {
    (n + 0x8000_0000) % 0x1_0000_0000 - 0x8000_0000
  }

  predicate FitsSigned(n: int) { -0x8000_0000 <= n < 0x8000_0000 }

  /**
   * One field.  The two sides differ in two places: Rust wants text to be UTF-8, where C takes any and has
   * the C string it begins with; and where C refuses an integer that does not fit a signed 32-bit field,
   * Rust cuts it down.
   */
  function ReadField(d: Dialect, t: FieldType, s: seq<byte>): Option<Got<Value>> {
    match t
    case Bool => Convert(ReadBool(s), b => Flag(b))
    case F32 => Convert(ReadFloat(s), n => Bits(n))
    case I32 =>
      (match ReadInt(s)
       case None => None
       case Some(Got(n, size)) =>
         if d == C && !FitsSigned(n) then None
         else Some(Got(Num(if d == Rust then Truncate32(n) else n), size)))
    case Str(max) =>
      (match ReadString(TEXT, s)
       case None => None
       case Some(Got(x, size)) =>
         if |x| > max || (d == Rust && !Utf8.Valid(x)) then None
         else Some(Got(Data(if d == C then CString(x) else x), size)))
    case Raw(max) =>
      (match ReadString(BYTES, s)
       case None => None
       case Some(Got(x, size)) => if |x| > max then None else Some(Got(Data(x), size)))
    case _ =>
      (match ReadUint(s)
       case None => None
       case Some(Got(n, size)) => if n > Limit(t) then None else Some(Got(Num(n), size)))
  }

  lemma ReadFieldSize(d: Dialect, t: FieldType, s: seq<byte>)
    ensures ReadField(d, t, s).Some? ==> 1 <= ReadField(d, t, s).value.size <= |s|
  {}

  function SkipAll(s: seq<byte>, count: nat): bool
    decreases count
  {
    count == 0 || (Skip(s).Some? && SkipAll(s[Skip(s).value..], count - 1))
  }

  /** `present` items follow for the fields `ts`: missing ones stay zero, surplus ones are stepped over. */
  function ReadFields(d: Dialect, ts: seq<FieldType>, present: nat, s: seq<byte>): Option<seq<Value>> {
    if ts == [] then (if SkipAll(s, present) then Some([]) else None)
    else if present == 0 then Some(Zeros(ts))
    else match ReadField(d, ts[0], s)
      case None => None
      case Some(Got(v, size)) =>
        ReadFieldSize(d, ts[0], s);
        match ReadFields(d, ts[1..], present - 1, s[size..])
        case None => None
        case Some(vs) => Some([v] + vs)
  }

  /** A generated decoder: None stands for any of its errors. */
  function Decode(d: Dialect, id: nat, ts: seq<FieldType>, s: seq<byte>): Option<seq<Value>> {
    match ReadArray(s)
    case None => None
    case Some(Got(count, size)) =>
      if count < 1 then None
      else match ReadUint(s[size..])
        case None => None
        case Some(Got(n, size2)) =>
          if n != id then None else ReadFields(d, ts, count - 1, s[size + size2..])
  }

  // ---------------------------------------------------------------- round trips

  /** The value suits the side that decodes it: text is UTF-8 for Rust and has no NUL for C. */
  predicate Readable(d: Dialect, t: FieldType, v: Value) {
    InBounds(t, v) && (t.Str? ==> (d == Rust ==> Utf8.Valid(v.s)) && (d == C ==> 0 !in v.s))
  }

  predicate AllReadable(d: Dialect, ts: seq<FieldType>, vs: seq<Value>) {
    |ts| == |vs| && forall i :: 0 <= i < |ts| ==> Readable(d, ts[i], vs[i])
  }

  lemma FieldRoundTrip(d: Dialect, t: FieldType, v: Value, rest: seq<byte>)
    requires Readable(d, t, v)
    ensures ReadField(d, t, Field(t, v) + rest) == Some(Got(v, |Field(t, v)|))
  {
    hide Head, ToBytes, Utf8.Valid, CString, ReadString, ReadUint, ReadInt, ReadFloat;
    match t
    case I32 => IntRoundTrip(v.n, rest);
    case Bool =>
    case F32 => FloatRoundTrip(v.bits, rest);
    case Str(_) =>
      StringRoundTrip(TEXT, v.s, rest);
      NulFreeSurvives(v.s);
    case Raw(_) => StringRoundTrip(BYTES, v.s, rest);
    case _ => UintRoundTrip(v.n, rest);
  }

  lemma UintRoundTrip(n: nat, rest: seq<byte>)
    requires n < U64_LIMIT
    ensures ReadUint(Head(UINT, n) + rest) == Some(Got(n, |Head(UINT, n)|))
  {
    hide Head, ReadHead;
    ReadsHead(UINT, n, rest);
  }

  lemma IntRoundTrip(n: int, rest: seq<byte>)
    requires FitsSigned(n)
    ensures var h := if n < 0 then Head(NINT, -(n + 1)) else Head(UINT, n); ReadInt(h + rest) == Some(Got(n, |h|))
  {
    hide Head, ReadHead;
    if n < 0 { ReadsHead(NINT, -(n + 1), rest); } else { ReadsHead(UINT, n, rest); }
  }

  lemma FloatRoundTrip(bits: nat, rest: seq<byte>)
    requires bits < 0x1_0000_0000
    ensures ReadFloat([0xFA] + ToBytes(bits, 4) + rest) == Some(Got(bits, 5))
  {
    hide ToBytes, BigEndian, Pow256;
    var s := [0xFA] + ToBytes(bits, 4) + rest;
    assert s[1..5] == ToBytes(bits, 4);
    Pow256Values();
    BytesOfNumber(bits, 4);
  }

  lemma StringRoundTrip(major: nat, x: seq<byte>, rest: seq<byte>)
    requires major < 8 && |x| < U64_LIMIT
    ensures ReadString(major, Head(major, |x|) + x + rest) == Some(Got(x, |Head(major, |x|)| + |x|))
  {
    var h := Head(major, |x|);
    assert h + x + rest == h + (x + rest);
    ReadsHead(major, |x|, x + rest);
    assert (h + x + rest)[|h|..|h| + |x|] == x;
  }

  /** A newer peer's field is one item, whatever its type. */
  lemma FieldSkipped(t: FieldType, v: Value, rest: seq<byte>)
    requires Typed(t, v)
    ensures Skip(Field(t, v) + rest) == Some(|Field(t, v)|)
  {
    hide Head, ReadHead, ToBytes, BigEndian, Skip;
    match t
    case I32 => if v.n < 0 { HeadSkipped(NINT, -(v.n + 1), rest); } else { HeadSkipped(UINT, v.n, rest); }
    case Bool => SimpleHeads(v.b, rest); SkipsSimple(Field(t, v) + rest);
    case F32 =>
      assert Field(t, v) + rest == [0xFA] + (ToBytes(v.bits, 4) + rest);
      FloatHead(ToBytes(v.bits, 4) + rest);
      SkipsSimple(Field(t, v) + rest);
    case Str(_) => StringSkipped(TEXT, v.s, rest);
    case Raw(_) => StringSkipped(BYTES, v.s, rest);
    case _ => HeadSkipped(UINT, v.n, rest);
  }

  lemma HeadSkipped(major: nat, n: nat, rest: seq<byte>)
    requires (major == UINT || major == NINT) && n < U64_LIMIT
    ensures Skip(Head(major, n) + rest) == Some(|Head(major, n)|)
  {
    hide Head, ReadHead, SkipElements;
    ReadsHead(major, n, rest);
  }

  lemma StringSkipped(major: nat, x: seq<byte>, rest: seq<byte>)
    requires (major == TEXT || major == BYTES) && |x| < U64_LIMIT
    ensures Skip(Head(major, |x|) + x + rest) == Some(|Head(major, |x|)| + |x|)
  {
    hide Head, ReadHead, SkipElements;
    assert Head(major, |x|) + x + rest == Head(major, |x|) + (x + rest);
    ReadsHead(major, |x|, x + rest);
  }

  lemma SkipsSimple(s: seq<byte>)
    requires ReadHead(s).Some? && ReadHead(s).value.major == SIMPLE
    ensures Skip(s) == Some(ReadHead(s).value.size)
  {
    hide ReadHead, SkipElements;
  }

  lemma {:induction false} SkipsFields(ts: seq<FieldType>, vs: seq<Value>)
    requires AllTyped(ts, vs)
    ensures SkipAll(Fields(ts, vs), |ts|)
  {
    if ts != [] {
      var rest := Fields(ts[1..], vs[1..]);
      FieldSkipped(ts[0], vs[0], rest);
      assert (Field(ts[0], vs[0]) + rest)[|Field(ts[0], vs[0])|..] == rest;
      SkipsFields(ts[1..], vs[1..]);
    }
  }

  lemma SimpleHeads(b: bool, rest: seq<byte>)
    ensures ReadHead([if b then 0xF5 else 0xF4] + rest) == Some(HeadRead(SIMPLE, if b then 21 else 20, 1))
  {}

  lemma FloatHead(rest: seq<byte>)
    requires |rest| >= 4
    ensures var r := ReadHead([0xFA] + rest); r.Some? && r.value.major == SIMPLE && r.value.size == 5
  {}

  lemma {:induction false} FieldsLength(ts: seq<FieldType>, vs: seq<Value>)
    requires AllTyped(ts, vs)
    ensures |Fields(ts, vs)| >= |ts|
  {
    if ts != [] { FieldsLength(ts[1..], vs[1..]); }
  }

  /** What a decoder that knows the fields `ds` makes of the values `vs`: extra ones dropped, missing ones zero. */
  function Fill(ds: seq<FieldType>, vs: seq<Value>): seq<Value> {
    if |ds| <= |vs| then vs[..|ds|] else vs + Zeros(ds[|vs|..])
  }

  /** One of the two schemas extends the other. */
  predicate Compatible(ds: seq<FieldType>, ts: seq<FieldType>) { ds <= ts || ts <= ds }

  predicate SharedReadable(d: Dialect, ds: seq<FieldType>, vs: seq<Value>) {
    forall i :: 0 <= i < |ds| && i < |vs| ==> Readable(d, ds[i], vs[i])
  }

  lemma FillEnds(ds: seq<FieldType>, vs: seq<Value>)
    ensures ds == [] ==> Fill(ds, vs) == []
    ensures vs == [] ==> Fill(ds, vs) == Zeros(ds)
  {}

  lemma FillStep(ds: seq<FieldType>, vs: seq<Value>)
    requires ds != [] && vs != []
    ensures Fill(ds, vs) == [vs[0]] + Fill(ds[1..], vs[1..])
  {
    hide Zero;
    assert vs == [vs[0]] + vs[1..];
    if |ds| > |vs| {
      assert ds[|vs|..] == ds[1..][|vs[1..]|..];
      assert vs + Zeros(ds[|vs|..]) == [vs[0]] + (vs[1..] + Zeros(ds[|vs|..]));
    } else {
      assert vs[..|ds|] == [vs[0]] + vs[1..][..|ds| - 1];
    }
  }

  lemma ReadFieldsEnds(d: Dialect, ds: seq<FieldType>, present: nat, s: seq<byte>)
    requires ds == [] || present == 0
    ensures ReadFields(d, ds, present, s) ==
            if ds == [] then (if SkipAll(s, present) then Some([]) else None) else Some(Zeros(ds))
  {}

  lemma ReadFieldsStep(d: Dialect, ds: seq<FieldType>, present: nat, s: seq<byte>, v: Value, size: nat)
    requires ds != [] && present > 0 && size <= |s| && ReadField(d, ds[0], s) == Some(Got(v, size))
    ensures ReadFields(d, ds, present, s) ==
            match ReadFields(d, ds[1..], present - 1, s[size..])
            case None => None
            case Some(vs) => Some([v] + vs)
  {}

  lemma ReadFieldsFails(d: Dialect, ts: seq<FieldType>, present: nat, s: seq<byte>)
    requires ts != [] && present > 0
    ensures ReadField(d, ts[0], s).None? ==> ReadFields(d, ts, present, s).None?
  {}

  lemma {:induction false} FieldsRoundTrip(d: Dialect, ds: seq<FieldType>, ts: seq<FieldType>, vs: seq<Value>)
    requires AllTyped(ts, vs) && Compatible(ds, ts) && SharedReadable(d, ds, vs)
    ensures ReadFields(d, ds, |ts|, Fields(ts, vs)) == Some(Fill(ds, vs))
    decreases |ds|
  {
    hide ReadField, ReadFields, Field, Typed, Readable, Zeros, SkipAll, Fill;
    if ds == [] {
      SkipsFields(ts, vs);
      ReadFieldsEnds(d, ds, |ts|, Fields(ts, vs));
      FillEnds(ds, vs);
    } else if ts == [] {
      ReadFieldsEnds(d, ds, |ts|, Fields(ts, vs));
      FillEnds(ds, vs);
    } else {
      var f, rest := Field(ts[0], vs[0]), Fields(ts[1..], vs[1..]);
      assert ds[0] == ts[0] && Readable(d, ds[0], vs[0]);
      FieldRoundTrip(d, ts[0], vs[0], rest);
      assert (f + rest)[|f|..] == rest;
      ReadFieldsStep(d, ds, |ts|, f + rest, vs[0], |f|);
      FieldsRoundTrip(d, ds[1..], ts[1..], vs[1..]);
      FillStep(ds, vs);
    }
  }

  /**
   * Either side decodes what either side encodes, and so do peers of different age: a decoder that knows
   * fewer fields ignores the rest, one that knows more reads the missing ones as zero.
   */
  lemma MessageRoundTrip(d: Dialect, id: nat, ds: seq<FieldType>, ts: seq<FieldType>, vs: seq<Value>)
    requires id < 0x1_0000 && |ts| < U64_LIMIT - 1
    requires AllTyped(ts, vs) && Compatible(ds, ts) && SharedReadable(d, ds, vs)
    ensures Decode(d, id, ds, Message(id, ts, vs)) == Some(Fill(ds, vs))
  {
    hide Head, ReadFields, Fields, ReadArray, ReadUint;
    var a, h, f := Head(ARRAY, 1 + |ts|), Head(UINT, id), Fields(ts, vs);
    MessageHeader(id, ts, vs);
    assert Message(id, ts, vs)[|a| + |h|..] == f;
    FieldsRoundTrip(d, ds, ts, vs);
  }

  /** A receiver can tell what a message is before it decodes it. */
  lemma MessageHeader(id: nat, ts: seq<FieldType>, vs: seq<Value>)
    requires id < 0x1_0000 && |ts| < U64_LIMIT - 1 && AllTyped(ts, vs)
    ensures var a, h, s := |Head(ARRAY, 1 + |ts|)|, |Head(UINT, id)|, Message(id, ts, vs);
            a <= |s| && ReadArray(s) == Some(Got(1 + |ts|, a)) && ReadUint(s[a..]) == Some(Got(id, h))
  {
    hide Head, ReadHead, Fields;
    var a, h, f := Head(ARRAY, 1 + |ts|), Head(UINT, id), Fields(ts, vs);
    var s := Message(id, ts, vs);
    assert s == a + (h + f) && s[|a|..] == h + f;
    ReadsHead(ARRAY, 1 + |ts|, h + f);
    ReadsHead(UINT, id, f);
    HeadNotEmpty(UINT, id);
    FieldsLength(ts, vs);
  }

  lemma HeadNotEmpty(major: nat, v: nat)
    requires major < 8 && v < U64_LIMIT
    ensures |Head(major, v)| >= 1
  {}

  /** A decoder of the same schema gets back the message itself. */
  lemma SameSchemaRoundTrip(d: Dialect, id: nat, ts: seq<FieldType>, vs: seq<Value>)
    requires id < 0x1_0000 && |ts| < U64_LIMIT - 1 && AllReadable(d, ts, vs)
    ensures AllTyped(ts, vs) && Decode(d, id, ts, Message(id, ts, vs)) == Some(vs)
  {
    hide Decode;
    assert forall i :: 0 <= i < |ts| ==> Readable(d, ts[i], vs[i]) && Typed(ts[i], vs[i]);
    MessageRoundTrip(d, id, ts, ts, vs);
    assert Fill(ts, vs) == vs;
  }

  // ---------------------------------------------------------------- what the two sides accept

  /** Whatever arrives, a decoder only yields values its struct can hold. */
  lemma DecodesInBounds(d: Side, id: nat, ts: seq<FieldType>, s: seq<byte>)
    ensures var r := Decode(d, id, ts, s); r.Some? ==> AllInBounds(ts, r.value)
  {
    hide ReadFields, AllInBounds;
    var a := ReadArray(s);
    if a.Some? && a.value.value >= 1 {
      var u := ReadUint(s[a.value.size..]);
      if u.Some? { FieldsInBounds(d, ts, a.value.value - 1, s[a.value.size + u.value.size..]); }
    }
  }

  lemma FieldInBounds(d: Side, t: FieldType, s: seq<byte>)
    ensures ReadField(d, t, s).Some? ==> InBounds(t, ReadField(d, t, s).value.value)
  {
    hide ReadUint, ReadInt, ReadString, ReadFloat, ReadBool, Utf8.Valid, CString;
    match t
    case F32 => FloatInRange(s);
    case Str(_) => StringInRange(TEXT, s); StringPrefix(s);
    case Raw(_) => StringInRange(BYTES, s);
    case Bool =>
    case I32 =>
    case _ => UintInRange(s);
  }

  lemma FloatInRange(s: seq<byte>)
    ensures ReadFloat(s).Some? ==> ReadFloat(s).value.value < 0x1_0000_0000
  {
    hide BigEndian;
    if |s| >= 5 {
      NumberOfBytes(s[1..5]);
      Pow256Values();
    }
  }

  lemma StringInRange(major: nat, s: seq<byte>)
    ensures ReadString(major, s).Some? ==> |ReadString(major, s).value.value| < U64_LIMIT
  {}

  lemma StringPrefix(s: seq<byte>)
    ensures ReadString(TEXT, s).Some? ==> |CString(ReadString(TEXT, s).value.value)| <= |ReadString(TEXT, s).value.value|
  {}

  lemma UintInRange(s: seq<byte>)
    ensures ReadUint(s).Some? ==> ReadUint(s).value.value < U64_LIMIT
  {}

  lemma {:induction false} FieldsInBounds(d: Side, ts: seq<FieldType>, present: nat, s: seq<byte>)
    ensures var r := ReadFields(d, ts, present, s); r.Some? ==> AllInBounds(ts, r.value)
  {
    hide ReadField, InBounds;
    if ts != [] && present > 0 {
      var f := ReadField(d, ts[0], s);
      if f.Some? {
        FieldInBounds(d, ts[0], s);
        ReadFieldSize(d, ts[0], s);
        FieldsInBounds(d, ts[1..], present - 1, s[f.value.size..]);
        var more := ReadFields(d, ts[1..], present - 1, s[f.value.size..]);
        if more.Some? { assert forall i :: 1 <= i < |ts| ==> ts[i] == ts[1..][i - 1]; }
      }
    } else {
      forall i | 0 <= i < |ts| ensures InBounds(ts[i], Zeros(ts)[i]) { ZeroInBounds(ts[i]); }
    }
  }

  lemma ZeroInBounds(t: FieldType)
    ensures InBounds(t, Zero(t))
  {}

  /** A value as a C struct holds it: of text, the C string it begins with. */
  function CView(t: FieldType, v: Value): (c: Value)
    ensures Typed(t, v) ==> Typed(t, c)
    ensures InBounds(t, v) ==> InBounds(t, c)
  {
    if t.Str? && v.Data? then Data(CString(v.s)) else v
  }

  function CViews(ts: seq<FieldType>, vs: seq<Value>): (cs: seq<Value>)
    requires |ts| == |vs|
    ensures |cs| == |vs| && (AllTyped(ts, vs) ==> AllTyped(ts, cs)) && (AllInBounds(ts, vs) ==> AllInBounds(ts, cs))
  {
    seq(|vs|, i requires 0 <= i < |vs| => CView(ts[i], vs[i]))
  }

  /** A value as a Rust struct holds it: a signed field keeps the low 32 bits. */
  function RustView(t: FieldType, v: Value): Value {
    if t.I32? && v.Num? then Num(Truncate32(v.n)) else v
  }

  function RustViews(ts: seq<FieldType>, vs: seq<Value>): (rs: seq<Value>)
    requires |ts| == |vs|
    ensures |rs| == |vs|
  {
    seq(|vs|, i requires 0 <= i < |vs| => RustView(ts[i], vs[i]))
  }

  predicate SignedFit(ts: seq<FieldType>, vs: seq<Value>) {
    |ts| == |vs| && forall i :: 0 <= i < |ts| && ts[i].I32? ==> vs[i].Num? && FitsSigned(vs[i].n)
  }

  predicate TextValid(ts: seq<FieldType>, vs: seq<Value>) {
    |ts| == |vs| && forall i :: 0 <= i < |ts| && ts[i].Str? ==> vs[i].Data? && Utf8.Valid(vs[i].s)
  }

  predicate NulFree(ts: seq<FieldType>, vs: seq<Value>) {
    |ts| == |vs| && forall i :: 0 <= i < |ts| && ts[i].Str? ==> vs[i].Data? && 0 !in vs[i].s
  }

  /** What C and what Rust make of the values on the wire. */
  function ByC(ts: seq<FieldType>, w: Option<seq<Value>>): Option<seq<Value>> {
    if w.Some? && SignedFit(ts, w.value) then Some(CViews(ts, w.value)) else None
  }

  function ByRust(ts: seq<FieldType>, w: Option<seq<Value>>): Option<seq<Value>> {
    if w.Some? && TextValid(ts, w.value) then Some(RustViews(ts, w.value)) else None
  }

  lemma FieldBySides(t: FieldType, s: seq<byte>)
    ensures var w, c, r := ReadField(Wire, t, s), ReadField(C, t, s), ReadField(Rust, t, s);
            if w.None? then c.None? && r.None?
            else
              var v, n := w.value.value, w.value.size;
              && (t.I32? ==> v.Num?) && (t.Str? ==> v.Data?)
              && c == (if t.I32? && !FitsSigned(v.n) then None else Some(Got(CView(t, v), n)))
              && r == (if t.Str? && !Utf8.Valid(v.s) then None else Some(Got(RustView(t, v), n)))
  {
    hide ReadHead, Utf8.Valid, Truncate32, CString, BigEndian;
  }

  lemma {:induction false} FieldsBySides(ts: seq<FieldType>, present: nat, s: seq<byte>)
    ensures var w := ReadFields(Wire, ts, present, s);
            && (w.Some? ==> |w.value| == |ts|)
            && ReadFields(C, ts, present, s) == ByC(ts, w)
            && ReadFields(Rust, ts, present, s) == ByRust(ts, w)
  {
    hide ReadField, ByC, ByRust;
    NothingReadBySides(ts);
    if ts == [] {
      NothingBySides();
    } else if present == 0 {
      ZerosBySides(ts);
    } else {
      FieldBySides(ts[0], s);
      var f := ReadField(Wire, ts[0], s);
      if f.Some? {
        ReadFieldSize(Wire, ts[0], s);
        FieldsBySides(ts[1..], present - 1, s[f.value.size..]);
        NothingReadBySides(ts[1..]);
        var more := ReadFields(Wire, ts[1..], present - 1, s[f.value.size..]);
        if more.Some? {
          ConsByC(ts, f.value.value, more.value);
          ConsByRust(ts, f.value.value, more.value);
        }
      }
    }
  }

  lemma NothingReadBySides(ts: seq<FieldType>)
    ensures ByC(ts, None) == None && ByRust(ts, None) == None
  {}

  lemma NothingBySides()
    ensures ByC([], Some([])) == Some([]) && ByRust([], Some([])) == Some([])
  {}

  lemma ZerosBySides(ts: seq<FieldType>)
    ensures ByC(ts, Some(Zeros(ts))) == Some(Zeros(ts)) && ByRust(ts, Some(Zeros(ts))) == Some(Zeros(ts))
  {
    assert Utf8.Valid([]) && Truncate32(0) == 0 && CString([]) == [];
    assert CViews(ts, Zeros(ts)) == Zeros(ts) && RustViews(ts, Zeros(ts)) == Zeros(ts);
  }

  /** What the sides make of a message whose first field is `v`. */
  lemma ConsByC(ts: seq<FieldType>, v: Value, vs: seq<Value>)
    requires ts != [] && |vs| == |ts| - 1 && (ts[0].I32? ==> v.Num?)
    ensures ByC(ts, Some([v] + vs)) ==
            if (ts[0].I32? && !FitsSigned(v.n)) || ByC(ts[1..], Some(vs)).None? then None
            else Some([CView(ts[0], v)] + ByC(ts[1..], Some(vs)).value)
  {
    hide SignedFit, CView, FitsSigned;
    SignedFitCons(ts, v, vs);
    assert CViews(ts, [v] + vs) == [CView(ts[0], v)] + CViews(ts[1..], vs);
  }

  lemma ConsByRust(ts: seq<FieldType>, v: Value, vs: seq<Value>)
    requires ts != [] && |vs| == |ts| - 1 && (ts[0].Str? ==> v.Data?)
    ensures ByRust(ts, Some([v] + vs)) ==
            if (ts[0].Str? && !Utf8.Valid(v.s)) || ByRust(ts[1..], Some(vs)).None? then None
            else Some([RustView(ts[0], v)] + ByRust(ts[1..], Some(vs)).value)
  {
    hide TextValid, RustView, Utf8.Valid;
    TextValidCons(ts, v, vs);
    assert RustViews(ts, [v] + vs) == [RustView(ts[0], v)] + RustViews(ts[1..], vs);
  }

  lemma SignedFitCons(ts: seq<FieldType>, v: Value, vs: seq<Value>)
    requires ts != []
    ensures SignedFit(ts, [v] + vs) <==> SignedFit(ts[1..], vs) && (ts[0].I32? ==> v.Num? && FitsSigned(v.n))
  {
    hide FitsSigned;
    var all := [v] + vs;
    if SignedFit(ts, all) { assert forall i :: 0 <= i < |ts| - 1 ==> ts[1..][i] == ts[i + 1] && vs[i] == all[i + 1]; }
  }

  lemma TextValidCons(ts: seq<FieldType>, v: Value, vs: seq<Value>)
    requires ts != []
    ensures TextValid(ts, [v] + vs) <==> TextValid(ts[1..], vs) && (ts[0].Str? ==> v.Data? && Utf8.Valid(v.s))
  {
    hide Utf8.Valid;
    var all := [v] + vs;
    if TextValid(ts, all) { assert forall i :: 0 <= i < |ts| - 1 ==> ts[1..][i] == ts[i + 1] && vs[i] == all[i + 1]; }
  }

  /**
   * On every byte string and for every schema, what either decoder yields is decided by the values on the
   * wire: C refuses integers that do not fit a signed field and shortens text at a NUL, Rust refuses text that
   * is not UTF-8 and cuts integers down.
   */
  lemma DecodersBySides(id: nat, ts: seq<FieldType>, s: seq<byte>)
    ensures var w := Decode(Wire, id, ts, s);
            && (w.Some? ==> |w.value| == |ts|)
            && Decode(C, id, ts, s) == ByC(ts, w) && Decode(Rust, id, ts, s) == ByRust(ts, w)
  {
    hide ReadFields, ByC, ByRust, ReadArray, ReadUint;
    NothingReadBySides(ts);
    var a := ReadArray(s);
    if a.Some? && a.value.value >= 1 {
      var u := ReadUint(s[a.value.size..]);
      if u.Some? { FieldsBySides(ts, a.value.value - 1, s[a.value.size + u.value.size..]); }
    }
  }

  /**
   * The two decoders of a schema do the same with a byte string exactly when it is no message at all, or both
   * refuse it, or every signed integer fits and every text is UTF-8 without NUL.
   */
  lemma DecodersAgreeIff(id: nat, ts: seq<FieldType>, s: seq<byte>)
    ensures var w := Decode(Wire, id, ts, s);
            Decode(C, id, ts, s) == Decode(Rust, id, ts, s) <==>
            || w.None?
            || (!SignedFit(ts, w.value) && !TextValid(ts, w.value))
            || (SignedFit(ts, w.value) && TextValid(ts, w.value) && NulFree(ts, w.value))
    ensures var w := Decode(Wire, id, ts, s);
            Decode(C, id, ts, s).Some? == Decode(Rust, id, ts, s).Some? <==>
            w.None? || (SignedFit(ts, w.value) <==> TextValid(ts, w.value))
  {
    hide Decode, SignedFit, TextValid, NulFree;
    DecodersBySides(id, ts, s);
    var w := Decode(Wire, id, ts, s);
    if w.Some? && SignedFit(ts, w.value) { ViewsAgreeIff(ts, w.value); }
  }

  lemma ViewsAgreeIff(ts: seq<FieldType>, vs: seq<Value>)
    requires |ts| == |vs| && SignedFit(ts, vs)
    ensures TextValid(ts, vs) ==> (CViews(ts, vs) == RustViews(ts, vs) <==> NulFree(ts, vs))
  {
    hide Utf8.Valid, CString;
    assert forall n: int :: FitsSigned(n) ==> Truncate32(n) == n;
    if TextValid(ts, vs) && CViews(ts, vs) == RustViews(ts, vs) {
      forall i | 0 <= i < |ts| && ts[i].Str? ensures 0 !in vs[i].s {
        assert CViews(ts, vs)[i] == RustViews(ts, vs)[i];
        NulFreeSurvives(vs[i].s);
      }
    }
    if TextValid(ts, vs) && NulFree(ts, vs) {
      forall i | 0 <= i < |ts| ensures CViews(ts, vs)[i] == RustViews(ts, vs)[i] {
        if ts[i].Str? { NulFreeSurvives(vs[i].s); }
      }
    }
  }

  /** What C has of a message sent for any in-bounds values: every text up to its first NUL. */
  lemma ArrivesInC(id: nat, ts: seq<FieldType>, vs: seq<Value>)
    requires id < 0x1_0000 && |ts| < U64_LIMIT - 1 && AllInBounds(ts, vs)
    ensures AllTyped(ts, vs) && Decode(C, id, ts, Message(id, ts, vs)) == Some(CViews(ts, vs))
    ensures CViews(ts, vs) == vs <==> NulFree(ts, vs)
  {
    hide Decode, Message, CString, Utf8.Valid;
    assert forall i :: 0 <= i < |ts| ==> InBounds(ts[i], vs[i]) && Readable(Wire, ts[i], vs[i]);
    SameSchemaRoundTrip(Wire, id, ts, vs);
    DecodersBySides(id, ts, Message(id, ts, vs));
    forall i | 0 <= i < |ts| && ts[i].Str? ensures CViews(ts, vs)[i] == vs[i] <==> 0 !in vs[i].s {
      NulFreeSurvives(vs[i].s);
    }
    if NulFree(ts, vs) { assert forall i :: 0 <= i < |ts| ==> CViews(ts, vs)[i] == vs[i]; }
  }

  /** Text with a NUL is accepted by both, and C has less of it than Rust. */
  lemma NulTextDisagrees(id: nat)
    requires id < 0x1_0000
    ensures var ts, vs := [Str(24)], [Data([97, 0, 98])];
            && AllTyped(ts, vs)
            && Decode(C, id, ts, Message(id, ts, vs)) == Some([Data([97])])
            && Decode(Rust, id, ts, Message(id, ts, vs)) == Some([Data([97, 0, 98])])
  {
    hide Decode, Message;
    var text: seq<byte> := [97, 0, 98];
    var ts, vs := [Str(24)], [Data(text)];
    assert text[1..][1..] == [98] && Utf8.Valid([]);
    assert Utf8.Valid([98]) && Utf8.Valid(text[1..]) && Utf8.Valid(text);
    CStringEnds(text, 1);
    assert text[..1] == [97];
    ArrivesInC(id, ts, vs);
    assert CViews(ts, vs) == [Data([97])];
    SameSchemaRoundTrip(Rust, id, ts, vs);
  }

  /** In a signed field 2^31 is refused by C and read as -2^31 by Rust. */
  lemma SignedFieldsDisagree(id: nat)
    requires id < 0x1_0000
    ensures AllTyped([U32], [Num(0x8000_0000)])
    ensures var s := Message(id, [U32], [Num(0x8000_0000)]);
            Decode(C, id, [I32], s) == None && Decode(Rust, id, [I32], s) == Some([Num(-0x8000_0000)])
  {
    hide Head, ReadHead, ReadField, ReadFields, ReadArray, ReadUint;
    var ts, vs, x := [U32], [Num(0x8000_0000)], Head(UINT, 0x8000_0000);
    MessageHeader(id, ts, vs);
    assert ts[1..] == [] && vs[1..] == [] && Fields(ts, vs) == x + [];
    var s, n := Message(id, ts, vs), |Head(ARRAY, 2)| + |Head(UINT, id)|;
    assert s[n..] == x + [];
    SignedReads(x);
    ReadFieldsFails(C, [I32], 1, x + []);
    assert (x + [])[|x|..] == [] && [I32][1..] == [];
    ReadFieldsEnds(Rust, [], 0, []);
    ReadFieldsStep(Rust, [I32], 1, x + [], Num(-0x8000_0000), |x|);
    assert [Num(-0x8000_0000)] + [] == [Num(-0x8000_0000)];
  }

  lemma SignedReads(x: seq<byte>)
    requires x == Head(UINT, 0x8000_0000)
    ensures ReadField(C, I32, x + []) == None && ReadField(Rust, I32, x + []) == Some(Got(Num(-0x8000_0000), |x|))
  {
    hide Head, ReadHead;
    ReadsHead(UINT, 0x8000_0000, []);
    assert Truncate32(0x8000_0000) == -0x8000_0000;
  }
}
