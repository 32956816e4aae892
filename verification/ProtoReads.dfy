/** Exactly which byte strings the decoders take: every item, in every form its head may have, and nothing else. */
module ProtoReads {
  import opened Basics
  import opened Endian
  import opened Proto
  import Cbor

  // ---------------------------------------------------------------- heads (section 3 of RFC 8949)

  /** The argument stands in the initial byte, or in the 1, 2, 4 or 8 bytes behind it. */
  predicate Width(w: nat, arg: nat) {
    if w == 0 then arg < 24 else w in {1, 2, 4, 8} && arg < Pow256(w)
  }

  /** A head in any of its forms, not the shortest alone. */
  function AnyHead(major: nat, arg: nat, w: nat): (h: seq<byte>)
    requires major < 8 && Width(w, arg)
    ensures |h| == 1 + w
  {
    if w == 0 then [32 * major + arg]
    else [32 * major + (if w == 1 then 24 else if w == 2 then 25 else if w == 4 then 26 else 27)] + ToBytes(arg, w)
  }

  lemma HeadIsRead(major: nat, arg: nat, w: nat, rest: seq<byte>)
    requires major < 8 && Width(w, arg)
    ensures Cbor.ReadHead(AnyHead(major, arg, w) + rest) == Some(Cbor.HeadRead(major, arg, 1 + w))
  {
    hide ToBytes, BigEndian, Pow256;
    var s := AnyHead(major, arg, w) + rest;
    if w > 0 {
      BytesOfNumber(arg, w);
      assert s[1..1 + w] == ToBytes(arg, w);
    }
  }

  lemma ReadIsHead(s: seq<byte>) returns (w: nat)
    requires Cbor.ReadHead(s).Some?
    ensures var r := Cbor.ReadHead(s).value;
            r.major < 8 && Width(w, r.arg) && r.size == 1 + w && AnyHead(r.major, r.arg, w) == s[..r.size]
  {
    hide ToBytes, BigEndian, Pow256;
    var r := Cbor.ReadHead(s).value;
    w := r.size - 1;
    if w == 0 {
      assert s[..1] == [s[0]];
    } else {
      NumberOfBytes(s[1..1 + w]);
      assert s[..r.size] == [s[0]] + s[1..1 + w];
    }
  }

  // ---------------------------------------------------------------- fields

  /** The value is of the type, within the schema's bound, and the head in that width can announce it. */
  predicate Fits(t: FieldType, v: Value, w: nat) {
    match t
    case Bool => v.Flag?
    case F32 => v.Bits? && v.bits < 0x1_0000_0000
    case I32 => v.Num? && -0x8000_0000_0000_0000 <= v.n < 0x8000_0000_0000_0000 && Width(w, if v.n < 0 then -1 - v.n else v.n)
    case Str(max) => v.Data? && |v.s| <= max && Width(w, |v.s|)
    case Raw(max) => v.Data? && |v.s| <= max && Width(w, |v.s|)
    case U8 => v.Num? && 0 <= v.n < 0x100 && Width(w, v.n)
    case U16 => v.Num? && 0 <= v.n < 0x1_0000 && Width(w, v.n)
    case U32 => v.Num? && 0 <= v.n < 0x1_0000_0000 && Width(w, v.n)
    case U64 => v.Num? && 0 <= v.n && Width(w, v.n)
  }

  /** A field on the wire, its head in the width `w`. */
  function Item(t: FieldType, v: Value, w: nat): (s: seq<byte>)
    requires Fits(t, v, w)
    ensures |s| > 0
  {
    match t
    case Bool => [if v.b then 0xF5 else 0xF4]
    case F32 => [0xFA] + ToBytes(v.bits, 4)
    case I32 => if v.n < 0 then AnyHead(1, -1 - v.n, w) else AnyHead(0, v.n, w)
    case Str(_) => AnyHead(3, |v.s|, w) + v.s
    case Raw(_) => AnyHead(2, |v.s|, w) + v.s
    case _ => AnyHead(0, v.n, w)
  }

  lemma ItemIsRead(t: FieldType, v: Value, w: nat, rest: seq<byte>)
    requires Fits(t, v, w)
    ensures ReadField(Wire, t, Item(t, v, w) + rest) == Some(Cbor.Got(v, |Item(t, v, w)|))
  {
    hide Cbor.ReadHead, AnyHead, ToBytes, BigEndian, Width, Pow256;
    var s := Item(t, v, w) + rest;
    match t
    case Bool =>
    case F32 =>
      Pow256Values();
      BytesOfNumber(v.bits, 4);
      assert s[1..5] == ToBytes(v.bits, 4);
    case Str(_) => StringIsRead(3, v.s, w, rest);
    case Raw(_) => StringIsRead(2, v.s, w, rest);
    case I32 => if v.n < 0 { HeadIsRead(1, -1 - v.n, w, rest); } else { HeadIsRead(0, v.n, w, rest); }
    case U64 => HeadIsRead(0, v.n, w, rest); WidthLimit(w, v.n);
    case _ => HeadIsRead(0, v.n, w, rest);
  }

  lemma WidthLimit(w: nat, arg: nat)
    requires Width(w, arg)
    ensures arg < 0x1_0000_0000_0000_0000
  {
    Pow256Values();
  }

  lemma StringIsRead(major: nat, x: seq<byte>, w: nat, rest: seq<byte>)
    requires major < 8 && Width(w, |x|)
    ensures Cbor.ReadString(major, AnyHead(major, |x|, w) + x + rest) == Some(Cbor.Got(x, 1 + w + |x|))
  {
    hide Cbor.ReadHead, AnyHead, Width;
    var h := AnyHead(major, |x|, w);
    assert h + x + rest == h + (x + rest);
    HeadIsRead(major, |x|, w, x + rest);
    assert (h + x + rest)[1 + w..1 + w + |x|] == x;
  }

  lemma ReadIsItem(t: FieldType, s: seq<byte>) returns (w: nat)
    requires ReadField(Wire, t, s).Some?
    ensures var Got(v, size) := ReadField(Wire, t, s).value; size <= |s| && Fits(t, v, w) && Item(t, v, w) == s[..size]
  {
    hide Cbor.ReadHead, AnyHead, ToBytes, BigEndian, Width, Pow256;
    w := 0;
    match t
    case Bool => assert s[..1] == [s[0]];
    case F32 =>
      Pow256Values();
      NumberOfBytes(s[1..5]);
      assert s[..5] == [s[0]] + s[1..5];
    case Str(_) => w := ReadIsString(3, s);
    case Raw(_) => w := ReadIsString(2, s);
    case _ => w := ReadIsHead(s);
  }

  lemma ReadIsString(major: nat, s: seq<byte>) returns (w: nat)
    requires major < 8 && Cbor.ReadString(major, s).Some?
    ensures var Got(x, size) := Cbor.ReadString(major, s).value;
            size <= |s| && Width(w, |x|) && AnyHead(major, |x|, w) + x == s[..size]
  {
    hide Cbor.ReadHead, AnyHead, Width;
    w := ReadIsHead(s);
    var Got(x, size) := Cbor.ReadString(major, s).value;
    assert s[..size] == s[..1 + w] + s[1 + w..size];
  }

  /** A field that is missing reads as if zero, false or nothing had been sent for it. */
  lemma MissingIs(t: FieldType)
    ensures Fits(t, Zero(t), 0)
    ensures Item(t, Zero(t), 0) == (if t.Bool? then [0xF4] else if t.F32? then [0xFA, 0, 0, 0, 0]
                                    else if t.Str? then [0x60] else if t.Raw? then [0x40] else [0x00])
  {
    if t.F32? { ZeroBytes(); }
  }

  lemma ZeroBytes()
    ensures ToBytes(0, 4) == [0, 0, 0, 0]
  {
    assert ToBytes(0, 1) == ToBytes(0, 0) + [0];
    assert ToBytes(0, 2) == ToBytes(0, 1) + [0];
    assert ToBytes(0, 3) == ToBytes(0, 2) + [0];
  }

  // ---------------------------------------------------------------- items nobody here knows

  /** An item without elements: a number, a string, a simple value or the head of a map or a tag. */
  predicate Plain(p: seq<byte>, major: nat, arg: nat, w: nat, x: seq<byte>) {
    && major in {0, 1, 2, 3, 5, 6, 7} && Width(w, arg) && p == AnyHead(major, arg, w) + x
    && |x| == if major == 2 || major == 3 then arg else 0
  }

  ghost predicate IsPlain(p: seq<byte>) { exists major, arg, w, x :: Plain(p, major, arg, w, x) }

  lemma PlainIsSkipped(p: seq<byte>, rest: seq<byte>)
    requires IsPlain(p)
    ensures Cbor.SkipElement(p + rest) == Some(|p|)
  {
    hide Cbor.ReadHead, AnyHead, Width;
    var major, arg, w, x :| Plain(p, major, arg, w, x);
    var h := AnyHead(major, arg, w);
    assert h + x + rest == h + (x + rest);
    HeadIsRead(major, arg, w, x + rest);
  }

  lemma SkippedIsPlain(s: seq<byte>)
    requires Cbor.SkipElement(s).Some?
    ensures IsPlain(s[..Cbor.SkipElement(s).value])
  {
    hide Cbor.ReadHead, AnyHead, Width;
    var w := ReadIsHead(s);
    var r, n := Cbor.ReadHead(s).value, Cbor.SkipElement(s).value;
    assert s[..n] == s[..r.size] + s[r.size..n];
    assert Plain(s[..n], r.major, r.arg, w, s[r.size..n]);
  }

  ghost predicate AllPlain(ps: seq<seq<byte>>) { forall i :: 0 <= i < |ps| ==> IsPlain(ps[i]) }

  lemma {:induction false} PlainsAreSkipped(ps: seq<seq<byte>>, rest: seq<byte>)
    requires AllPlain(ps)
    ensures Cbor.SkipElements(Concat(ps) + rest, |ps|) == Some(|Concat(ps)|)
    decreases |ps|
  {
    hide Cbor.SkipElement, IsPlain;
    if ps != [] {
      var more := Concat(ps[1..]) + rest;
      assert Concat(ps) + rest == ps[0] + more;
      PlainIsSkipped(ps[0], more);
      assert (ps[0] + more)[|ps[0]|..] == more;
      PlainsAreSkipped(ps[1..], rest);
    }
  }

  lemma {:induction false} SkippedArePlain(s: seq<byte>, count: nat) returns (ps: seq<seq<byte>>)
    requires Cbor.SkipElements(s, count).Some?
    ensures |ps| == count && AllPlain(ps) && Concat(ps) == s[..Cbor.SkipElements(s, count).value]
    decreases count
  {
    hide Cbor.SkipElement, IsPlain;
    ps := [];
    if count > 0 {
      SkippedIsPlain(s);
      var n, all := Cbor.SkipElement(s).value, Cbor.SkipElements(s, count).value;
      var more := SkippedArePlain(s[n..], count - 1);
      ps := [s[..n]] + more;
      assert ps[1..] == more && s[..all] == s[..n] + s[n..][..all - n];
    }
  }

  /** Such an item, or an array of them. */
  ghost predicate Skippable(p: seq<byte>) {
    || (exists major, arg, w, x :: major != 5 && major != 6 && Plain(p, major, arg, w, x))
    || (exists w, ps :: IsArray(p, w, ps))
  }

  ghost predicate IsArray(p: seq<byte>, w: nat, ps: seq<seq<byte>>) {
    AllPlain(ps) && Width(w, |ps|) && p == AnyHead(4, |ps|, w) + Concat(ps)
  }

  lemma IsSkipped(p: seq<byte>, rest: seq<byte>)
    requires Skippable(p)
    ensures Cbor.Skip(p + rest) == Some(|p|)
  {
    hide Cbor.ReadHead, AnyHead, Width, Cbor.SkipElements, AllPlain;
    if w, ps :| IsArray(p, w, ps) {
      var h := AnyHead(4, |ps|, w);
      assert h + Concat(ps) + rest == h + (Concat(ps) + rest);
      HeadIsRead(4, |ps|, w, Concat(ps) + rest);
      PlainsAreSkipped(ps, rest);
    } else {
      var major, arg, w, x :| major != 5 && major != 6 && Plain(p, major, arg, w, x);
      var h := AnyHead(major, arg, w);
      assert h + x + rest == h + (x + rest);
      HeadIsRead(major, arg, w, x + rest);
    }
  }

  lemma SkippedIs(s: seq<byte>)
    requires Cbor.Skip(s).Some?
    ensures Skippable(s[..Cbor.Skip(s).value])
  {
    hide Cbor.ReadHead, AnyHead, Width, Cbor.SkipElements, AllPlain;
    var w := ReadIsHead(s);
    var r, n := Cbor.ReadHead(s).value, Cbor.Skip(s).value;
    assert s[..n] == s[..r.size] + s[r.size..n];
    if r.major == 4 {
      var ps := SkippedArePlain(s[r.size..], r.arg);
      assert s[r.size..][..n - r.size] == s[r.size..n];
      assert IsArray(s[..n], w, ps);
    } else {
      assert Plain(s[..n], r.major, r.arg, w, s[r.size..n]);
    }
  }

  // ---------------------------------------------------------------- messages

  ghost predicate IsItem(t: FieldType, v: Value, p: seq<byte>) { exists w :: Fits(t, v, w) && p == Item(t, v, w) }

  /** The items of a message carry the values: known fields as they are, missing ones as zero, surplus ones skipped. */
  ghost predicate Carried(ts: seq<FieldType>, vs: seq<Value>, ps: seq<seq<byte>>) {
    && |vs| == |ts|
    && (forall i :: 0 <= i < |ts| ==> if i < |ps| then IsItem(ts[i], vs[i], ps[i]) else vs[i] == Zero(ts[i]))
    && (forall i :: |ts| <= i < |ps| ==> Skippable(ps[i]))
  }

  lemma {:induction false} SurplusIsSkipped(ps: seq<seq<byte>>, rest: seq<byte>)
    requires forall i :: 0 <= i < |ps| ==> Skippable(ps[i])
    ensures SkipAll(Concat(ps) + rest, |ps|)
    decreases |ps|
  {
    hide Cbor.Skip, Skippable;
    if ps != [] {
      var more := Concat(ps[1..]) + rest;
      assert Concat(ps) + rest == ps[0] + more;
      IsSkipped(ps[0], more);
      assert (ps[0] + more)[|ps[0]|..] == more;
      SurplusIsSkipped(ps[1..], rest);
    }
  }

  lemma {:induction false} SkippedIsSurplus(s: seq<byte>, count: nat) returns (ps: seq<seq<byte>>, rest: seq<byte>)
    requires SkipAll(s, count)
    ensures |ps| == count && s == Concat(ps) + rest && forall i :: 0 <= i < |ps| ==> Skippable(ps[i])
    decreases count
  {
    hide Cbor.Skip, Skippable;
    ps, rest := [], s;
    if count == 0 {
      assert [] + s == s;
    } else {
      SkippedIs(s);
      var n, more := Cbor.Skip(s).value, [];
      more, rest := SkippedIsSurplus(s[n..], count - 1);
      ps := [s[..n]] + more;
      assert ps[1..] == more && s == s[..n] + s[n..];
    }
  }

  lemma {:induction false} CarriedAreRead(ts: seq<FieldType>, vs: seq<Value>, ps: seq<seq<byte>>, rest: seq<byte>)
    requires Carried(ts, vs, ps)
    ensures ReadFields(Wire, ts, |ps|, Concat(ps) + rest) == Some(vs)
    decreases |ts|
  {
    hide ReadField, IsItem, Skippable, SkipAll;
    if ts == [] {
      SurplusIsSkipped(ps, rest);
    } else if ps == [] {
      assert vs == Zeros(ts);
    } else {
      var more := Concat(ps[1..]) + rest;
      assert Concat(ps) + rest == ps[0] + more;
      FirstIsRead(ts[0], vs[0], ps[0], more);
      assert (ps[0] + more)[|ps[0]|..] == more;
      CarriedAreRead(ts[1..], vs[1..], ps[1..], rest);
      assert vs == [vs[0]] + vs[1..];
    }
  }

  lemma FirstIsRead(t: FieldType, v: Value, p: seq<byte>, rest: seq<byte>)
    requires IsItem(t, v, p)
    ensures ReadField(Wire, t, p + rest) == Some(Cbor.Got(v, |p|))
  {
    hide ReadField;
    var w :| Fits(t, v, w) && p == Item(t, v, w);
    ItemIsRead(t, v, w, rest);
  }

  lemma {:induction false} ReadAreCarried(ts: seq<FieldType>, count: nat, s: seq<byte>) returns (ps: seq<seq<byte>>, rest: seq<byte>)
    requires ReadFields(Wire, ts, count, s).Some?
    ensures |ps| == count && s == Concat(ps) + rest && Carried(ts, ReadFields(Wire, ts, count, s).value, ps)
    decreases |ts|
  {
    hide ReadFields, ReadField, IsItem, Skippable, SkipAll, Carried, Concat, Zeros;
    FieldsStep(ts, count, s);
    if ts == [] {
      ps, rest := SkippedIsSurplus(s, count);
      OnlySurplus(ps);
    } else if count == 0 {
      ps, rest := [], s;
      NothingCarried(ts, s);
    } else {
      var w := ReadIsItem(ts[0], s);
      var Got(v, n) := ReadField(Wire, ts[0], s).value;
      ItemWitness(ts[0], v, w);
      var more;
      more, rest := ReadAreCarried(ts[1..], count - 1, s[n..]);
      ps := [s[..n]] + more;
      CarriedCons(ts, v, ReadFields(Wire, ts[1..], count - 1, s[n..]).value, s[..n], more);
      PutInFront(s, n, more, rest);
    }
  }

  lemma PutInFront(s: seq<byte>, n: nat, more: seq<seq<byte>>, rest: seq<byte>)
    requires n <= |s| && s[n..] == Concat(more) + rest
    ensures s == Concat([s[..n]] + more) + rest
  {
    assert ([s[..n]] + more)[1..] == more && s == s[..n] + s[n..];
  }

  /** One step of reading fields. */
  lemma FieldsStep(ts: seq<FieldType>, count: nat, s: seq<byte>)
    requires ReadFields(Wire, ts, count, s).Some?
    ensures var vs := ReadFields(Wire, ts, count, s).value;
            && (ts == [] ==> vs == [] && SkipAll(s, count))
            && (ts != [] && count == 0 ==> vs == Zeros(ts))
            && (ts != [] && count > 0 ==>
                  && ReadField(Wire, ts[0], s).Some? && ReadField(Wire, ts[0], s).value.size <= |s|
                  && var Got(v, n) := ReadField(Wire, ts[0], s).value;
                     && ReadFields(Wire, ts[1..], count - 1, s[n..]).Some?
                     && vs == [v] + ReadFields(Wire, ts[1..], count - 1, s[n..]).value)
  {
    hide ReadField, Zeros, SkipAll;
    if ts != [] { ReadFieldSize(Wire, ts[0], s); }
  }

  lemma OnlySurplus(ps: seq<seq<byte>>)
    requires forall i :: 0 <= i < |ps| ==> Skippable(ps[i])
    ensures Carried([], [], ps)
  {}

  lemma NothingCarried(ts: seq<FieldType>, s: seq<byte>)
    ensures Carried(ts, Zeros(ts), []) && s == Concat([]) + s
  {}

  lemma CarriedCons(ts: seq<FieldType>, v: Value, vs: seq<Value>, p: seq<byte>, ps: seq<seq<byte>>)
    requires ts != [] && IsItem(ts[0], v, p) && Carried(ts[1..], vs, ps)
    ensures Carried(ts, [v] + vs, [p] + ps)
  {
    hide IsItem, Skippable, Zero;
    var us, qs := [v] + vs, [p] + ps;
    forall i | 0 <= i < |ts| ensures if i < |qs| then IsItem(ts[i], us[i], qs[i]) else us[i] == Zero(ts[i]) {
      if i > 0 { assert ts[i] == ts[1..][i - 1] && us[i] == vs[i - 1]; }
    }
    forall i | |ts| <= i < |qs| ensures Skippable(qs[i]) {
      assert qs[i] == ps[i - 1];
    }
  }

  lemma ItemWitness(t: FieldType, v: Value, w: nat)
    requires Fits(t, v, w)
    ensures IsItem(t, v, Item(t, v, w))
  {}

  /** A message on the wire: an array's head, the id, the items, and whatever stands behind. */
  ghost predicate IsMessage(s: seq<byte>, id: nat, w1: nat, w2: nat, ps: seq<seq<byte>>, rest: seq<byte>) {
    && Width(w1, 1 + |ps|) && Width(w2, id)
    && s == AnyHead(4, 1 + |ps|, w1) + (AnyHead(0, id, w2) + (Concat(ps) + rest))
  }

  /** The decoders find these values in a byte string exactly if it is a message whose items carry them. */
  lemma DecodesIff(id: nat, ts: seq<FieldType>, s: seq<byte>, vs: seq<Value>)
    ensures Decode(Wire, id, ts, s) == Some(vs) <==>
            exists w1, w2, ps, rest :: IsMessage(s, id, w1, w2, ps, rest) && Carried(ts, vs, ps)
  {
    hide Carried, ReadFields, Cbor.ReadHead, AnyHead, Width;
    if Decode(Wire, id, ts, s) == Some(vs) {
      var w1 := ReadIsHead(s);
      var tail := s[1 + w1..];
      var w2 := ReadIsHead(tail);
      var count := Cbor.ReadHead(s).value.arg;
      var ps, rest := ReadAreCarried(ts, count - 1, tail[1 + w2..]);
      assert s == s[..1 + w1] + (tail[..1 + w2] + tail[1 + w2..]);
      assert IsMessage(s, id, w1, w2, ps, rest);
    }
    if w1, w2, ps, rest :| IsMessage(s, id, w1, w2, ps, rest) && Carried(ts, vs, ps) {
      MessageIsDecoded(id, ts, s, vs, w1, w2, ps, rest);
    }
  }

  lemma MessageIsDecoded(id: nat, ts: seq<FieldType>, s: seq<byte>, vs: seq<Value>, w1: nat, w2: nat, ps: seq<seq<byte>>, rest: seq<byte>)
    requires IsMessage(s, id, w1, w2, ps, rest) && Carried(ts, vs, ps)
    ensures Decode(Wire, id, ts, s) == Some(vs)
  {
    hide Carried, ReadFields, Cbor.ReadHead, AnyHead, Width;
    var a, b, body := AnyHead(4, 1 + |ps|, w1), AnyHead(0, id, w2), Concat(ps) + rest;
    HeadIsRead(4, 1 + |ps|, w1, b + body);
    HeadIsRead(0, id, w2, body);
    ItemsTakeRoom(ts, vs, ps);
    assert s[|a|..] == b + body && (b + body)[|b|..] == body;
    CarriedAreRead(ts, vs, ps, rest);
  }

  lemma {:induction false} ItemsTakeRoom(ts: seq<FieldType>, vs: seq<Value>, ps: seq<seq<byte>>)
    requires Carried(ts, vs, ps)
    ensures |Concat(ps)| >= |ps|
  {
    hide IsItem, Skippable, Concat;
    forall i | 0 <= i < |ps| ensures |ps[i]| > 0 {
      if i < |ts| { ItemNotEmpty(ts[i], vs[i], ps[i]); } else { SkippableNotEmpty(ps[i]); }
    }
    AtLeast(ps);
  }

  lemma ItemNotEmpty(t: FieldType, v: Value, p: seq<byte>)
    requires IsItem(t, v, p)
    ensures |p| > 0
  {}

  lemma SkippableNotEmpty(p: seq<byte>)
    requires Skippable(p)
    ensures |p| > 0
  {
    hide AnyHead;
  }

  lemma {:induction false} AtLeast(ps: seq<seq<byte>>)
    requires forall i :: 0 <= i < |ps| ==> |ps[i]| > 0
    ensures |Concat(ps)| >= |ps|
    decreases |ps|
  {
    if ps != [] { AtLeast(ps[1..]); }
  }
}
