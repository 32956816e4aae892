/**
 * The writers and readers as the two languages run them, over a cursor that moves, and the generated
 * encoders and decoders on top.  Each is proved to compute the canonical bytes or the reading that `Proto`
 * defines, so the theorems there speak about them.
 */
module ProtoCalls {
  import opened Basics
  import opened Endian
  import opened Cbor
  import opened Proto
  import Utf8

  /** The C writer: a fixed buffer, and one flag that records that something did not fit. */
  class CWriter {
    const buf: array<byte>
    var len: nat
    var overflow: bool
    /** Everything the encoder asked to write. */
    ghost var wanted: seq<byte>

    ghost predicate Valid()
      reads this, buf
    {
      && len <= buf.Length
      && (if overflow then |wanted| > buf.Length else buf[..len] == wanted)
    }

    constructor (b: array<byte>)
      ensures Valid() && buf == b && wanted == [] && len == 0
    {
      buf := b;
      len := 0;
      overflow := false;
      wanted := [];
    }

    method Put(b: byte)
      requires Valid()
      modifies this, buf
      ensures Valid() && wanted == old(wanted) + [b]
    {
      if !overflow {
        if len >= buf.Length {
          overflow := true;
        } else {
          buf[len] := b;
          len := len + 1;
        }
      }
      wanted := wanted + [b];
    }

    method PutN(data: seq<byte>)
      requires Valid()
      modifies this, buf
      ensures Valid() && wanted == old(wanted) + data
    {
      if !overflow {
        if |data| > buf.Length - len {
          overflow := true;
        } else {
          forall i | 0 <= i < |data| { buf[len + i] := data[i]; }
          assert buf[..len] == old(buf[..len]);
          assert buf[len..len + |data|] == data;
          assert buf[..len + |data|] == buf[..len] + buf[len..len + |data|];
          len := len + |data|;
        }
      }
      wanted := wanted + data;
    }

    /** The `n` low bytes of `v`, most significant first. */
    method PutBig(v: nat, n: nat)
      requires Valid()
      modifies this, buf
      ensures Valid() && wanted == old(wanted) + ToBytes(v, n)
    {
      var i: nat := n;
      while i > 0
        invariant Valid() && i <= n
        invariant wanted == old(wanted) + ToBytes(v, n)[..n - i]
      {
        i := i - 1;
        ToBytesAt(v, n, n - 1 - i);
        Put(v / Pow256(i) % 256);
        assert ToBytes(v, n)[..n - i] == ToBytes(v, n)[..n - 1 - i] + [ToBytes(v, n)[n - 1 - i]];
      }
      assert ToBytes(v, n)[..n] == ToBytes(v, n);
    }

    method PutHead(major: nat, v: nat)
      requires Valid() && major < 8 && v < U64_LIMIT
      modifies this, buf
      ensures Valid() && wanted == old(wanted) + Head(major, v)
    {
      hide ToBytes, Head, Valid;
      PythonHeadAgrees(major, v);
      var m := 32 * major;
      if v < 24 {
        Put(m + v);
      } else if v <= 0xFF {
        LowByte(v);
        Put(m + 24);
        PutBig(v, 1);
      } else if v <= 0xFFFF {
        Put(m + 25);
        PutBig(v, 2);
      } else if v <= 0xFFFF_FFFF {
        Put(m + 26);
        PutBig(v, 4);
      } else {
        Put(m + 27);
        PutBig(v, 8);
      }
    }

    /** `strlen` finds how much of the string there is. */
    method PutText(s: seq<byte>)
      requires Valid() && |s| < U64_LIMIT
      modifies this, buf
      ensures Valid() && wanted == old(wanted) + (Head(TEXT, |CString(s)|) + CString(s))
    {
      hide Head, CString, Valid;
      var n := 0;
      while n < |s| && s[n] != 0
        invariant n <= |s| && forall i :: 0 <= i < n ==> s[i] != 0
      {
        n := n + 1;
      }
      CStringEnds(s, n);
      PutHead(TEXT, n);
      PutN(s[..n]);
    }

    /** One field; false for a byte string longer than the schema allows. */
    method PutField(t: FieldType, v: Value) returns (ok: bool)
      requires Valid() && Typed(t, v)
      modifies this, buf
      ensures Valid() && ok == RawFits(t, v)
      ensures ok ==> wanted == old(wanted) + Field(t, CView(t, v))
    {
      hide Head, ToBytes, CString, Valid;
      ok := true;
      match t
      case I32 =>
        if v.n < 0 { PutHead(NINT, -(v.n + 1)); } else { PutHead(UINT, v.n); }
      case Bool =>
        Put(if v.b then 0xF5 else 0xF4);
      case F32 =>
        Put(0xFA);
        PutBig(v.bits, 4);
      case Str(_) =>
        PutText(v.s);
      case Raw(max) =>
        if |v.s| > max { return false; }
        PutHead(BYTES, |v.s|);
        PutN(v.s);
      case _ =>
        PutHead(UINT, v.n);
    }
  }

  /** The schema's bound on byte strings, which the C encoder checks itself. */
  predicate RawFits(t: FieldType, v: Value) { t.Raw? && v.Data? ==> |v.s| <= t.max }

  /**
   * A generated C encoder succeeds exactly when the byte strings respect their bounds and the canonical
   * bytes fit the buffer, and then the buffer starts with those bytes.
   */
  method EncodeC(id: nat, ts: seq<FieldType>, vs: seq<Value>, buf: array<byte>) returns (length: Option<nat>)
    requires id < 0x1_0000 && |ts| < U64_LIMIT - 1 && AllTyped(ts, vs)
    modifies buf
    ensures var m := Message(id, ts, CViews(ts, vs));
            && (length.Some? <==> (forall i :: 0 <= i < |ts| ==> RawFits(ts[i], vs[i])) && |m| <= buf.Length)
            && (length.Some? ==> length.value == |m| <= buf.Length && buf[..|m|] == m)
  {
    hide Head, Field, Typed, InBounds, CView, RawFits;
    ghost var cs := CViews(ts, vs);
    ghost var m := Message(id, ts, cs);
    var w := new CWriter(buf);
    w.PutHead(ARRAY, 1 + |ts|);
    w.PutHead(UINT, id);
    assert cs[0..] == cs && ts[0..] == ts;
    var i := 0;
    while i < |ts|
      invariant i <= |ts| && w.Valid() && w.buf == buf
      invariant w.wanted + Fields(ts[i..], cs[i..]) == m
      invariant forall k :: 0 <= k < i ==> RawFits(ts[k], vs[k])
    {
      assert ts[i..][1..] == ts[i + 1..] && cs[i..][1..] == cs[i + 1..];
      assert Typed(ts[i], vs[i]);
      var ok := w.PutField(ts[i], vs[i]);
      if !ok { return None; }
      i := i + 1;
    }
    assert w.wanted == m;
    length := if w.overflow then None else Some(w.len);
  }

  /** The Rust writer: a vector that grows. */
  class Writer {
    var buf: seq<byte>

    constructor ()
      ensures buf == []
    {
      buf := [];
    }

    method PutHead(major: nat, v: nat)
      requires major < 8 && v < U64_LIMIT
      modifies this
      ensures buf == old(buf) + Head(major, v)
    {
      hide ToBytes, Head;
      PythonHeadAgrees(major, v);
      var m := 32 * major;
      if v < 24 {
        buf := buf + [m + v];
      } else if v <= 0xFF {
        LowByte(v);
        buf := buf + [m + 24];
        buf := buf + [v];
      } else if v <= 0xFFFF {
        buf := buf + [m + 25];
        buf := buf + ToBytes(v, 2);
      } else if v <= 0xFFFF_FFFF {
        buf := buf + [m + 26];
        buf := buf + ToBytes(v, 4);
      } else {
        buf := buf + [m + 27];
        buf := buf + ToBytes(v, 8);
      }
    }

    method PutString(major: nat, s: seq<byte>)
      requires major < 8 && |s| < U64_LIMIT
      modifies this
      ensures buf == old(buf) + (Head(major, |s|) + s)
    {
      hide Head;
      PutHead(major, |s|);
      buf := buf + s;
    }

    method PutFloat(bits: nat)
      modifies this
      ensures buf == old(buf) + ([0xFA] + ToBytes(bits, 4))
    {
      hide ToBytes;
      buf := buf + [0xFA];
      buf := buf + ToBytes(bits, 4);
    }

    method PutField(t: FieldType, v: Value)
      requires Typed(t, v)
      modifies this
      ensures buf == old(buf) + Field(t, v)
    {
      hide Head, ToBytes;
      match t
      case I32 =>
        if v.n < 0 { PutHead(NINT, -(v.n + 1)); } else { PutHead(UINT, v.n); }
      case Bool =>
        buf := buf + [if v.b then 0xF5 else 0xF4];
      case F32 =>
        PutFloat(v.bits);
      case Str(_) =>
        PutString(TEXT, v.s);
      case Raw(_) =>
        PutString(BYTES, v.s);
      case _ =>
        PutHead(UINT, v.n);
    }
  }

  lemma LowByte(v: byte)
    ensures ToBytes(v, 1) == [v]
  {
    assert ToBytes(v, 1) == ToBytes(v / 256, 0) + [v];
  }

  /** A generated Rust encoder always succeeds, with the canonical bytes. */
  method EncodeRust(id: nat, ts: seq<FieldType>, vs: seq<Value>) returns (bytes: seq<byte>)
    requires id < 0x1_0000 && |ts| < U64_LIMIT - 1 && AllTyped(ts, vs)
    ensures bytes == Message(id, ts, vs)
  {
    hide Head, Field, Typed;
    var w := new Writer();
    w.PutHead(ARRAY, 1 + |ts|);
    w.PutHead(UINT, id);
    assert vs[0..] == vs && ts[0..] == ts;
    var i := 0;
    while i < |ts|
      invariant i <= |ts| && w.buf + Fields(ts[i..], vs[i..]) == Message(id, ts, vs)
    {
      assert ts[i..][1..] == ts[i + 1..] && vs[i..][1..] == vs[i + 1..];
      w.PutField(ts[i], vs[i]);
      i := i + 1;
    }
    bytes := w.buf;
  }

  /** Both readers: the bytes and a position in them. */
  class Reader {
    const dialect: Side
    const buf: seq<byte>
    var pos: nat

    ghost predicate Valid() reads this { pos <= |buf| }

    ghost function Rest(): seq<byte>
      reads this
      requires Valid()
    {
      buf[pos..]
    }

    constructor (d: Side, s: seq<byte>)
      ensures Valid() && dialect == d && buf == s && Rest() == s
    {
      dialect := d;
      buf := s;
      pos := 0;
    }

    /** The position moved on by exactly the item that was read. */
    twostate predicate Took(new size: nat)
      reads this
      requires old(Valid())
    {
      pos == old(pos) + size && Valid() && size <= |old(Rest())| && Rest() == old(Rest())[size..]
    }

    /** Accumulates the next `n` bytes, most significant first. */
    method TakeBig(n: nat) returns (v: nat)
      requires Valid() && n <= |buf| - pos
      modifies this
      ensures Took(n) && v == BigEndian(old(Rest())[..n])
    {
      hide BigEndian;
      ghost var arg := Rest()[..n];
      BigEndianEmpty();
      v := 0;
      var i: nat := 0;
      while i < n
        invariant i <= n && pos == old(pos) + i && v == BigEndian(arg[..i])
      {
        assert buf[pos] == arg[i];
        BigEndianSnoc(arg[..i], arg[i]);
        assert arg[..i + 1] == arg[..i] + [arg[i]];
        v := 256 * v + buf[pos];
        pos := pos + 1;
        i := i + 1;
      }
      assert arg[..n] == arg;
    }

    method TakeHead() returns (h: Option<HeadRead>)
      requires Valid()
      modifies this
      ensures Valid() && h == ReadHead(old(Rest()))
      ensures h.Some? ==> Took(h.value.size)
    {
      if |buf| - pos < 1 { return None; }
      var b := buf[pos];
      pos := pos + 1;
      var major, ai := b / 32, b % 32;
      if ai < 24 { return Some(HeadRead(major, ai, 1)); }
      if ai > 27 { return None; }
      var n := if ai == 24 then 1 else if ai == 25 then 2 else if ai == 26 then 4 else 8;
      if |buf| - pos < n { return None; }
      ghost var start := old(Rest());
      assert start[1..] == Rest() && Rest()[..n] == start[1..1 + n];
      var v := TakeBig(n);
      h := Some(HeadRead(major, v, 1 + n));
    }

    method TakeUint() returns (r: Option<nat>)
      requires Valid()
      modifies this
      ensures Valid() && r == Bare(ReadUint(old(Rest())))
      ensures r.Some? ==> Took(ReadUint(old(Rest())).value.size)
    {
      hide ReadHead;
      var h := TakeHead();
      if h.None? || h.value.major != UINT { return None; }
      r := Some(h.value.arg);
    }

    method TakeArray() returns (r: Option<nat>)
      requires Valid()
      modifies this
      ensures Valid() && r == Bare(ReadArray(old(Rest())))
      ensures r.Some? ==> Took(ReadArray(old(Rest())).value.size)
    {
      hide ReadHead;
      var h := TakeHead();
      if h.None? || h.value.major != ARRAY || h.value.arg > |buf| - pos { return None; }
      r := Some(h.value.arg);
    }

    method TakeInt() returns (r: Option<int>)
      requires Valid()
      modifies this
      ensures Valid() && r == Bare(ReadInt(old(Rest())))
      ensures r.Some? ==> Took(ReadInt(old(Rest())).value.size)
    {
      hide ReadHead;
      var h := TakeHead();
      if h.None? { return None; }
      if h.value.major == UINT {
        if h.value.arg > I64_MAX { return None; }
        return Some(h.value.arg);
      }
      if h.value.major == NINT {
        if h.value.arg > I64_MAX { return None; }
        return Some(-(h.value.arg as int) - 1);
      }
      r := None;
    }

    method TakeString(major: nat) returns (r: Option<seq<byte>>)
      requires Valid()
      modifies this
      ensures Valid() && r == Bare(ReadString(major, old(Rest())))
      ensures r.Some? ==> Took(ReadString(major, old(Rest())).value.size)
    {
      hide ReadHead;
      var h := TakeHead();
      if h.None? || h.value.major != major || h.value.arg > |buf| - pos { return None; }
      r := Some(buf[pos..pos + h.value.arg]);
      assert r.value == old(Rest())[h.value.size..h.value.size + h.value.arg];
      pos := pos + h.value.arg;
    }

    method TakeBool() returns (r: Option<bool>)
      requires Valid()
      modifies this
      ensures Valid() && r == Bare(ReadBool(old(Rest())))
      ensures r.Some? ==> Took(1)
    {
      if |buf| - pos < 1 { return None; }
      var b := buf[pos];
      if b == 0xF5 || b == 0xF4 {
        pos := pos + 1;
        return Some(b == 0xF5);
      }
      r := None;
    }

    method TakeFloat() returns (r: Option<nat>)
      requires Valid()
      modifies this
      ensures Valid() && r == Bare(ReadFloat(old(Rest())))
      ensures r.Some? ==> Took(5)
    {
      if |buf| - pos < 5 || buf[pos] != 0xFA { return None; }
      pos := pos + 1;
      ghost var start := old(Rest());
      assert start[1..] == Rest() && Rest()[..4] == start[1..5];
      var bits := TakeBig(4);
      r := Some(bits);
    }

    /** Steps over one element of an array that is being skipped. */
    method TakeElement() returns (ok: bool)
      requires Valid()
      modifies this
      ensures Valid() && ok == SkipElement(old(Rest())).Some?
      ensures ok ==> Took(SkipElement(old(Rest())).value)
    {
      hide ReadHead;
      var e := TakeHead();
      if e.None? || e.value.major == ARRAY { return false; }
      if e.value.major == BYTES || e.value.major == TEXT {
        if e.value.arg > |buf| - pos { return false; }
        pos := pos + e.value.arg;
      }
      ok := true;
    }

    method TakeElements(count: nat) returns (ok: bool)
      requires Valid()
      modifies this
      ensures Valid() && ok == SkipElements(old(Rest()), count).Some?
      ensures ok ==> Took(SkipElements(old(Rest()), count).value)
    {
      hide SkipElement, SkipElements, Remains;
      var i := 0;
      ghost var body, gone: nat := Rest(), 0;
      RemainStarts(body, count);
      while i < count
        invariant i <= count && pos == old(pos) + gone && Valid()
        invariant Remains(body, gone, Rest(), count - i, count)
      {
        RemainStep(body, gone, Rest(), count - i, count);
        ok := TakeElement();
        if !ok { return false; }
        gone := pos - old(pos);
        i := i + 1;
      }
      RemainEnds(body, gone, Rest(), count);
      ok := true;
    }

    /** Steps over one item of any kind. */
    method TakeSkip() returns (ok: bool)
      requires Valid()
      modifies this
      ensures Valid() && ok == Skip(old(Rest())).Some?
      ensures ok ==> Took(Skip(old(Rest())).value)
    {
      hide ReadHead, SkipElement, SkipElements;
      var h := TakeHead();
      if h.None? { return false; }
      var m, arg := h.value.major, h.value.arg;
      if m == UINT || m == NINT || m == SIMPLE { return true; }
      if m == BYTES || m == TEXT {
        if arg > |buf| - pos { return false; }
        pos := pos + arg;
        return true;
      }
      if m != ARRAY { return false; }
      ok := TakeElements(arg);
    }

    method TakeField(t: FieldType) returns (v: Option<Value>)
      requires Valid()
      modifies this
      ensures Valid() && v == Bare(ReadField(dialect, t, old(Rest())))
      ensures v.Some? ==> Took(ReadField(dialect, t, old(Rest())).value.size)
    {
      hide ReadHead, ReadUint, ReadString, ReadInt, ReadBool, ReadFloat, Utf8.Valid, CString;
      match t
      case Bool =>
        var b := TakeBool();
        BoolSize(old(Rest()));
        v := if b.Some? then Some(Flag(b.value)) else None;
      case F32 =>
        var bits := TakeFloat();
        FloatSize(old(Rest()));
        v := if bits.Some? then Some(Bits(bits.value)) else None;
      case I32 =>
        var n := TakeInt();
        if n.None? { return None; }
        if dialect == Rust { return Some(Num(Truncate32(n.value))); }
        if n.value < -0x8000_0000 || n.value > 0x7FFF_FFFF { return None; }
        v := Some(Num(n.value));
      case Str(max) =>
        var x := TakeString(TEXT);
        if x.None? || |x.value| > max || (dialect == Rust && !Utf8.Valid(x.value)) { return None; }
        v := Some(Data(if dialect == C then CString(x.value) else x.value));
      case Raw(max) =>
        var x := TakeString(BYTES);
        if x.None? || |x.value| > max { return None; }
        v := Some(Data(x.value));
      case _ =>
        var n := TakeUint();
        if n.None? || n.value > Limit(t) { return None; }
        v := Some(Num(n.value));
    }
  }

  function Further(n: int, r: Option<nat>): Option<int> {
    if r.Some? then Some(n + r.value) else None
  }

  /** `gone` bytes of `body` are behind, `left` of the `count` elements ahead, at the front of `rest`. */
  ghost predicate Remains(body: seq<byte>, gone: nat, rest: seq<byte>, left: nat, count: nat) {
    && gone <= |body| && rest == body[gone..]
    && Further(gone, SkipElements(rest, left)) == Further(0, SkipElements(body, count))
  }

  lemma RemainStarts(body: seq<byte>, count: nat)
    ensures Remains(body, 0, body, count, count)
  {
    assert body[0..] == body;
  }

  lemma RemainStep(body: seq<byte>, gone: nat, rest: seq<byte>, left: nat, count: nat)
    requires Remains(body, gone, rest, left, count) && left > 0
    ensures var e := SkipElement(rest);
            if e.None? then SkipElements(body, count).None?
            else e.value <= |rest| && Remains(body, gone + e.value, rest[e.value..], left - 1, count)
  {
    hide SkipElement, SkipElements;
    SkipElementsStep(rest, left);
    ElementFits(rest);
    var e := SkipElement(rest);
    if e.Some? { assert rest[e.value..] == body[gone + e.value..]; }
  }

  lemma RemainEnds(body: seq<byte>, gone: nat, rest: seq<byte>, count: nat)
    requires Remains(body, gone, rest, 0, count)
    ensures SkipElements(body, count) == Some(gone) && gone <= |body| && rest == body[gone..]
  {
    hide SkipElements;
    SkipElementsStep(rest, 0);
  }

  lemma ElementFits(s: seq<byte>)
    ensures SkipElement(s).Some? ==> SkipElement(s).value <= |s|
  {}

  lemma SkipElementsStep(s: seq<byte>, count: nat)
    ensures count == 0 ==> SkipElements(s, count) == Some(0)
    ensures count > 0 ==> var e := SkipElement(s);
            SkipElements(s, count) == if e.Some? then Further(e.value, SkipElements(s[e.value..], count - 1)) else None
  {}

  /** A reading without its size. */
  function Bare<T>(r: Option<Got<T>>): Option<T> {
    match r
    case None => None
    case Some(Got(v, _)) => Some(v)
  }

  lemma BoolSize(s: seq<byte>)
    ensures ReadBool(s).Some? ==> ReadBool(s).value.size == 1
  {}

  lemma FloatSize(s: seq<byte>)
    ensures ReadFloat(s).Some? ==> ReadFloat(s).value.size == 5
  {}

  /** `vs` in front of whatever is read next. */
  function Prepend(vs: seq<Value>, r: Option<seq<Value>>): Option<seq<Value>> {
    if r.Some? then Some(vs + r.value) else None
  }

  /** Fields appended by a newer peer. */
  method SkipRest(r: Reader, count: nat) returns (ok: bool)
    requires r.Valid()
    modifies r
    ensures ok == SkipAll(old(r.Rest()), count)
  {
    hide SkipAll, Skip;
    var left: nat := count;
    ghost var fate := SkipAll(r.Rest(), left);
    while left > 0
      invariant r.Valid() && SkipAll(r.Rest(), left) == fate
    {
      SkipAllStep(r.Rest(), left);
      ok := r.TakeSkip();
      if !ok { return false; }
      left := left - 1;
    }
    SkipAllStep(r.Rest(), 0);
    ok := true;
  }

  lemma PrependSnoc(vs: seq<Value>, v: Value, r: Option<seq<Value>>)
    ensures Prepend(vs, Prepend([v], r)) == Prepend(vs + [v], r)
  {
    if r.Some? { assert vs + ([v] + r.value) == vs + [v] + r.value; }
  }

  lemma PrependNothing(r: Option<seq<Value>>)
    ensures Prepend([], r) == r
  {
    if r.Some? { assert [] + r.value == r.value; }
  }

  lemma NothingToPrepend()
    ensures forall vs :: Prepend(vs, None) == None
  {}

  lemma PrependRest(vs: seq<Value>, i: nat)
    requires i <= |vs|
    ensures Prepend(vs[..i], Some(vs[i..])) == Some(vs)
    ensures i == |vs| ==> Prepend(vs[..i], Some([])) == Some(vs)
  {
    assert vs[..i] + vs[i..] == vs;
  }

  /** What reading field `i` does to the reading so far. */
  lemma FieldRound(d: Dialect, ts: seq<FieldType>, present: nat, i: nat, vs: seq<Value>, rest: seq<byte>)
    requires i < |ts| == |vs| && i < present && vs[i..] == Zeros(ts[i..])
    ensures var f, whole := ReadField(d, ts[i], rest), Prepend(vs[..i], ReadFields(d, ts[i..], present - i, rest));
            if f.None? then whole.None?
            else
              var next := vs[i := f.value.value];
              && f.value.size <= |rest| && next[i + 1..] == Zeros(ts[i + 1..])
              && Prepend(next[..i + 1], ReadFields(d, ts[i + 1..], present - i - 1, rest[f.value.size..])) == whole
  {
    hide ReadField, ReadFields, SkipAll, Zero;
    var f := ReadField(d, ts[i], rest);
    assert ts[i..][1..] == ts[i + 1..];
    ReadFieldsFails(d, ts[i..], present - i, rest);
    ReadFieldSize(d, ts[i], rest);
    if f.Some? {
      var next := vs[i := f.value.value];
      ReadFieldsStep(d, ts[i..], present - i, rest, f.value.value, f.value.size);
      PrependSnoc(vs[..i], f.value.value, ReadFields(d, ts[i + 1..], present - i - 1, rest[f.value.size..]));
      assert next[..i + 1] == vs[..i] + [f.value.value];
      assert next[i + 1..] == vs[i..][1..];
      assert Zeros(ts[i..])[1..] == Zeros(ts[i + 1..]);
    }
  }

  /** The fields of a generated decoder: an output struct, zero at first, filled one by one. */
  method DecodeFields(r: Reader, ts: seq<FieldType>, present: nat) returns (out: Option<seq<Value>>)
    requires r.Valid()
    modifies r
    ensures out == ReadFields(r.dialect, ts, present, old(r.Rest()))
  {
    hide ReadField, ReadFields, SkipAll, Prepend;
    var vs := Zeros(ts);
    var i := 0;
    PrependNothing(ReadFields(r.dialect, ts, present, r.Rest()));
    NothingToPrepend();
    ghost var whole := ReadFields(r.dialect, ts, present, r.Rest());
    assert ts[0..] == ts && vs[..0] == [];
    while i < |ts| && i < present
      invariant i <= |ts| && i <= present && r.Valid() && |vs| == |ts| && vs[i..] == Zeros(ts[i..])
      invariant Prepend(vs[..i], ReadFields(r.dialect, ts[i..], present - i, r.Rest())) == whole
    {
      FieldRound(r.dialect, ts, present, i, vs, r.Rest());
      var v := r.TakeField(ts[i]);
      if v.None? { return None; }
      vs := vs[i := v.value];
      i := i + 1;
    }
    ReadFieldsEnds(r.dialect, ts[i..], present - i, r.Rest());
    PrependRest(vs, i);
    if i < |ts| { return Some(vs); }
    var ok := SkipRest(r, present - i);
    out := if ok then Some(vs) else None;
  }

  lemma SkipAllStep(s: seq<byte>, count: nat)
    ensures count == 0 ==> SkipAll(s, count)
    ensures count > 0 ==> SkipAll(s, count) == (Skip(s).Some? && SkipAll(s[Skip(s).value..], count - 1))
  {}

  lemma DecodeCases(d: Dialect, id: nat, ts: seq<FieldType>, s: seq<byte>)
    ensures var a := ReadArray(s);
            if a.None? || a.value.value < 1 then Decode(d, id, ts, s) == None
            else
              var body := s[a.value.size..];
              var u := ReadUint(body);
              Decode(d, id, ts, s) ==
              if u.None? || u.value.value != id then None
              else ReadFields(d, ts, a.value.value - 1, body[u.value.size..])
  {
    hide ReadHead, ReadFields;
    var a := ReadArray(s);
    if a.Some? && a.value.value >= 1 {
      var u := ReadUint(s[a.value.size..]);
      if u.Some? { assert s[a.value.size..][u.value.size..] == s[a.value.size + u.value.size..]; }
    }
  }

  /** A generated decoder, either language. */
  method DecodeMessage(d: Side, id: nat, ts: seq<FieldType>, s: seq<byte>) returns (out: Option<seq<Value>>)
    requires id < 0x1_0000
    ensures out == Decode(d, id, ts, s)
  {
    hide ReadHead, ReadArray, ReadUint, ReadFields, ReadField, Decode;
    DecodeCases(d, id, ts, s);
    var r := new Reader(d, s);
    var count := r.TakeArray();
    if count.None? || count.value < 1 { return None; }
    ghost var a := ReadArray(s).value.size;
    assert r.Rest() == s[a..];
    var got := r.TakeUint();
    if got.None? || got.value != id { return None; }
    out := DecodeFields(r, ts, count.value - 1);
  }

  /**
   * From a C struct through the wire to the other side's struct: the C strings arrive and so does everything
   * else, in C always and in Rust unless some text is not UTF-8.
   */
  method SendAndReceive(d: Side, id: nat, ts: seq<FieldType>, vs: seq<Value>, buf: array<byte>)
    returns (received: Option<seq<Value>>)
    requires id < 0x1_0000 && |ts| < U64_LIMIT - 1 && AllInBounds(ts, vs)
    requires AllTyped(ts, vs) && |Message(id, ts, CViews(ts, vs))| <= buf.Length
    modifies buf
    ensures var cs := CViews(ts, vs);
            received == if d == Rust && !TextValid(ts, cs) then None else Some(cs)
  {
    hide Message, Decode, SignedFit, TextValid, InBounds, RustViews;
    ghost var cs := CViews(ts, vs);
    RawsFit(ts, vs);
    var length := EncodeC(id, ts, vs, buf);
    ArrivesAsSent(id, ts, cs);
    DecodersBySides(id, ts, Message(id, ts, cs));
    CViewsAgain(ts, vs);
    received := DecodeMessage(d, id, ts, buf[..length.value]);
  }

  lemma RawsFit(ts: seq<FieldType>, vs: seq<Value>)
    requires AllInBounds(ts, vs)
    ensures forall i :: 0 <= i < |ts| ==> RawFits(ts[i], vs[i])
  {
    forall i | 0 <= i < |ts| ensures RawFits(ts[i], vs[i]) { assert InBounds(ts[i], vs[i]); }
  }

  lemma ArrivesAsSent(id: nat, ts: seq<FieldType>, vs: seq<Value>)
    requires id < 0x1_0000 && |ts| < U64_LIMIT - 1 && AllInBounds(ts, vs)
    ensures AllTyped(ts, vs) && Decode(Wire, id, ts, Message(id, ts, vs)) == Some(vs)
    ensures SignedFit(ts, vs) && RustViews(ts, vs) == vs
  {
    hide Decode, Message;
    assert forall i :: 0 <= i < |ts| ==> InBounds(ts[i], vs[i]) && Readable(Wire, ts[i], vs[i]);
    SameSchemaRoundTrip(Wire, id, ts, vs);
  }

  /** A C string is its own C string. */
  lemma CViewsAgain(ts: seq<FieldType>, vs: seq<Value>)
    requires |ts| == |vs|
    ensures CViews(ts, CViews(ts, vs)) == CViews(ts, vs)
  {
    hide CString;
    var cs := CViews(ts, vs);
    forall i | 0 <= i < |ts| ensures CView(ts[i], cs[i]) == cs[i] {
      if ts[i].Str? && vs[i].Data? { CStringAgain(vs[i].s); }
    }
  }

  lemma CStringAgain(s: seq<byte>)
    ensures CString(CString(s)) == CString(s)
  {
    NulFreeSurvives(CString(s));
  }
}
