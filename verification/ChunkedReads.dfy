/** Exactly which size lines the chunked decoder takes, and what it makes of every stream there is. */
module ChunkedReads {
  import opened Basics
  import opened Chunked
  import Utf8

  // ---------------------------------------------------------------- digits

  const LOWER := "0123456789abcdef"
  const UPPER := "0123456789ABCDEF"

  lemma DigitsAre(v: nat)
    requires v < 16
    ensures LOWER[v] as int == (if v < 10 then 48 + v else 87 + v) && UPPER[v] as int == (if v < 10 then 48 + v else 55 + v)
  {}

  /** The digits of base sixteen in either case, and no other byte. */
  lemma HexIff(b: byte)
    ensures IsHex(b) <==> exists v: nat :: v < 16 && (b == LOWER[v] as int || b == UPPER[v] as int)
    ensures forall v: nat :: v < 16 && (b == LOWER[v] as int || b == UPPER[v] as int) ==> HexDigit(b) == v
  {
    forall v: nat | v < 16 ensures LOWER[v] as int == (if v < 10 then 48 + v else 87 + v) {
      DigitsAre(v);
    }
    forall v: nat | v < 16 ensures UPPER[v] as int == (if v < 10 then 48 + v else 55 + v) {
      DigitsAre(v);
    }
    if IsHex(b) {
      var v := HexDigit(b);
      assert b == LOWER[v] as int || b == UPPER[v] as int;
    }
  }

  /** A number in base sixteen, no digit more than it needs. */
  function Hexed(n: nat): seq<byte> {
    (if n < 16 then [] else Hexed(n / 16)) + [LOWER[n % 16] as int]
  }

  /** Such a number is read as itself, whatever zeros stand in front of it. */
  lemma {:induction false} HexedIsRead(zeros: nat, n: nat)
    ensures var s := seq(zeros, _ => 48) + Hexed(n); AllHex(s) && HexValue(s) == n
  {
    var lead: seq<byte> := seq(zeros, _ => 48);
    var front := if n < 16 then [] else Hexed(n / 16);
    DigitsAre(n % 16);
    assert (lead + Hexed(n))[..zeros + |front|] == lead + front;
    if n < 16 {
      assert lead + front == lead;
      OnlyZeros(zeros);
    } else {
      HexedIsRead(zeros, n / 16);
    }
    HexValueSnoc(lead + front, LOWER[n % 16] as int);
    assert lead + front + [LOWER[n % 16] as int] == lead + Hexed(n);
  }

  lemma HexValueSnoc(s: seq<byte>, b: byte)
    requires AllHex(s) && IsHex(b)
    ensures AllHex(s + [b]) && HexValue(s + [b]) == 16 * HexValue(s) + HexDigit(b)
  {
    assert (s + [b])[..|s|] == s;
  }

  lemma {:induction false} OnlyZeros(n: nat)
    ensures var s: seq<byte> := seq(n, _ => 48); AllHex(s) && HexValue(s) == 0
  {
    if n > 0 {
      OnlyZeros(n - 1);
      assert seq(n, _ => 48)[..n - 1] == seq(n - 1, _ => 48);
    }
  }

  // ---------------------------------------------------------------- white space

  /** The characters that Unicode counts as white space. */
  predicate White(c: nat) {
    || 9 <= c <= 13 || c == 0x20 || c == 0x85 || c == 0xA0 || c == 0x1680 || 0x2000 <= c <= 0x200A
    || c == 0x2028 || c == 0x2029 || c == 0x202F || c == 0x205F || c == 0x3000
  }

  /** What a text starts with is white space exactly if it starts with such a character, encoded. */
  lemma SpaceIff(s: seq<byte>) returns (c: nat)
    ensures SpaceAt(s) > 0 ==> White(c) && Utf8.EncodeOne(c) == s[..SpaceAt(s)]
    ensures forall w: nat :: White(w) && Utf8.EncodeOne(w) <= s ==> SpaceAt(s) == |Utf8.EncodeOne(w)|
  {
    c := 0;
    var n := SpaceAt(s);
    if n == 1 {
      c := s[0];
    } else if n == 2 {
      c := s[1];
      assert s[..2] == [s[0], s[1]];
    } else if n == 3 {
      var p: int, q: int, r: int := s[0], s[1], s[2];
      c := (p - 0xE0) * 0x1000 + (q - 0x80) * 0x40 + (r - 0x80);
      assert s[..3] == [s[0], s[1], s[2]];
    }
    forall w: nat | White(w) && Utf8.EncodeOne(w) <= s ensures SpaceAt(s) == |Utf8.EncodeOne(w)| {
      WhiteIsSpace(w, s);
    }
  }

  lemma WhiteIsSpace(w: nat, s: seq<byte>)
    requires White(w) && Utf8.EncodeOne(w) <= s
    ensures SpaceAt(s) == |Utf8.EncodeOne(w)|
  {
    var e := Utf8.EncodeOne(w);
    assert forall i :: 0 <= i < |e| ==> s[i] == e[i];
  }

  ghost predicate AllWhite(cs: seq<nat>) { forall i :: 0 <= i < |cs| ==> White(cs[i]) }

  /** White space only: such characters one after the other. */
  ghost function Spaces(cs: seq<nat>): seq<byte>
    requires AllWhite(cs)
  {
    assert forall i :: 0 <= i < |cs| ==> White(cs[i]);
    Utf8.Encode(cs)
  }

  lemma {:induction false} SpacesSnoc(cs: seq<nat>, c: nat)
    requires AllWhite(cs) && White(c)
    ensures AllWhite(cs + [c]) && Spaces(cs + [c]) == Spaces(cs) + Utf8.EncodeOne(c)
  {
    hide Utf8.EncodeOne;
    if cs == [] {
      assert cs + [c] == [c] && [c][1..] == [];
      assert Spaces([c]) == Utf8.EncodeOne(c) + [];
    } else {
      assert (cs + [c])[1..] == cs[1..] + [c];
      SpacesSnoc(cs[1..], c);
    }
  }

  lemma {:induction false} TrimStartIs(s: seq<byte>) returns (lead: seq<nat>)
    ensures AllWhite(lead) && s == Spaces(lead) + TrimStart(s) && SpaceAt(TrimStart(s)) == 0
    decreases |s|
  {
    hide SpaceAt, Utf8.EncodeOne, Spaces, White, AllWhite;
    NoSpaces();
    if SpaceAt(s) == 0 {
      lead := [];
      assert [] + s == s;
    } else {
      var n := SpaceAt(s);
      var c := SpaceIff(s);
      var more := TrimStartIs(s[n..]);
      lead := [c] + more;
      SpacesCons(c, more);
      Regrouped(s, n, Spaces(more), TrimStart(s[n..]));
    }
  }

  lemma Regrouped(s: seq<byte>, n: nat, a: seq<byte>, b: seq<byte>)
    requires n <= |s| && s[n..] == a + b
    ensures s == s[..n] + a + b
  {
    assert s == s[..n] + s[n..];
  }

  lemma SpacesCons(c: nat, cs: seq<nat>)
    requires White(c) && AllWhite(cs)
    ensures AllWhite([c] + cs) && Spaces([c] + cs) == Utf8.EncodeOne(c) + Spaces(cs)
  {
    hide Utf8.EncodeOne, White;
    assert ([c] + cs)[1..] == cs;
  }

  lemma {:induction false} TrimStartOf(lead: seq<nat>, t: seq<byte>)
    requires AllWhite(lead) && SpaceAt(t) == 0
    ensures TrimStart(Spaces(lead) + t) == t
    decreases |lead|
  {
    hide SpaceAt, Utf8.EncodeOne;
    var s := Spaces(lead) + t;
    if lead == [] {
      assert s == t;
    } else {
      var e := Utf8.EncodeOne(lead[0]);
      assert s == e + (Spaces(lead[1..]) + t);
      var _ := SpaceIff(s);
      assert s[|e|..] == Spaces(lead[1..]) + t;
      TrimStartOf(lead[1..], t);
    }
  }

  lemma SpaceEndIff(s: seq<byte>) returns (c: nat)
    ensures SpaceEnd(s) > 0 ==> White(c) && Utf8.EncodeOne(c) == s[|s| - SpaceEnd(s)..]
    ensures forall w: nat :: White(w) && |Utf8.EncodeOne(w)| <= |s| && s[|s| - |Utf8.EncodeOne(w)|..] == Utf8.EncodeOne(w) ==>
              SpaceEnd(s) == |Utf8.EncodeOne(w)|
  {
    hide SpaceAt, Utf8.EncodeOne;
    var n := SpaceEnd(s);
    c := SpaceIff(s[|s| - n..]);
    forall w: nat | White(w) && |Utf8.EncodeOne(w)| <= |s| && s[|s| - |Utf8.EncodeOne(w)|..] == Utf8.EncodeOne(w)
      ensures SpaceEnd(s) == |Utf8.EncodeOne(w)|
    {
      OneSpaceEnd(w, s);
    }
  }

  /** No white-space character ends in another. */
  lemma OneSpaceEnd(w: nat, s: seq<byte>)
    requires White(w) && |Utf8.EncodeOne(w)| <= |s| && s[|s| - |Utf8.EncodeOne(w)|..] == Utf8.EncodeOne(w)
    ensures SpaceEnd(s) == |Utf8.EncodeOne(w)|
  {
    var e := Utf8.EncodeOne(w);
    WhiteIsSpace(w, e);
    assert EndsInSpace(s, |e|);
    assert forall k :: 0 <= k < |e| ==> s[|s| - |e| + k] == e[k];
    if |e| == 3 { assert !EndsInSpace(s, 2); }
  }

  lemma {:induction false} TrimEndIs(s: seq<byte>) returns (trail: seq<nat>)
    ensures AllWhite(trail) && s == TrimEnd(s) + Spaces(trail) && SpaceEnd(TrimEnd(s)) == 0 && TrimEnd(s) <= s
    decreases |s|
  {
    hide SpaceEnd, Utf8.EncodeOne, Spaces, AllWhite;
    NoSpaces();
    if SpaceEnd(s) == 0 {
      trail := [];
      assert s + [] == s;
    } else {
      var n := SpaceEnd(s);
      var c := SpaceEndIff(s);
      var front := TrimEndIs(s[..|s| - n]);
      trail := front + [c];
      SpacesSnoc(front, c);
      assert s == s[..|s| - n] + s[|s| - n..];
      assert TrimEnd(s) + Spaces(front) + Utf8.EncodeOne(c) == TrimEnd(s) + Spaces(trail);
    }
  }

  lemma NoSpaces()
    ensures AllWhite([]) && Spaces([]) == []
  {}

  lemma {:induction false} TrimEndOf(t: seq<byte>, trail: seq<nat>)
    requires AllWhite(trail) && SpaceEnd(t) == 0
    ensures TrimEnd(t + Spaces(trail)) == t
    decreases |trail|
  {
    hide SpaceEnd, Utf8.EncodeOne;
    var s := t + Spaces(trail);
    if trail == [] {
      assert s == t;
    } else {
      var front, c := trail[..|trail| - 1], trail[|trail| - 1];
      SpacesSnoc(front, c);
      assert trail == front + [c];
      var e := Utf8.EncodeOne(c);
      assert s == (t + Spaces(front)) + e;
      Utf8.NotEmpty(c);
      var _ := SpaceEndIff(s);
      assert s[..|s| - |e|] == t + Spaces(front);
      TrimEndOf(t, front);
    }
  }

  // ---------------------------------------------------------------- size lines

  /** A size as the decoder takes it: `digits` for `n`, with white space and a plus sign about them, then an extension. */
  ghost predicate Announces(line: seq<byte>, n: nat, lead: seq<nat>, plus: bool, digits: seq<byte>, trail: seq<nat>, ext: seq<byte>) {
    && AllWhite(lead) && AllWhite(trail) && digits != [] && AllHex(digits) && HexValue(digits) == n < 0x1_0000_0000_0000_0000
    && (ext == [] || ext[0] == SEMICOLON)
    && line == Spaces(lead) + (Signed(plus, digits) + Spaces(trail)) + ext
  }

  function Signed(plus: bool, digits: seq<byte>): seq<byte> { if plus then [43] + digits else digits }

  lemma {:induction false} ExtensionIs(line: seq<byte>) returns (ext: seq<byte>)
    ensures line == BeforeExtension(line) + ext && (ext == [] || ext[0] == SEMICOLON)
    decreases |line|
  {
    ext := line;
    if line == [] || line[0] == SEMICOLON {
      assert [] + line == line;
    } else {
      ext := ExtensionIs(line[1..]);
      assert line == [line[0]] + line[1..];
    }
  }

  lemma {:induction false} ExtensionOf(x: seq<byte>, ext: seq<byte>)
    requires SEMICOLON !in x && (ext == [] || ext[0] == SEMICOLON)
    ensures BeforeExtension(x + ext) == x
    decreases |x|
  {
    if x == [] {
      assert x + ext == ext;
    } else {
      assert (x + ext)[1..] == x[1..] + ext && x == [x[0]] + x[1..];
      ExtensionOf(x[1..], ext);
    }
  }

  lemma {:induction false} NoSemicolon(cs: seq<nat>)
    requires AllWhite(cs)
    ensures SEMICOLON !in Spaces(cs)
  {
    hide Utf8.EncodeOne;
    if cs != [] {
      WhiteBytes(cs[0]);
      NoSemicolon(cs[1..]);
    }
  }

  lemma WhiteBytes(w: nat)
    requires White(w)
    ensures SEMICOLON !in Utf8.EncodeOne(w)
  {}

  lemma SignedIsTrimmed(plus: bool, digits: seq<byte>, rest: seq<byte>)
    requires digits != [] && AllHex(digits)
    ensures var t := Signed(plus, digits);
            SEMICOLON !in t && SpaceAt(t + rest) == 0 && SpaceEnd(t) == 0
  {
    hide SpaceAt, EndsInSpace;
    var t := Signed(plus, digits);
    assert forall i :: 0 <= i < |t| ==> IsHex(t[i]) || t[i] == 43;
    assert (t + rest)[0] == t[0];
    StartsPlain(t + rest);
    NotSpaceEnd(t, 1);
    NotSpaceEnd(t, 2);
    NotSpaceEnd(t, 3);
  }

  lemma NotSpaceEnd(t: seq<byte>, k: nat)
    requires k > 0 && forall i :: 0 <= i < |t| ==> IsHex(t[i]) || t[i] == 43
    ensures !EndsInSpace(t, k)
  {
    hide SpaceAt;
    if k <= |t| {
      assert t[|t| - k..][0] == t[|t| - k];
      StartsPlain(t[|t| - k..]);
    }
  }

  lemma StartsPlain(s: seq<byte>)
    requires s != [] && (IsHex(s[0]) || s[0] == 43)
    ensures SpaceAt(s) == 0
  {}

  /** These lines are taken, for these sizes, and no others. */
  lemma SizeLineIff(line: seq<byte>, n: nat)
    ensures ParseSize(line) == Some(n) <==> exists lead, plus, digits, trail, ext :: Announces(line, n, lead, plus, digits, trail, ext)
  {
    hide BeforeExtension, TrimStart, TrimEnd, HexValue, AllHex, Spaces, SpaceAt, SpaceEnd;
    if ParseSize(line) == Some(n) {
      var ext := ExtensionIs(line);
      var x := BeforeExtension(line);
      var lead := TrimStartIs(x);
      var trail := TrimEndIs(TrimStart(x));
      var t := TrimEnd(TrimStart(x));
      var plus := t != [] && t[0] == PLUS;
      var digits := if plus then t[1..] else t;
      assert t == Signed(plus, digits);
      assert Announces(line, n, lead, plus, digits, trail, ext);
    }
    if lead, plus, digits, trail, ext :| Announces(line, n, lead, plus, digits, trail, ext) {
      AnnouncedIsParsed(line, n, lead, plus, digits, trail, ext);
    }
  }

  lemma AnnouncedIsParsed(line: seq<byte>, n: nat, lead: seq<nat>, plus: bool, digits: seq<byte>, trail: seq<nat>, ext: seq<byte>)
    requires Announces(line, n, lead, plus, digits, trail, ext)
    ensures ParseSize(line) == Some(n)
  {
    hide BeforeExtension, TrimStart, TrimEnd, HexValue, Spaces, SpaceAt, SpaceEnd;
    var t := Signed(plus, digits);
    SignedIsTrimmed(plus, digits, Spaces(trail));
    NoSemicolon(lead);
    NoSemicolon(trail);
    ExtensionOf(Spaces(lead) + (t + Spaces(trail)), ext);
    TrimStartOf(lead, t + Spaces(trail));
    TrimEndOf(t, trail);
    assert IsHex(digits[0]);
    assert plus ==> t[1..] == digits;
  }

  // ---------------------------------------------------------------- every stream

  /** A chunk as it stands in the stream: its size line and its bytes. */
  datatype Piece = Piece(line: seq<byte>, data: seq<byte>)

  ghost predicate Whole(p: Piece) {
    FindCrLf(p.line).None? && p.data != [] && ParseSize(p.line) == Some(|p.data|)
  }

  ghost function Laid(ps: seq<Piece>): seq<byte> {
    if ps == [] then [] else ps[0].line + CrLf() + (ps[0].data + CrLf() + Laid(ps[1..]))
  }

  ghost function Bodies(ps: seq<Piece>): seq<byte> {
    if ps == [] then [] else ps[0].data + Bodies(ps[1..])
  }

  /** What stands behind the whole chunks, and so what the decoder makes of it. */
  datatype Rest =
    | NoLine(part: seq<byte>)
    | BadLine(line: seq<byte>, more: seq<byte>)
    | LastLine(line: seq<byte>, more: seq<byte>)
    | PartOfChunk(line: seq<byte>, size: nat, part: seq<byte>)
    | NoEndYet(line: seq<byte>, data: seq<byte>, part: seq<byte>)
    | BadEnd(line: seq<byte>, data: seq<byte>, more: seq<byte>)

  ghost predicate RestFits(r: Rest) {
    match r
    case NoLine(part) => FindCrLf(part).None?
    case BadLine(line, _) => FindCrLf(line).None? && ParseSize(line).None?
    case LastLine(line, _) => FindCrLf(line).None? && ParseSize(line) == Some(0)
    case PartOfChunk(line, size, part) => FindCrLf(line).None? && ParseSize(line) == Some(size) && |part| < size
    case NoEndYet(line, data, part) =>
      FindCrLf(line).None? && data != [] && ParseSize(line) == Some(|data|) && |part| < 2
    case BadEnd(line, data, more) =>
      FindCrLf(line).None? && data != [] && ParseSize(line) == Some(|data|) && |more| >= 2 && more[..2] != CrLf()
  }

  ghost function RestBytes(r: Rest): seq<byte> {
    match r
    case NoLine(part) => part
    case BadLine(line, more) => line + CrLf() + more
    case LastLine(line, more) => line + CrLf() + more
    case PartOfChunk(line, _, part) => line + CrLf() + part
    case NoEndYet(line, data, part) => line + CrLf() + (data + part)
    case BadEnd(line, data, more) => line + CrLf() + (data + more)
  }

  ghost function Answer(r: Rest): Step
    requires RestFits(r)
  {
    match r
    case NoLine(part) => Good(Decoder(part, None, false), [])
    case BadLine(_, _) => Bad
    case LastLine(_, _) => Good(Decoder([], None, true), [])
    case PartOfChunk(_, size, part) => Good(Decoder([], Some(size - |part|), false), part)
    case NoEndYet(_, data, part) => Good(Decoder(part, Some(0), false), data)
    case BadEnd(_, _, _) => Bad
  }

  /**
   * Every stream is whole chunks and a rest of one of six kinds.  The bodies of the chunks come out, and with them
   * what the rest has of a chunk; it is an error exactly if the rest begins with a line that announces no size, or
   * with a chunk that something else than a line end follows, and done exactly if it begins with a line for zero.
   */
  lemma {:induction false} EveryStreamIs(s: seq<byte>) returns (ps: seq<Piece>, rest: Rest)
    ensures (forall i :: 0 <= i < |ps| ==> Whole(ps[i])) && RestFits(rest)
    ensures s == Laid(ps) + RestBytes(rest)
    ensures RestFits(rest) && Run(Decoder(s, None, false)) == After(Bodies(ps), Answer(rest))
    decreases |s|, 1
  {
    hide Run, ParseSize, FindCrLf;
    ps := [];
    if FindCrLf(s).None? {
      rest := NoLine(s);
      RunNoLine(s);
    } else {
      var line, more := LineOff(s);
      RunLine(line, more);
      var size := ParseSize(line);
      if size.None? {
        rest := BadLine(line, more);
      } else if size.value == 0 {
        rest := LastLine(line, more);
        RunDone(more);
      } else {
        ps, rest := ChunkIs(line, more, size.value);
      }
    }
    if ps == [] {
      AfterNothing(Answer(rest));
      assert [] + RestBytes(rest) == RestBytes(rest);
    }
  }

  lemma LineOff(s: seq<byte>) returns (line: seq<byte>, more: seq<byte>)
    requires FindCrLf(s).Some?
    ensures s == line + CrLf() + more && FindCrLf(line).None? && FindCrLf(s) == Some(|line|)
  {
    var eol := FindCrLf(s).value;
    line, more := s[..eol], s[eol + 2..];
    assert s[eol..eol + 2] == CrLf() && s == s[..eol] + s[eol..eol + 2] + s[eol + 2..];
    assert forall i :: 0 <= i < eol ==> line[i] == s[i];
  }

  lemma NoPieces()
    ensures Laid([]) == [] && Bodies([]) == []
  {}

  lemma PieceInFront(line: seq<byte>, data: seq<byte>, qs: seq<Piece>, rest: Rest)
    requires RestFits(rest)
    ensures var ps, next := [Piece(line, data)] + qs, Laid(qs) + RestBytes(rest);
            && Laid(ps) + RestBytes(rest) == line + CrLf() + (data + CrLf() + next)
            && After(Bodies(ps), Answer(rest)) == After(data, After(Bodies(qs), Answer(rest)))
  {
    hide RestBytes, Answer, RestFits, CrLf;
    var p := Piece(line, data);
    assert ([p] + qs)[1..] == qs;
    AfterTwice(data, Bodies(qs), Answer(rest));
    var a, b, r := line + CrLf(), data + CrLf(), RestBytes(rest);
    assert a + (b + Laid(qs)) + r == a + (b + (Laid(qs) + r));
  }

  lemma {:induction false} ChunkIs(line: seq<byte>, more: seq<byte>, n: nat) returns (ps: seq<Piece>, rest: Rest)
    requires FindCrLf(line).None? && ParseSize(line) == Some(n) && n > 0
    ensures (forall i :: 0 <= i < |ps| ==> Whole(ps[i])) && RestFits(rest)
    ensures line + CrLf() + more == Laid(ps) + RestBytes(rest)
    ensures RestFits(rest) && Run(Decoder(more, Some(n), false)) == After(Bodies(ps), Answer(rest))
    decreases |more|, 0
  {
    hide Run, ParseSize, FindCrLf, Laid, Bodies;
    NoPieces();
    ps := [];
    if |more| < n {
      rest := PartOfChunk(line, n, more);
      RunShort(more, n, false);
    } else {
      var data, tail := more[..n], more[n..];
      assert more == data + tail;
      if |tail| < 2 {
        rest := NoEndYet(line, data, tail);
        RunTail(data, tail, false);
      } else if tail[..2] != CrLf() {
        rest := BadEnd(line, data, tail);
        RunBadEnd(data, tail, false);
      } else {
        var next := tail[2..];
        assert tail == CrLf() + next && more == data + CrLf() + next;
        RunData(data, next, false);
        var qs;
        qs, rest := EveryStreamIs(next);
        ps := [Piece(line, data)] + qs;
        PieceInFront(line, data, qs, rest);
      }
    }
    if ps == [] {
      AfterNothing(Answer(rest));
      assert [] + RestBytes(rest) == RestBytes(rest);
    }
  }
}
