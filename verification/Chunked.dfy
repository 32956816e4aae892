/** The chunked decoder of the agent's HTTP client (RFC 9112 section 7.1). */
module Chunked {
  import opened Basics

  const CR: byte := 13
  const LF: byte := 10
  const SEMICOLON: byte := 59
  const PLUS: byte := 43
  const USIZE_LIMIT := 0x1_0000_0000_0000_0000

  // ---------------------------------------------------------------- size lines

  predicate IsHex(b: byte) {
    48 <= b <= 57 || 65 <= b <= 70 || 97 <= b <= 102
  }

  function HexDigit(b: byte): nat
    requires IsHex(b)
  {
    if b <= 57 then b - 48 else if b <= 70 then b - 55 else b - 87
  }

  predicate AllHex(s: seq<byte>) {
    forall i :: 0 <= i < |s| ==> IsHex(s[i])
  }

  function HexValue(s: seq<byte>): nat
    requires AllHex(s)
  {
    if s == [] then 0 else 16 * HexValue(s[..|s| - 1]) + HexDigit(s[|s| - 1])
  }

  /** Length of the white-space character, in UTF-8, that `s` starts with; 0 if it starts with none. */
  function SpaceAt(s: seq<byte>): (n: nat)
    ensures n <= |s|
  {
    if |s| >= 1 && (9 <= s[0] <= 13 || s[0] == 32) then 1
    else if |s| >= 2 && s[0] == 0xC2 && (s[1] == 0x85 || s[1] == 0xA0) then 2
    else if |s| >= 3 && s[0] == 0xE1 && s[1] == 0x9A && s[2] == 0x80 then 3
    else if |s| >= 3 && s[0] == 0xE2 && s[1] == 0x80
            && (0x80 <= s[2] <= 0x8A || s[2] == 0xA8 || s[2] == 0xA9 || s[2] == 0xAF) then 3
    else if |s| >= 3 && s[0] == 0xE2 && s[1] == 0x81 && s[2] == 0x9F then 3
    else if |s| >= 3 && s[0] == 0xE3 && s[1] == 0x80 && s[2] == 0x80 then 3
    else 0
  }

  /** Length of the white-space character that `s` ends with. */
  function SpaceEnd(s: seq<byte>): (n: nat)
    ensures n <= |s|
  {
    if EndsInSpace(s, 1) then 1 else if EndsInSpace(s, 2) then 2 else if EndsInSpace(s, 3) then 3 else 0
  }

  predicate EndsInSpace(s: seq<byte>, n: nat) {
    n <= |s| && SpaceAt(s[|s| - n..]) == n
  }

  function TrimStart(s: seq<byte>): seq<byte>
    decreases |s|
  {
    if SpaceAt(s) == 0 then s else TrimStart(s[SpaceAt(s)..])
  }

  function TrimEnd(s: seq<byte>): seq<byte>
    decreases |s|
  {
    if SpaceEnd(s) == 0 then s else TrimEnd(s[..|s| - SpaceEnd(s)])
  }

  /** The part before a chunk extension. */
  function BeforeExtension(line: seq<byte>): seq<byte> {
    if line == [] || line[0] == SEMICOLON then [] else [line[0]] + BeforeExtension(line[1..])
  }

  /**
   * The size a line announces: hexadecimal, perhaps after a plus sign, in a machine word.  What is left
   * after trimming must be ASCII, so text that is not UTF-8 is refused here too.
   */
  function ParseSize(line: seq<byte>): Option<nat> {
    var text := TrimEnd(TrimStart(BeforeExtension(line)));
    var digits := if text != [] && text[0] == PLUS then text[1..] else text;
    if digits == [] || !AllHex(digits) || HexValue(digits) >= USIZE_LIMIT then None
    else Some(HexValue(digits))
  }

  // ---------------------------------------------------------------- the decoder on a whole stream

  /** `remaining` counts the bytes still expected of the chunk being read; None while reading a size line. */
  datatype Decoder = Decoder(buf: seq<byte>, remaining: Option<nat>, done: bool)

  const FRESH := Decoder([], None, false)

  function CrLf(): seq<byte> { [CR, LF] }

  /** `find_crlf`: where the first line end starts. */
  function FindCrLf(s: seq<byte>): (r: Option<nat>)
    ensures r.Some? ==> r.value + 2 <= |s| && s[r.value] == CR && s[r.value + 1] == LF
                        && forall i :: 0 <= i < r.value ==> !(s[i] == CR && s[i + 1] == LF)
    ensures r.None? ==> forall i :: 0 <= i < |s| - 1 ==> !(s[i] == CR && s[i + 1] == LF)
  {
    if |s| < 2 then None
    else if s[0] == CR && s[1] == LF then Some(0)
    else match FindCrLf(s[1..])
      case None => None
      case Some(i) => Some(i + 1)
  }

  datatype Step = Bad | Good(state: Decoder, out: seq<byte>)

  /** Body bytes already produced, put in front of what follows. */
  function After(out: seq<byte>, s: Step): Step {
    match s
    case Bad => Bad
    case Good(d, more) => Good(d, out + more)
  }

  /** The loop of `push` on what the buffer holds, but for the guard on long size lines. */
  function Run(d: Decoder): Step
    decreases |d.buf|, if d.remaining.None? then 1 else 0
  {
    match d.remaining
    case None =>
      if d.done then Good(d.(buf := []), [])
      else
        (match FindCrLf(d.buf)
         case None => Good(d, [])
         case Some(eol) =>
           match ParseSize(d.buf[..eol])
           case None => Bad
           case Some(size) =>
             if size == 0 then Run(Decoder(d.buf[eol + 2..], None, true))
             else Run(Decoder(d.buf[eol + 2..], Some(size), false)))
    case Some(n) =>
      if |d.buf| < n then Good(Decoder([], Some(n - |d.buf|), d.done), d.buf)
      else if |d.buf| - n < 2 then Good(Decoder(d.buf[n..], Some(0), d.done), d.buf[..n])
      else if d.buf[n..n + 2] != CrLf() then Bad
      else After(d.buf[..n], Run(Decoder(d.buf[n + 2..], None, d.done)))
  }

  function Fed(d: Decoder, bytes: seq<byte>): Decoder { d.(buf := d.buf + bytes) }

  /** Waiting for a line end with more than 64 bytes in hand. */
  predicate Overlong(d: Decoder) { d.remaining.None? && !d.done && |d.buf| > 64 }

  /** `ChunkedDecoder::push`. */
  function Push(d: Decoder, bytes: seq<byte>): Step {
    var s := Run(Fed(d, bytes));
    if s.Good? && Overlong(s.state) then Bad else s
  }

  lemma FindCrLfGrows(s: seq<byte>, t: seq<byte>)
    requires FindCrLf(s).Some?
    ensures FindCrLf(s + t) == FindCrLf(s)
  {
    var eol := FindCrLf(s).value;
    assert (s + t)[eol] == CR && (s + t)[eol + 1] == LF;
    assert forall i :: 0 <= i <= eol ==> (s + t)[i] == s[i];
  }

  /** A size line at the front of the buffer. */
  lemma RunLine(line: seq<byte>, more: seq<byte>)
    requires FindCrLf(line + CrLf() + more) == Some(|line|)
    ensures Run(Decoder(line + CrLf() + more, None, false)) ==
            match ParseSize(line)
            case None => Bad
            case Some(size) => Run(Decoder(more, if size == 0 then None else Some(size), size == 0))
  {
    hide ParseSize, FindCrLf;
    var b := line + CrLf() + more;
    assert b[..|line|] == line && b[|line| + 2..] == more;
  }

  /** The rest of a chunk at the front of the buffer. */
  lemma RunData(data: seq<byte>, more: seq<byte>, done: bool)
    ensures Run(Decoder(data + CrLf() + more, Some(|data|), done)) == After(data, Run(Decoder(more, None, done)))
  {
    hide ParseSize, FindCrLf;
    var b := data + CrLf() + more;
    assert b[..|data|] == data && b[|data|..|data| + 2] == CrLf() && b[|data| + 2..] == more;
  }

  /** The three other ways of reading on in a chunk: it is not all there, or not its line end, or that is wrong. */
  lemma RunShort(b: seq<byte>, n: nat, done: bool)
    requires |b| < n
    ensures Run(Decoder(b, Some(n), done)) == Good(Decoder([], Some(n - |b|), done), b)
  {}

  lemma RunTail(data: seq<byte>, tail: seq<byte>, done: bool)
    requires |tail| < 2
    ensures Run(Decoder(data + tail, Some(|data|), done)) == Good(Decoder(tail, Some(0), done), data)
  {
    assert (data + tail)[|data|..] == tail && (data + tail)[..|data|] == data;
  }

  lemma RunBadEnd(data: seq<byte>, tail: seq<byte>, done: bool)
    requires |tail| >= 2 && tail[..2] != CrLf()
    ensures Run(Decoder(data + tail, Some(|data|), done)) == Bad
  {
    assert (data + tail)[|data|..|data| + 2] == tail[..2];
  }

  /** Part of a chunk, and nothing of its line end yet. */
  lemma RunPart(data: seq<byte>, t: seq<byte>, left: nat, done: bool)
    ensures Run(Decoder(data + t, Some(|data| + left), done)) == After(data, Run(Decoder(t, Some(left), done)))
  {
    hide Run;
    if |t| < left {
      RunShort(t, left, done);
      RunShort(data + t, |data| + left, done);
    } else {
      var last, tail := t[..left], t[left..];
      assert t == last + tail && data + t == (data + last) + tail;
      if |tail| < 2 {
        RunTail(last, tail, done);
        RunTail(data + last, tail, done);
      } else if tail[..2] != CrLf() {
        RunBadEnd(last, tail, done);
        RunBadEnd(data + last, tail, done);
      } else {
        var more := tail[2..];
        assert t == last + CrLf() + more && data + t == (data + last) + CrLf() + more;
        RunData(last, more, done);
        RunData(data + last, more, done);
        AfterTwice(data, last, Run(Decoder(more, None, done)));
      }
    }
  }

  lemma AfterTwice(a: seq<byte>, b: seq<byte>, s: Step)
    ensures After(a, After(b, s)) == After(a + b, s)
  {
    if s.Good? { assert a + (b + s.out) == a + b + s.out; }
  }

  lemma AfterNothing(s: Step)
    ensures After([], s) == s
  {
    if s.Good? { assert [] + s.out == s.out; }
  }

  /** Continues(d, t): running what one read brought and then what the next brings is running both at once. */
  ghost predicate Continues(d: Decoder, t: seq<byte>) {
    Run(Fed(d, t)) == match Run(d)
                      case Bad => Bad
                      case Good(e, out) => After(out, Run(Fed(e, t)))
  }

  lemma RunNoLine(b: seq<byte>)
    requires FindCrLf(b).None?
    ensures Run(Decoder(b, None, false)) == Good(Decoder(b, None, false), [])
  {}

  lemma RunDone(b: seq<byte>)
    ensures Run(Decoder(b, None, true)) == Good(Decoder([], None, true), [])
  {}

  lemma CutLine(b: seq<byte>, eol: nat, t: seq<byte>)
    requires eol + 2 <= |b| && b[eol] == CR && b[eol + 1] == LF
    ensures b == b[..eol] + CrLf() + b[eol + 2..]
    ensures b + t == b[..eol] + CrLf() + (b[eol + 2..] + t)
  {
    assert b[eol..eol + 2] == CrLf();
    assert b == b[..eol] + b[eol..eol + 2] + b[eol + 2..];
  }

  lemma ContinuesLine(d: Decoder, t: seq<byte>)
    requires d.remaining.None?
    requires forall e: Decoder :: |e.buf| < |d.buf| ==> Continues(e, t)
    ensures Continues(d, t)
  {
    hide ParseSize, Run;
    var b := d.buf;
    if d.done {
      RunDone(b);
      RunDone(b + t);
      RunDone([] + t);
    } else if FindCrLf(b).Some? {
      var eol := FindCrLf(b).value;
      var line, more := b[..eol], b[eol + 2..];
      CutLine(b, eol, t);
      FindCrLfGrows(b, t);
      RunLine(line, more);
      RunLine(line, more + t);
      var size := ParseSize(line);
      if size.Some? {
        assert Continues(Decoder(more, if size.value == 0 then None else size, size.value == 0), t);
      }
    } else {
      RunNoLine(b);
      AfterNothing(Run(Fed(d, t)));
    }
  }

  lemma ContinuesData(d: Decoder, t: seq<byte>)
    requires d.remaining.Some?
    requires forall e: Decoder :: |e.buf| < |d.buf| ==> Continues(e, t)
    ensures Continues(d, t)
  {
    hide Run, FindCrLf, ParseSize;
    var b, n := d.buf, d.remaining.value;
    if |b| < n {
      ContinuesShort(d, t);
    } else {
      var data, tail := b[..n], b[n..];
      assert b == data + tail && b + t == data + (tail + t);
      if |tail| >= 2 && tail[..2] == CrLf() {
        ContinuesChunk(data, tail[2..], t, d.done);
        assert b == data + CrLf() + tail[2..];
      } else {
        ContinuesEnd(data, tail, t, d.done);
      }
    }
  }

  lemma ContinuesShort(d: Decoder, t: seq<byte>)
    requires d.remaining.Some? && |d.buf| < d.remaining.value
    ensures Continues(d, t)
  {
    hide Run;
    var b, n := d.buf, d.remaining.value;
    RunShort(b, n, d.done);
    RunPart(b, t, n - |b|, d.done);
    assert [] + t == t;
  }

  lemma ContinuesEnd(data: seq<byte>, tail: seq<byte>, t: seq<byte>, done: bool)
    requires |tail| < 2 || tail[..2] != CrLf()
    ensures Continues(Decoder(data + tail, Some(|data|), done), t)
  {
    hide Run;
    assert data + tail + t == data + (tail + t);
    if |tail| < 2 {
      RunTail(data, tail, done);
      RunPart(data, tail + t, 0, done);
    } else {
      RunBadEnd(data, tail, done);
      assert (tail + t)[..2] == tail[..2];
      RunBadEnd(data, tail + t, done);
    }
  }

  lemma ContinuesChunk(data: seq<byte>, more: seq<byte>, t: seq<byte>, done: bool)
    requires Continues(Decoder(more, None, done), t)
    ensures Continues(Decoder(data + CrLf() + more, Some(|data|), done), t)
  {
    hide Run;
    assert data + CrLf() + more + t == data + CrLf() + (more + t);
    RunData(data, more, done);
    RunData(data, more + t, done);
    var r := Run(Decoder(more, None, done));
    if r.Good? { AfterTwice(data, r.out, Run(Fed(r.state, t))); }
  }

  lemma {:induction false} RunContinues(d: Decoder, t: seq<byte>)
    ensures Continues(d, t)
    decreases |d.buf|
  {
    forall e: Decoder | |e.buf| < |d.buf| ensures Continues(e, t) { RunContinues(e, t); }
    if d.remaining.None? { ContinuesLine(d, t); } else { ContinuesData(d, t); }
  }

  // ---------------------------------------------------------------- chunked codings

  /** `hex` announces the size of `data`; `ext` is the rest of the size line. */
  datatype Chunk = Chunk(hex: seq<byte>, ext: seq<byte>, data: seq<byte>)

  datatype Coded = Coded(chunks: seq<Chunk>, last: Chunk, trailer: seq<byte>)

  function Line(c: Chunk): seq<byte> { c.hex + c.ext }

  /** White space perhaps, then nothing or a semicolon and anything. */
  predicate IsExtension(ext: seq<byte>) {
    ext == [] || ext[0] == SEMICOLON || ((ext[0] == 32 || ext[0] == 9) && IsExtension(ext[1..]))
  }

  predicate ValidChunk(c: Chunk) {
    && c.hex != [] && AllHex(c.hex) && HexValue(c.hex) == |c.data| < USIZE_LIMIT
    && IsExtension(c.ext) && FindCrLf(Line(c)).None?
  }

  predicate ValidCoding(c: Coded) {
    && (forall i :: 0 <= i < |c.chunks| ==> ValidChunk(c.chunks[i]) && c.chunks[i].data != [])
    && ValidChunk(c.last) && c.last.data == []
  }

  function Coding(c: Coded): seq<byte>
    decreases |c.chunks|
  {
    if c.chunks == [] then Line(c.last) + CrLf() + c.trailer
    else Line(c.chunks[0]) + CrLf() + (c.chunks[0].data + CrLf() + Coding(c.(chunks := c.chunks[1..])))
  }

  function Body(c: Coded): seq<byte>
    decreases |c.chunks|
  {
    if c.chunks == [] then [] else c.chunks[0].data + Body(c.(chunks := c.chunks[1..]))
  }

  /** Every size line is at most 63 bytes long. */
  predicate ShortLines(c: Coded) {
    |Line(c.last)| <= 63 && forall i :: 0 <= i < |c.chunks| ==> |Line(c.chunks[i])| <= 63
  }

  predicate Blank(s: seq<byte>) {
    forall i :: 0 <= i < |s| ==> s[i] == 32 || s[i] == 9
  }

  lemma {:induction false} ExtensionCutOff(hex: seq<byte>, ext: seq<byte>) returns (blank: seq<byte>)
    requires AllHex(hex) && IsExtension(ext)
    ensures Blank(blank) && BeforeExtension(hex + ext) == hex + blank
    decreases |hex|
  {
    hide IsExtension, Blank;
    if hex == [] {
      blank := BlanksBefore(ext);
      assert hex + ext == ext && hex + blank == blank;
    } else {
      assert (hex + ext)[1..] == hex[1..] + ext;
      blank := ExtensionCutOff(hex[1..], ext);
      assert hex + blank == [hex[0]] + (hex[1..] + blank);
    }
  }

  lemma {:induction false} BlanksBefore(ext: seq<byte>) returns (blank: seq<byte>)
    requires IsExtension(ext)
    ensures Blank(blank) && BeforeExtension(ext) == blank
    decreases |ext|
  {
    blank := [];
    if ext != [] && ext[0] != SEMICOLON {
      var more := BlanksBefore(ext[1..]);
      blank := [ext[0]] + more;
    }
  }

  lemma {:induction false} BlanksTrimmed(hex: seq<byte>, blank: seq<byte>)
    requires hex != [] && AllHex(hex) && Blank(blank)
    ensures TrimEnd(hex + blank) == hex
    decreases |blank|
  {
    hide SpaceEnd;
    var s := hex + blank;
    if blank == [] {
      assert s == hex;
      HexIsNoSpace(hex);
    } else {
      var front := hex + blank[..|blank| - 1];
      assert s == front + [blank[|blank| - 1]];
      BlankLast(front, blank[|blank| - 1]);
      assert s[..|s| - 1] == front;
      BlanksTrimmed(hex, blank[..|blank| - 1]);
    }
  }

  lemma HexIsNoSpace(hex: seq<byte>)
    requires AllHex(hex)
    ensures SpaceEnd(hex) == 0
  {
    hide EndsInSpace;
    HexLast(hex, 1);
    HexLast(hex, 2);
    HexLast(hex, 3);
  }

  lemma HexLast(hex: seq<byte>, n: nat)
    requires AllHex(hex) && n > 0
    ensures !EndsInSpace(hex, n)
  {
    if n <= |hex| { assert IsHex(hex[|hex| - n..][0]); }
  }

  lemma BlankLast(s: seq<byte>, b: byte)
    requires b == 32 || b == 9
    ensures SpaceEnd(s + [b]) == 1
  {
    assert (s + [b])[|s|..] == [b];
    assert EndsInSpace(s + [b], 1);
  }

  /** A size line as the standard writes it announces the size it means. */
  lemma ParsesSizeLine(c: Chunk)
    requires ValidChunk(c)
    ensures ParseSize(Line(c)) == Some(|c.data|)
  {
    hide SpaceAt, TrimStart, TrimEnd, BeforeExtension, HexValue, FindCrLf, IsExtension;
    var blank := ExtensionCutOff(c.hex, c.ext);
    NoSpaceInFront(c.hex, blank);
    BlanksTrimmed(c.hex, blank);
    assert IsHex(c.hex[0]);
  }

  lemma NoSpaceInFront(hex: seq<byte>, blank: seq<byte>)
    requires hex != [] && AllHex(hex)
    ensures TrimStart(hex + blank) == hex + blank
  {
    assert IsHex(hex[0]) && (hex + blank)[0] == hex[0];
  }

  lemma LineFound(line: seq<byte>, more: seq<byte>)
    requires FindCrLf(line).None?
    ensures FindCrLf(line + CrLf() + more) == Some(|line|)
  {
    var s := line + CrLf() + more;
    assert s[|line|] == CR && s[|line| + 1] == LF;
    assert forall i :: 0 <= i < |line| ==> s[i] == line[i];
  }

  lemma LineUnfinished(line: seq<byte>, p: seq<byte>)
    requires FindCrLf(line).None? && p <= line + CrLf() && |p| <= |line| + 1
    ensures FindCrLf(p).None?
  {
    var s := line + CrLf();
    assert forall i :: 0 <= i < |p| ==> p[i] == s[i];
    assert forall i :: 0 <= i < |line| ==> s[i] == line[i];
  }

  /** However much of a valid coding has arrived, the decoder is neither in error nor, on short lines, impatient. */
  lemma {:induction false} PrefixDecodes(c: Coded, p: seq<byte>)
    requires ValidCoding(c) && p <= Coding(c)
    ensures var s := Run(Decoder(p, None, false));
            && s.Good? && (ShortLines(c) ==> !Overlong(s.state))
            && (p == Coding(c) ==> s == Good(Decoder([], None, true), Body(c)))
    decreases |c.chunks|
  {
    hide Run, ParseSize, FindCrLf;
    var first := if c.chunks == [] then c.last else c.chunks[0];
    var line := Line(first);
    assert ValidChunk(first);
    if |p| < |line| + 2 {
      assert p <= line + CrLf() by { assert Coding(c)[..|line| + 2] == line + CrLf(); }
      LineUnfinished(line, p);
      RunNoLine(p);
    } else {
      var more := p[|line| + 2..];
      assert p == line + CrLf() + more;
      LineFound(line, more);
      RunLine(line, more);
      ParsesSizeLine(first);
      if c.chunks == [] {
        RunDone(more);
      } else {
        PrefixInChunk(c, more);
        assert p == Coding(c) ==> more == first.data + CrLf() + Coding(c.(chunks := c.chunks[1..]));
      }
    }
  }

  lemma {:induction false} PrefixInChunk(c: Coded, more: seq<byte>)
    requires ValidCoding(c) && c.chunks != []
    requires more <= c.chunks[0].data + CrLf() + Coding(c.(chunks := c.chunks[1..]))
    ensures var s := Run(Decoder(more, Some(|c.chunks[0].data|), false));
            && s.Good? && (ShortLines(c) ==> !Overlong(s.state))
            && (more == c.chunks[0].data + CrLf() + Coding(c.(chunks := c.chunks[1..])) ==>
                  s == Good(Decoder([], None, true), Body(c)))
    decreases |c.chunks|, 0
  {
    hide Run, ParseSize, FindCrLf;
    var data, rest := c.chunks[0].data, c.(chunks := c.chunks[1..]);
    var all := data + CrLf() + Coding(rest);
    if |more| < |data| {
      RunShort(more, |data|, false);
    } else {
      var tail := more[|data|..];
      assert all[..|data|] == data && all[|data|..] == CrLf() + Coding(rest);
      assert more == data + tail && tail <= CrLf() + Coding(rest);
      if |tail| < 2 {
        RunTail(data, tail, false);
      } else {
        var next := tail[2..];
        assert more == data + CrLf() + next && next <= Coding(rest);
        RunData(data, next, false);
        PrefixDecodes(rest, next);
        assert more == all ==> next == Coding(rest);
      }
    }
  }

  // ---------------------------------------------------------------- any way of cutting the stream

  datatype Outcome = Failed | Finished(state: Decoder, outs: seq<seq<byte>>)

  /** One `push` after the other; the first error ends it. */
  function Feed(d: Decoder, pieces: seq<seq<byte>>): Outcome
    decreases |pieces|
  {
    if pieces == [] then Finished(d, [])
    else match Push(d, pieces[0])
      case Bad => Failed
      case Good(e, out) =>
        match Feed(e, pieces[1..])
        case Failed => Failed
        case Finished(f, outs) => Finished(f, [out] + outs)
  }

  /** A decoder that has done all it can with what it has. */
  predicate Idle(d: Decoder) { Run(d) == Good(d, []) }

  /** Every prefix of what is to come keeps the decoder happy. */
  ghost predicate Tolerates(d: Decoder, s: seq<byte>) {
    forall p :: p <= s ==> var r := Run(Fed(d, p)); r.Good? && !Overlong(r.state)
  }

  lemma {:induction false} RunIdles(d: Decoder)
    requires Run(d).Good?
    ensures Idle(Run(d).state)
    decreases |d.buf|, if d.remaining.None? then 1 else 0
  {
    hide ParseSize;
    match d.remaining
    case None =>
      if !d.done && FindCrLf(d.buf).Some? {
        var eol := FindCrLf(d.buf).value;
        var size := ParseSize(d.buf[..eol]).value;
        RunIdles(Decoder(d.buf[eol + 2..], if size == 0 then None else Some(size), size == 0));
      }
    case Some(n) =>
      if |d.buf| - n >= 2 { RunIdles(Decoder(d.buf[n + 2..], None, d.done)); }
  }

  lemma {:induction false} FeedIsRun(d: Decoder, pieces: seq<seq<byte>>)
    requires Idle(d) && Tolerates(d, Concat(pieces))
    ensures var f, r := Feed(d, pieces), Run(Fed(d, Concat(pieces)));
            f.Finished? && r == Good(f.state, Concat(f.outs))
    decreases |pieces|
  {
    hide Run, Overlong;
    if pieces == [] {
      assert Fed(d, []) == d;
    } else {
      var p, more := pieces[0], Concat(pieces[1..]);
      assert p <= Concat(pieces);
      var s := Run(Fed(d, p));
      assert s.Good? && !Overlong(s.state);
      RunIdles(Fed(d, p));
      forall q | q <= more ensures var r := Run(Fed(s.state, q)); r.Good? && !Overlong(r.state) {
        assert p + q <= Concat(pieces);
        FeedTwice(d, p, q);
      }
      FeedIsRun(s.state, pieces[1..]);
      FeedTwice(d, p, more);
    }
  }

  lemma FeedTwice(d: Decoder, p: seq<byte>, q: seq<byte>)
    requires Run(Fed(d, p)).Good?
    ensures Run(Fed(d, p + q)) == After(Run(Fed(d, p)).out, Run(Fed(Run(Fed(d, p)).state, q)))
  {
    hide Run;
    RunContinues(Fed(d, p), q);
    assert Fed(Fed(d, p), q) == Fed(d, p + q) by { assert d.buf + p + q == d.buf + (p + q); }
  }

  /** Cut up like this, the coding gives back its body and leaves the decoder done. */
  ghost predicate Decodes(c: Coded, pieces: seq<seq<byte>>) {
    var f := Feed(FRESH, pieces);
    f.Finished? && f.state == Decoder([], None, true) && Concat(f.outs) == Body(c)
  }

  /** However a valid coding with short size lines is cut up, its body comes out and the decoder is done. */
  lemma SplitIndependent(c: Coded, pieces: seq<seq<byte>>)
    requires ValidCoding(c) && ShortLines(c) && Concat(pieces) == Coding(c)
    ensures Decodes(c, pieces)
  {
    hide Run;
    forall p | p <= Coding(c) ensures var r := Run(Fed(FRESH, p)); r.Good? && !Overlong(r.state) {
      assert Fed(FRESH, p) == Decoder(p, None, false);
      PrefixDecodes(c, p);
    }
    RunNoLine([]);
    FeedIsRun(FRESH, pieces);
    assert Fed(FRESH, Coding(c)) == Decoder(Coding(c), None, false);
    PrefixDecodes(c, Coding(c));
  }

  /** Cut in a size line of 64 bytes or more, a valid coding is refused. */
  lemma {:induction false} ImpatientPrefix(c: Coded) returns (p: seq<byte>)
    requires ValidCoding(c) && !ShortLines(c)
    ensures p <= Coding(c) && Push(FRESH, p) == Bad
    decreases |c.chunks|
  {
    hide Run, ParseSize, FindCrLf;
    var first := if c.chunks == [] then c.last else c.chunks[0];
    var line := Line(first);
    assert ValidChunk(first);
    if |line| > 63 {
      p := (line + CrLf())[..65];
      LineUnfinished(line, p);
      RunNoLine(p);
      assert Fed(FRESH, p) == Decoder(p, None, false);
      assert Coding(c)[..|line| + 2] == line + CrLf();
    } else {
      var rest := c.(chunks := c.chunks[1..]);
      var q := ImpatientPrefix(rest);
      var more := first.data + CrLf() + q;
      p := line + CrLf() + more;
      assert p <= Coding(c) by { assert Coding(c) == line + CrLf() + (first.data + CrLf() + Coding(rest)); }
      LineFound(line, more);
      RunLine(line, more);
      ParsesSizeLine(first);
      RunData(first.data, q, false);
      assert Fed(FRESH, p) == Decoder(p, None, false) && Fed(FRESH, q) == Decoder(q, None, false);
    }
  }

  lemma ImpatientSplit(c: Coded) returns (pieces: seq<seq<byte>>)
    requires ValidCoding(c) && !ShortLines(c)
    ensures Concat(pieces) == Coding(c) && !Decodes(c, pieces)
  {
    hide Push, Coding, Body;
    var p := ImpatientPrefix(c);
    var q := Coding(c)[|p|..];
    pieces := [p, q];
    assert pieces[1..] == [q] && |pieces[1..][1..]| == 0;
    assert Concat([q]) == q + Concat([]);
  }

  /** A valid coding decodes the same however it is cut up exactly when its size lines are at most 63 bytes long. */
  lemma SplitIndependentIff(c: Coded)
    requires ValidCoding(c)
    ensures ShortLines(c) <==>
            forall pieces: seq<seq<byte>> :: Concat(pieces) == Coding(c) ==> Decodes(c, pieces)
  {
    hide Decodes, Coding, ShortLines, ValidCoding;
    if ShortLines(c) {
      forall pieces: seq<seq<byte>> | Concat(pieces) == Coding(c) ensures Decodes(c, pieces) {
        SplitIndependent(c, pieces);
      }
    } else {
      var pieces := ImpatientSplit(c);
    }
  }
}
