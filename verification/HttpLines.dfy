/** The agent's HTTP response body: the decoder and the line splitter in place, and the two together. */
module HttpLines {
  import opened Basics
  import C = Chunked

  const LF: byte := 10

  // ---------------------------------------------------------------- lines of a whole body

  /** Lines with their line feeds, and what comes after the last one. */
  datatype Split = Split(lines: seq<seq<byte>>, rest: seq<byte>)

  function FindLf(s: seq<byte>): (r: Option<nat>)
    ensures r.Some? ==> r.value < |s| && s[r.value] == LF && forall i :: 0 <= i < r.value ==> s[i] != LF
    ensures r.None? ==> forall i :: 0 <= i < |s| ==> s[i] != LF
  {
    if s == [] then None
    else if s[0] == LF then Some(0)
    else match FindLf(s[1..])
      case None => None
      case Some(i) => Some(i + 1)
  }

  function Lines(s: seq<byte>): Split
    decreases |s|
  {
    match FindLf(s)
    case None => Split([], s)
    case Some(i) => Before([s[..i + 1]], Lines(s[i + 1..]))
  }

  function Before(lines: seq<seq<byte>>, s: Split): Split {
    Split(lines + s.lines, s.rest)
  }

  lemma BeforeTwice(a: seq<seq<byte>>, b: seq<seq<byte>>, s: Split)
    ensures Before(a, Before(b, s)) == Before(a + b, s)
    ensures Before([], s) == s
  {
    assert a + (b + s.lines) == a + b + s.lines && [] + s.lines == s.lines;
  }

  /** One line at the front. */
  lemma FirstLine(line: seq<byte>, more: seq<byte>)
    requires FindLf(line).None?
    ensures Lines(line + [LF] + more) == Before([line + [LF]], Lines(more))
  {
    var s := line + [LF] + more;
    assert s[|line|] == LF && forall i :: 0 <= i < |line| ==> s[i] == line[i];
    assert FindLf(s) == Some(|line|);
    assert s[..|line| + 1] == line + [LF] && s[|line| + 1..] == more;
  }

  /** A stream that holds a line feed is a line, a line feed and the rest. */
  lemma CutLine(s: seq<byte>) returns (line: seq<byte>, more: seq<byte>)
    requires FindLf(s).Some?
    ensures s == line + [LF] + more && FindLf(line).None? && |line| == FindLf(s).value
  {
    var i := FindLf(s).value;
    line, more := s[..i], s[i + 1..];
    assert forall k :: 0 <= k < |line| ==> line[k] == s[k];
  }

  /** Splitting what is left over together with what comes next loses and invents nothing. */
  lemma {:induction false} LinesContinue(s: seq<byte>, t: seq<byte>)
    ensures Lines(s + t) == Before(Lines(s).lines, Lines(Lines(s).rest + t))
    decreases |s|
  {
    if FindLf(s).Some? {
      hide Lines;
      var line, more := CutLine(s);
      assert s + t == line + [LF] + (more + t);
      FirstLine(line, more);
      FirstLine(line, more + t);
      LinesContinue(more, t);
      BeforeTwice([line + [LF]], Lines(more).lines, Lines(Lines(more).rest + t));
    } else {
      BeforeTwice([], [], Lines(s + t));
    }
  }

  lemma {:induction false} RestHoldsNoLine(s: seq<byte>)
    ensures FindLf(Lines(s).rest).None?
    decreases |s|
  {
    if FindLf(s).Some? { RestHoldsNoLine(s[FindLf(s).value + 1..]); }
  }

  // ---------------------------------------------------------------- any way of cutting the body

  /** `LineSplitter::push` on raw lines: None when what is left over exceeds the limit. */
  function PushLines(limit: nat, buf: seq<byte>, bytes: seq<byte>): Option<Split> {
    var s := Lines(buf + bytes);
    if |s.rest| > limit then None else Some(s)
  }

  function FeedLines(limit: nat, buf: seq<byte>, pieces: seq<seq<byte>>): Option<Split>
    decreases |pieces|
  {
    if pieces == [] then Some(Split([], buf))
    else match PushLines(limit, buf, pieces[0])
      case None => None
      case Some(s) =>
        match FeedLines(limit, s.rest, pieces[1..])
        case None => None
        case Some(more) => Some(Before(s.lines, more))
  }

  /** No line, finished or not, is longer than the limit, line feeds not counted. */
  predicate ShortSegments(limit: nat, s: seq<byte>)
    decreases |s|
  {
    match FindLf(s)
    case None => |s| <= limit
    case Some(i) => i <= limit && ShortSegments(limit, s[i + 1..])
  }

  lemma {:induction false} PrefixRestShort(limit: nat, s: seq<byte>, p: seq<byte>)
    requires ShortSegments(limit, s) && p <= s
    ensures |Lines(p).rest| <= limit
    decreases |s|
  {
    if FindLf(p).Some? {
      var line, more := CutLine(p);
      FirstLine(line, more);
      assert s[|line|] == LF && forall i :: 0 <= i < |line| ==> s[i] == line[i];
      assert FindLf(s) == Some(|line|);
      assert more <= s[|line| + 1..];
      PrefixRestShort(limit, s[|line| + 1..], more);
    } else if FindLf(s).Some? {
      assert |p| <= FindLf(s).value by {
        assert forall i :: 0 <= i < |p| ==> s[i] == p[i];
      }
    }
  }

  lemma {:induction false} FeedLinesIsLines(limit: nat, buf: seq<byte>, pieces: seq<seq<byte>>)
    requires FindLf(buf).None?
    requires forall p :: p <= Concat(pieces) ==> |Lines(buf + p).rest| <= limit
    ensures FeedLines(limit, buf, pieces) == Some(Lines(buf + Concat(pieces)))
    decreases |pieces|
  {
    hide Lines;
    if pieces == [] {
      assert buf + [] == buf;
      assert Lines(buf) == Split([], buf) by { NoLines(buf); }
    } else {
      var p, more := pieces[0], Concat(pieces[1..]);
      var s := Lines(buf + p);
      assert p <= Concat(pieces);
      RestHoldsNoLine(buf + p);
      forall q | q <= more ensures |Lines(s.rest + q).rest| <= limit {
        assert p + q <= Concat(pieces);
        LinesThen(buf, p, q);
      }
      FeedLinesIsLines(limit, s.rest, pieces[1..]);
      LinesThen(buf, p, more);
    }
  }

  lemma NoLines(s: seq<byte>)
    requires FindLf(s).None?
    ensures Lines(s) == Split([], s)
  {}

  lemma LinesThen(buf: seq<byte>, p: seq<byte>, q: seq<byte>)
    ensures Lines(buf + (p + q)) == Before(Lines(buf + p).lines, Lines(Lines(buf + p).rest + q))
  {
    assert buf + (p + q) == buf + p + q;
    LinesContinue(buf + p, q);
  }

  lemma {:induction false} LongSegmentPrefix(limit: nat, s: seq<byte>) returns (p: seq<byte>)
    requires !ShortSegments(limit, s)
    ensures p <= s && PushLines(limit, [], p).None?
    decreases |s|
  {
    if FindLf(s).None? {
      p := s;
      assert [] + s == s;
    } else {
      var line, more := CutLine(s);
      if |line| > limit {
        p := line;
        assert [] + p == p;
      } else {
        assert s[|line| + 1..] == more;
        var q := LongSegmentPrefix(limit, more);
        p := line + [LF] + q;
        assert [] + p == p && [] + q == q;
        FirstLine(line, q);
      }
    }
  }

  ghost predicate SplitsLike(limit: nat, body: seq<byte>, pieces: seq<seq<byte>>) {
    FeedLines(limit, [], pieces) == Some(Lines(body))
  }

  /** A body gives the same lines however it is cut up exactly when no line of it exceeds the limit. */
  lemma LinesSplitIndependentIff(limit: nat, body: seq<byte>)
    ensures ShortSegments(limit, body) <==>
            forall pieces: seq<seq<byte>> :: Concat(pieces) == body ==> SplitsLike(limit, body, pieces)
  {
    if ShortSegments(limit, body) {
      forall pieces: seq<seq<byte>> | Concat(pieces) == body ensures SplitsLike(limit, body, pieces) {
        LinesSplitIndependent(limit, pieces);
      }
    } else {
      var p := LongSegmentPrefix(limit, body);
      var pieces: seq<seq<byte>> := [p, body[|p|..]];
      assert pieces[1..] == [body[|p|..]] && |pieces[1..][1..]| == 0;
      assert Concat(pieces[1..]) == body[|p|..] + Concat([]);
      assert !SplitsLike(limit, body, pieces);
    }
  }

  lemma LinesSplitIndependent(limit: nat, pieces: seq<seq<byte>>)
    requires ShortSegments(limit, Concat(pieces))
    ensures FeedLines(limit, [], pieces) == Some(Lines(Concat(pieces)))
  {
    forall p | p <= Concat(pieces) ensures |Lines([] + p).rest| <= limit {
      assert [] + p == p;
      PrefixRestShort(limit, Concat(pieces), p);
    }
    FeedLinesIsLines(limit, [], pieces);
    assert [] + Concat(pieces) == Concat(pieces);
  }

  // ---------------------------------------------------------------- the code, in place

  /** How a turn of the loop of `push` ends. */
  datatype Turn = Going | Stopping | Failing

  class ChunkedDecoder {
    var buf: seq<byte>
    var remaining: Option<nat>
    var done: bool

    function State(): C.Decoder
      reads this
    {
      C.Decoder(buf, remaining, done)
    }

    constructor ()
      ensures State() == C.FRESH
    {
      buf, remaining, done := [], None, false;
    }

    /** `push`; None is the error that abandons the response. */
    method Push(bytes: seq<byte>) returns (r: Option<seq<byte>>)
      modifies this
      ensures r.None? <==> C.Push(old(State()), bytes).Bad?
      ensures r.Some? ==> C.Push(old(State()), bytes) == C.Good(State(), r.value)
    {
      hide C.ParseSize, C.Run;
      ghost var start := C.Fed(State(), bytes);
      buf := buf + bytes;
      var out: seq<byte> := [];
      C.AfterNothing(C.Run(State()));
      while true
        invariant C.Run(start) == C.After(out, C.Run(State()))
        decreases |buf|, if remaining.None? then 1 else 0
      {
        var turn, data := Stopping, [];
        if remaining.None? { turn := TakeLine(); } else { turn, data := TakeData(remaining.value); }
        C.AfterTwice(out, data, C.Run(State()));
        out := out + data;
        if turn == Failing { return None; }
        if turn == Stopping { return Some(out); }
      }
    }

    /** A turn of the loop that looks for a size line. */
    method TakeLine() returns (turn: Turn)
      requires remaining.None?
      modifies this
      ensures turn == Going ==> C.Run(old(State())) == C.After([], C.Run(State())) && |buf| < |old(buf)|
      ensures turn == Stopping ==> C.Run(old(State())) == C.Good(State(), []) && !C.Overlong(State())
      ensures turn == Failing ==> C.Run(old(State())).Bad? || (C.Run(old(State())) == C.Good(State(), []) && C.Overlong(State()))
    {
      hide C.ParseSize, C.Run;
      if done {
        C.RunDone(buf);
        buf := [];
        return Stopping;
      }
      var eol := FindCrLf();
      if eol.None? {
        C.RunNoLine(buf);
        return if |buf| > 64 then Failing else Stopping;
      }
      var line, more := buf[..eol.value], buf[eol.value + 2..];
      C.CutLine(buf, eol.value, []);
      C.RunLine(line, more);
      var size := C.ParseSize(line);
      if size.None? { return Failing; }
      buf := more;
      if size.value == 0 { done := true; } else { remaining := size; }
      C.AfterNothing(C.Run(State()));
      turn := Going;
    }

    /** A turn of the loop inside a chunk, of which `n` bytes are still to come. */
    method TakeData(n: nat) returns (turn: Turn, data: seq<byte>)
      requires remaining == Some(n)
      modifies this
      ensures turn == Going ==> C.Run(old(State())) == C.After(data, C.Run(State())) && |buf| < |old(buf)|
      ensures turn == Stopping ==> C.Run(old(State())) == C.Good(State(), data) && !C.Overlong(State())
      ensures turn == Failing ==> C.Run(old(State())).Bad?
    {
      hide C.ParseSize, C.Run;
      ghost var b := buf;
      var take := if n < |buf| then n else |buf|;
      data, buf := buf[..take], buf[take..];
      assert b == data + buf;
      var left := n - take;
      if left > 0 {
        C.RunShort(b, n, done);
        remaining := Some(left);
        return Stopping, data;
      }
      if |buf| < 2 {
        C.RunTail(data, buf, done);
        remaining := Some(0);
        return Stopping, data;
      }
      if buf[..2] != C.CrLf() {
        C.RunBadEnd(data, buf, done);
        return Failing, data;
      }
      assert b == data + C.CrLf() + buf[2..];
      C.RunData(data, buf[2..], done);
      buf, remaining := buf[2..], None;
      turn := Going;
    }

    /** `find_crlf`. */
    method FindCrLf() returns (r: Option<nat>)
      ensures r == C.FindCrLf(buf)
    {
      var i := 0;
      while i + 2 <= |buf|
        invariant forall k :: 0 <= k < i && k + 2 <= |buf| ==> !(buf[k] == C.CR && buf[k + 1] == C.LF)
      {
        if buf[i] == C.CR && buf[i + 1] == C.LF { return Some(i); }
        i := i + 1;
      }
      r := None;
    }
  }

  /** Turns the bytes of a line into trimmed text; the standard library's lossy UTF-8 conversion and `trim`. */
  type Texter = seq<byte> -> string

  /** The lines worth handing on: those with anything in them. */
  function Texts(text: Texter, lines: seq<seq<byte>>): seq<string> {
    if lines == [] then []
    else (if text(lines[0]) == "" then [] else [text(lines[0])]) + Texts(text, lines[1..])
  }

  lemma {:induction false} TextsAppend(text: Texter, a: seq<seq<byte>>, b: seq<seq<byte>>)
    ensures Texts(text, a + b) == Texts(text, a) + Texts(text, b)
  {
    if a == [] {
      assert a + b == b;
    } else {
      assert (a + b)[1..] == a[1..] + b;
      TextsAppend(text, a[1..], b);
    }
  }

  class LineSplitter {
    var buf: seq<byte>
    const limit: nat
    const text: Texter

    constructor (limit: nat, text: Texter)
      ensures this.limit == limit && this.text == text && buf == []
    {
      this.limit, this.text, buf := limit, text, [];
    }

    /** `push`; None when the unfinished line exceeds the limit. */
    method Push(bytes: seq<byte>) returns (r: Option<seq<string>>)
      modifies this
      ensures r == match PushLines(limit, old(buf), bytes)
                   case None => None
                   case Some(s) => Some(Texts(text, s.lines))
      ensures buf == Lines(old(buf) + bytes).rest
      ensures r.Some? ==> Chosen(text, Lines(old(buf) + bytes).lines, r.value)
    {
      hide Lines;
      ghost var start := buf + bytes;
      buf := buf + bytes;
      var lines: seq<string> := [];
      ghost var raw: seq<seq<byte>> := [];
      BeforeTwice([], [], Lines(buf));
      while true
        invariant Lines(start) == Before(raw, Lines(buf)) && lines == Texts(text, raw)
        decreases |buf|
      {
        var pos := Position();
        if pos.None? { break; }
        var line := buf[..pos.value + 1];
        ghost var front, more := CutLine(buf);
        assert line == front + [LF] && buf[pos.value + 1..] == more;
        FirstLine(front, more);
        BeforeTwice(raw, [line], Lines(more));
        TextsAppend(text, raw, [line]);
        raw := raw + [line];
        buf := buf[pos.value + 1..];
        var t := text(line);
        if t != "" { lines := lines + [t]; }
      }
      NoLines(buf);
      assert raw + [] == raw;
      if |buf| > limit { return None; }
      r := Some(lines);
      TextsChosen(text, raw);
    }

    method Position() returns (r: Option<nat>)
      ensures r == FindLf(buf)
    {
      var i := 0;
      while i < |buf|
        invariant 0 <= i <= |buf| && forall k :: 0 <= k < i ==> buf[k] != LF
      {
        if buf[i] == LF { return Some(i); }
        i := i + 1;
      }
      r := None;
    }

    /** `flush`: an unfinished last line is a line too. */
    method Flush() returns (r: Option<string>)
      modifies this
      ensures buf == [] && r == (if text(old(buf)) == "" then None else Some(text(old(buf))))
    {
      var t := text(buf);
      buf := [];
      r := if t == "" then None else Some(t);
    }
  }

  // ---------------------------------------------------------------- which lines are handed on

  /** Indices of lines, in order, that hit exactly those with text in them; `out` is what stands there. */
  ghost predicate Picks(text: Texter, lines: seq<seq<byte>>, out: seq<string>, ks: seq<nat>) {
    && |ks| == |out|
    && (forall i, j :: 0 <= i < j < |ks| ==> ks[i] < ks[j])
    && (forall k :: 0 <= k < |ks| ==> ks[k] < |lines| && out[k] == text(lines[ks[k]]))
    && (forall i :: 0 <= i < |lines| ==> (i in ks <==> text(lines[i]) != ""))
  }

  /** The lines handed on are the texts of the lines that are not blank, in order. */
  ghost predicate Chosen(text: Texter, lines: seq<seq<byte>>, out: seq<string>) {
    exists ks :: Picks(text, lines, out, ks)
  }

  lemma {:induction false} TextsChosen(text: Texter, lines: seq<seq<byte>>)
    ensures Chosen(text, lines, Texts(text, lines))
  {
    var ks := TextsPicks(text, lines);
  }

  lemma {:induction false} TextsPicks(text: Texter, lines: seq<seq<byte>>) returns (ks: seq<nat>)
    ensures Picks(text, lines, Texts(text, lines), ks)
    decreases |lines|
  {
    hide Picks, Texts;
    if lines == [] {
      ks := [];
      NothingPicked(text);
    } else {
      var n := |lines| - 1;
      var more := TextsPicks(text, lines[..n]);
      assert lines == lines[..n] + [lines[n]];
      TextsAppend(text, lines[..n], [lines[n]]);
      TextsOfOne(text, lines[n]);
      ks := if text(lines[n]) != "" then more + [n] else more;
      PicksSnoc(text, lines[..n], Texts(text, lines[..n]), more, lines[n]);
      assert Texts(text, lines[..n]) + [] == Texts(text, lines[..n]);
    }
  }

  lemma NothingPicked(text: Texter)
    ensures Picks(text, [], Texts(text, []), [])
  {}

  lemma TextsOfOne(text: Texter, line: seq<byte>)
    ensures Texts(text, [line]) == if text(line) != "" then [text(line)] else []
  {
    assert [line][1..] == [];
  }

  lemma PicksSnoc(text: Texter, lines: seq<seq<byte>>, out: seq<string>, ks: seq<nat>, line: seq<byte>)
    requires Picks(text, lines, out, ks)
    ensures if text(line) != "" then Picks(text, lines + [line], out + [text(line)], ks + [|lines|])
            else Picks(text, lines + [line], out, ks)
  {
    var all, n := lines + [line], |lines|;
    assert all[n] == line && forall i :: 0 <= i < n ==> all[i] == lines[i];
    StillPicks(text, lines, out, ks, line);
    if text(line) != "" {
      var ks', out' := ks + [n], out + [text(line)];
      forall k | 0 <= k < |ks'| ensures ks'[k] < |all| && out'[k] == text(all[ks'[k]]) {
        if k < |ks| { assert ks'[k] == ks[k] && out'[k] == out[k]; }
      }
      forall i | 0 <= i < |all| ensures i in ks' <==> text(all[i]) != "" {
        if i < n { assert i in ks' <==> i in ks; }
      }
    }
  }

  /** A blank line more changes nothing, and no line more is hit by what there was. */
  lemma StillPicks(text: Texter, lines: seq<seq<byte>>, out: seq<string>, ks: seq<nat>, line: seq<byte>)
    requires Picks(text, lines, out, ks)
    ensures |lines| !in ks && (text(line) == "" ==> Picks(text, lines + [line], out, ks))
  {
    var all, n := lines + [line], |lines|;
    assert all[n] == line && forall i :: 0 <= i < n ==> all[i] == lines[i];
    assert forall k :: 0 <= k < |ks| ==> ks[k] < n;
  }

  /** Where every line has text in it, there is one to each. */
  lemma AllChosen(text: Texter, lines: seq<seq<byte>>, out: seq<string>)
    requires Chosen(text, lines, out) && forall i :: 0 <= i < |lines| ==> text(lines[i]) != ""
    ensures |out| == |lines| && forall i :: 0 <= i < |lines| ==> out[i] == text(lines[i])
  {
    var ks :| Picks(text, lines, out, ks);
    RisingAll(ks, |lines|);
  }

  /** A rising choice of all the numbers below `n`. */
  lemma {:induction false} RisingAll(ks: seq<nat>, n: nat)
    requires forall i, j :: 0 <= i < j < |ks| ==> ks[i] < ks[j]
    requires forall i :: 0 <= i < |ks| ==> ks[i] < n
    requires forall i :: 0 <= i < n ==> i in ks
    ensures |ks| == n && forall i :: 0 <= i < n ==> ks[i] == i
    decreases n
  {
    assert |ks| > 0 ==> ks[0] < n;
    if n > 0 {
      assert n - 1 in ks;
      var at :| 0 <= at < |ks| && ks[at] == n - 1;
      var m := |ks| - 1;
      assert ks[m] < n;
      var front := ks[..m];
      forall i: nat | i < n - 1 ensures i in front {
        assert i in ks;
        var j :| 0 <= j < |ks| && ks[j] == i;
        assert front[j] == i;
      }
      RisingAll(front, n - 1);
      assert forall i :: 0 <= i < n - 1 ==> ks[i] == front[i];
    }
  }

  /** A line with its line feed, and no other. */
  predicate OneLine(line: seq<byte>) {
    line != [] && line[|line| - 1] == LF && LF !in line[..|line| - 1]
  }

  /** The lines of a stream, put back together, are the stream; each ends at its only line feed. */
  lemma {:induction false} LinesAre(s: seq<byte>)
    ensures var p := Lines(s);
            Concat(p.lines) + p.rest == s && LF !in p.rest && forall i :: 0 <= i < |p.lines| ==> OneLine(p.lines[i])
    decreases |s|
  {
    hide Lines, OneLine;
    if FindLf(s).Some? {
      var line, more := CutLine(s);
      FirstLine(line, more);
      LinesAre(more);
      IsOneLine(line);
      ConcatCons(line + [LF], Lines(more).lines);
      assert line + [LF] + Concat(Lines(more).lines) + Lines(more).rest == line + [LF] + (Concat(Lines(more).lines) + Lines(more).rest);
    } else {
      NoLines(s);
      assert Concat<byte>([]) + s == s;
    }
  }

  lemma IsOneLine(line: seq<byte>)
    requires FindLf(line).None?
    ensures OneLine(line + [LF])
  {
    assert (line + [LF])[..|line|] == line;
  }

  lemma ConcatCons(first: seq<byte>, more: seq<seq<byte>>)
    ensures Concat([first] + more) == first + Concat(more)
  {
    assert ([first] + more)[1..] == more;
  }

  // ---------------------------------------------------------------- the two together

  /** `feed` on every piece of a chunked response, then `flush`: the lines handed on, or None on an error. */
  function Response(limit: nat, text: Texter, pieces: seq<seq<byte>>): Option<seq<string>> {
    match C.Feed(C.FRESH, pieces)
    case Failed => None
    case Finished(_, outs) =>
      match FeedLines(limit, [], outs)
      case None => None
      case Some(s) => Some(Texts(text, s.lines) + Texts(text, [s.rest]))
  }

  /** The lines of a body, the last of them finished or not. */
  function BodyLines(text: Texter, body: seq<byte>): seq<string> {
    Texts(text, Lines(body).lines) + Texts(text, [Lines(body).rest])
  }

  /** Whatever the chunk sizes and the network do, the lines handed on are those of the body. */
  lemma ResponseIsBodyLines(limit: nat, text: Texter, c: C.Coded, pieces: seq<seq<byte>>)
    requires C.ValidCoding(c) && C.ShortLines(c) && ShortSegments(limit, C.Body(c))
    requires Concat(pieces) == C.Coding(c)
    ensures Response(limit, text, pieces) == Some(BodyLines(text, C.Body(c)))
    ensures var s := Lines(C.Body(c)); Chosen(text, s.lines + [s.rest], BodyLines(text, C.Body(c)))
  {
    C.SplitIndependent(c, pieces);
    LinesSplitIndependent(limit, C.Feed(C.FRESH, pieces).outs);
    var s := Lines(C.Body(c));
    TextsAppend(text, s.lines, [s.rest]);
    TextsChosen(text, s.lines + [s.rest]);
  }

  /** Lines, each with its line feed. */
  function Ended(lines: seq<seq<byte>>): seq<seq<byte>> {
    seq(|lines|, i requires 0 <= i < |lines| => lines[i] + [LF])
  }

  lemma {:induction false} EndedLines(lines: seq<seq<byte>>)
    requires forall i :: 0 <= i < |lines| ==> LF !in lines[i]
    ensures Lines(Concat(Ended(lines))) == Split(Ended(lines), [])
    decreases |lines|
  {
    hide Lines;
    if lines == [] {
      NoLines([]);
    } else {
      var line, more := lines[0], Concat(Ended(lines[1..]));
      assert Ended(lines)[1..] == Ended(lines[1..]) && Ended(lines)[0] == line + [LF];
      assert FindLf(line).None?;
      FirstLine(line, more);
      EndedLines(lines[1..]);
      assert [line + [LF]] + Ended(lines[1..]) == Ended(lines);
    }
  }

  /** Lines with text in them, coded in any chunks and cut by the network in any way, are handed on one for one. */
  lemma EveryLineArrives(limit: nat, text: Texter, lines: seq<seq<byte>>, c: C.Coded, pieces: seq<seq<byte>>)
    requires C.ValidCoding(c) && C.ShortLines(c) && Concat(pieces) == C.Coding(c)
    requires C.Body(c) == Concat(Ended(lines)) && ShortSegments(limit, C.Body(c)) && text([]) == ""
    requires forall i :: 0 <= i < |lines| ==> LF !in lines[i] && text(lines[i] + [LF]) != ""
    ensures var r := Response(limit, text, pieces);
            && r.Some? && |r.value| == |lines|
            && forall i :: 0 <= i < |lines| ==> r.value[i] == text(lines[i] + [LF])
  {
    hide Lines, Texts, Response, C.ValidCoding, C.ShortLines, C.Coding, C.Body, ShortSegments;
    ResponseIsBodyLines(limit, text, c, pieces);
    EndedLines(lines);
    TextsChosen(text, Ended(lines));
    AllChosen(text, Ended(lines), Texts(text, Ended(lines)));
    NothingOfNothing(text);
    var r := Response(limit, text, pieces).value;
    assert r == Texts(text, Ended(lines)) + [];
  }

  lemma NothingOfNothing(text: Texter)
    requires text([]) == ""
    ensures Texts(text, [[]]) == []
  {
    TextsOfOne(text, []);
  }
}
