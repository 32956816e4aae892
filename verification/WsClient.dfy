/** `nev_ws_poll`: whatever the sizes of the reads, the messages are those of the byte stream. */
module WsClient {
  import opened Basics
  import opened Endian
  import opened WebSocket

  // ---------------------------------------------------------------- the stream, all at once

  datatype Why = TooLarge | BadFrame | PeerClosed | TextFrame | UnknownOpcode

  /** What is left after the messages: bytes of an unfinished frame, or a stream that is over. */
  datatype Outcome = Open(rest: seq<byte>) | Closed(why: Why)

  datatype Message = Message(op: nat, payload: seq<byte>)

  /** The frames that do not end the connection, in order, and what comes after them. */
  datatype Parsed = Parsed(frames: seq<Message>, outcome: Outcome)

  predicate Continues(op: nat) { op == OP_BIN || op == OP_PING || op == OP_PONG }

  /** A frame has to be complete within the receive buffer. */
  function Window(cap: nat, s: seq<byte>): seq<byte> {
    if |s| < cap then s else s[..cap]
  }

  /** The simple parser: frames one after the other, until one ends the connection. */
  function Parse(cap: nat, s: seq<byte>): Parsed
    requires cap < Pow256(8)
    decreases |s|
  {
    match FrameRead(cap, Window(cap, s))
    case NeedMore => if |s| >= cap then Parsed([], Closed(TooLarge)) else Parsed([], Open(s))
    case Malformed => Parsed([], Closed(BadFrame))
    case Frame(op, at, n) =>
      OnlyServerFramesRead(cap, Window(cap, s));
      if Continues(op) then
        var p := Parse(cap, s[at + n..]);
        p.(frames := [Message(op, s[at..at + n])] + p.frames)
      else Parsed([], Closed(Ending(op)))
  }

  /** A complete frame that does not end the connection, taken off the front of a stream. */
  lemma ParseFrame(cap: nat, f: seq<byte>, op: nat, at: nat, n: nat, more: seq<byte>)
    requires cap < Pow256(8) && |f| == at + n && 2 <= at && |f| <= cap
    requires FrameRead(cap, f) == Frame(op, at, n) && Continues(op)
    ensures var q := Parse(cap, more);
            Parse(cap, f + more) == q.(frames := [Message(op, f[at..])] + q.frames)
  {
    hide FrameRead, ServerFrame;
    var s := f + more;
    assert f <= Window(cap, s);
    FrameReadGrows(cap, f, Window(cap, s));
    assert s[at + n..] == more && s[at..at + n] == f[at..];
  }

  /** A stream whose front is not such a frame. */
  lemma ParseEnds(cap: nat, s: seq<byte>)
    requires cap < Pow256(8)
    requires var r := FrameRead(cap, Window(cap, s)); !(r.Frame? && Continues(r.opcode))
    ensures var p, r := Parse(cap, s), FrameRead(cap, Window(cap, s));
            && p.frames == []
            && (r.NeedMore? && |s| < cap ==> p.outcome == Open(s))
            && (r.NeedMore? && |s| >= cap ==> p.outcome == Closed(TooLarge))
            && (r.Malformed? ==> p.outcome == Closed(BadFrame))
            && (r.Frame? ==> p.outcome == Closed(Ending(r.opcode)))
  {}

  /** Why the client gives up on a frame that is neither data, ping nor pong. */
  function Ending(op: nat): Why {
    if op == OP_CLOSE then PeerClosed else if op == OP_TEXT then TextFrame else UnknownOpcode
  }

  /** A frame that is read at all can be cut off exactly. */
  lemma CutFrame(cap: nat, s: seq<byte>)
    requires cap < Pow256(8) && FrameRead(cap, Window(cap, s)).Frame?
    ensures var Frame(op, at, n) := FrameRead(cap, Window(cap, s));
            && 2 <= at && at + n <= |s| && at + n <= cap
            && FrameRead(cap, s[..at + n]) == Frame(op, at, n)
  {
    var w := Window(cap, s);
    var Frame(op, at, n) := FrameRead(cap, w);
    OnlyServerFramesRead(cap, w);
    var f := s[..at + n];
    assert w[..at + n] == f;
    ReadsServerFrame(cap, op, w[at..at + n], []);
    assert f + [] == f;
    FrameReadGrows(cap, f, w);
  }

  /** A stream that has ended badly stays so; an open one is continued from its unfinished frame. */
  lemma {:induction false} ParseContinues(cap: nat, s: seq<byte>, t: seq<byte>)
    requires cap < Pow256(8)
    ensures var p := Parse(cap, s);
            Parse(cap, s + t) ==
            match p.outcome
            case Closed(_) => p
            case Open(rest) => var q := Parse(cap, rest + t); q.(frames := p.frames + q.frames)
    decreases |s|
  {
    hide FrameRead, ServerFrame, Parse, Window;
    WindowGrows(cap, s, t);
    var w := Window(cap, s);
    var r := FrameRead(cap, w);
    if r.Frame? && Continues(r.opcode) {
      CutFrame(cap, s);
      var f, more := s[..r.at + r.len], s[r.at + r.len..];
      assert s == f + more && s + t == f + (more + t);
      ParseFrame(cap, f, r.opcode, r.at, r.len, more);
      ParseFrame(cap, f, r.opcode, r.at, r.len, more + t);
      ParseContinues(cap, more, t);
    } else {
      ParseEnds(cap, s);
      if !r.NeedMore? { FrameReadGrows(cap, w, Window(cap, s + t)); }
      if !r.NeedMore? || |s| >= cap { ParseEnds(cap, s + t); }
    }
  }

  lemma WindowGrows(cap: nat, s: seq<byte>, t: seq<byte>)
    ensures Window(cap, s) <= Window(cap, s + t)
    ensures |s| >= cap ==> Window(cap, s + t) == Window(cap, s)
  {}

  /** What is left over is always less than a buffer, and holds no complete frame. */
  lemma {:induction false} RestIsIncomplete(cap: nat, s: seq<byte>)
    requires cap < Pow256(8) && Parse(cap, s).outcome.Open?
    ensures var rest := Parse(cap, s).outcome.rest;
            |rest| < cap && |rest| <= |s| && rest == s[|s| - |rest|..] && FrameRead(cap, rest) == NeedMore
    decreases |s|
  {
    hide FrameRead, ServerFrame, Parse;
    var r := FrameRead(cap, Window(cap, s));
    if r.Frame? && Continues(r.opcode) {
      CutFrame(cap, s);
      var f, more := s[..r.at + r.len], s[r.at + r.len..];
      assert s == f + more;
      ParseFrame(cap, f, r.opcode, r.at, r.len, more);
      RestIsIncomplete(cap, more);
    } else {
      ParseEnds(cap, s);
    }
  }

  /** Frames a daemon may send: data, pings and pongs, each small enough for the buffer. */
  predicate Fits(cap: nat, m: Message) {
    m.op in {2, 9, 10} && |m.payload| < Pow256(8) && |ServerFrame(m.op, m.payload)| <= cap
  }

  function Stream(cap: nat, ms: seq<Message>): seq<byte>
    requires forall i :: 0 <= i < |ms| ==> Fits(cap, ms[i])
  {
    if ms == [] then [] else
      assert Fits(cap, ms[0]);
      ServerFrame(ms[0].op, ms[0].payload) + Stream(cap, ms[1..])
  }

  lemma OneMessage(cap: nat, m: Message, more: seq<byte>)
    requires cap < Pow256(8) && Fits(cap, m)
    ensures var q := Parse(cap, more);
            Parse(cap, ServerFrame(m.op, m.payload) + more)
            == q.(frames := [m] + q.frames)
  {
    hide FrameRead, Parse;
    var f := ServerFrame(m.op, m.payload);
    ReadsServerFrame(cap, m.op, m.payload, []);
    assert f + [] == f;
    ParseFrame(cap, f, m.op, |f| - |m.payload|, |m.payload|, more);
  }

  /** The stream of any such frames parses to these frames, in order, with nothing left over. */
  lemma {:induction false} StreamParses(cap: nat, ms: seq<Message>, tail: seq<byte>)
    requires 0 < cap < Pow256(8) && forall i :: 0 <= i < |ms| ==> Fits(cap, ms[i])
    ensures var q := Parse(cap, tail);
            Parse(cap, Stream(cap, ms) + tail) == q.(frames := ms + q.frames)
  {
    hide FrameRead, ServerFrame, Parse;
    if ms == [] {
      assert Stream(cap, ms) + tail == tail;
      assert [] + Parse(cap, tail).frames == Parse(cap, tail).frames;
    } else {
      var m, more := ms[0], Stream(cap, ms[1..]) + tail;
      assert Fits(cap, m);
      assert Stream(cap, ms) + tail == ServerFrame(m.op, m.payload) + more;
      OneMessage(cap, m, more);
      StreamParses(cap, ms[1..], tail);
      assert ms + Parse(cap, tail).frames == [m] + (ms[1..] + Parse(cap, tail).frames);
    }
  }

  /** An unfinished frame at the end of a stream is waited for, never an error. */
  lemma CutStreamWaits(cap: nat, ms: seq<Message>, m: Message, n: nat)
    requires 0 < cap < Pow256(8) && (forall i :: 0 <= i < |ms| ==> Fits(cap, ms[i]))
    requires Fits(cap, m) && n < |ServerFrame(m.op, m.payload)|
    ensures Parse(cap, Stream(cap, ms) + ServerFrame(m.op, m.payload)[..n])
            == Parsed(ms, Open(ServerFrame(m.op, m.payload)[..n]))
  {
    var tail := ServerFrame(m.op, m.payload)[..n];
    FrameLayout(m.op, m.payload);
    PrefixNeedsMore(cap, m.op, m.payload, n);
    StreamParses(cap, ms, tail);
    assert ms + [] == ms;
  }

  /** A client that has read a whole stream and waits has passed its frames, in order. */
  lemma WaitingMeansAllPassed(cap: nat, ms: seq<Message>, passed: seq<Message>, rest: seq<byte>)
    requires 0 < cap < Pow256(8) && forall i :: 0 <= i < |ms| ==> Fits(cap, ms[i])
    requires Parse(cap, Stream(cap, ms)) == Parsed(passed, Open(rest))
    ensures passed == ms && rest == []
  {
    hide ServerFrame, Parse;
    ParseEnds(cap, []);
    StreamParses(cap, ms, []);
    assert Stream(cap, ms) + [] == Stream(cap, ms);
    assert ms + [] == ms;
  }

  /** Any other frame ends the connection, whatever stands behind it: a close, a text, or a kind unknown. */
  lemma OtherFrameEnds(cap: nat, ms: seq<Message>, op: nat, payload: seq<byte>, rest: seq<byte>)
    requires 2 <= cap < Pow256(8) && forall i :: 0 <= i < |ms| ==> Fits(cap, ms[i])
    requires op < 16 && op !in {2, 9, 10} && |payload| < Pow256(8) && |ServerFrame(op, payload)| <= cap
    ensures Parse(cap, Stream(cap, ms) + (ServerFrame(op, payload) + rest))
            == Parsed(ms, Closed(if op == 8 then PeerClosed else if op == 1 then TextFrame else UnknownOpcode))
  {
    hide ServerFrame, FrameRead, Parse;
    var f := ServerFrame(op, payload);
    FrameLayout(op, payload);
    ReadsServerFrame(cap, op, payload, []);
    assert f + [] == f && f <= Window(cap, f + rest);
    FrameReadGrows(cap, f, Window(cap, f + rest));
    ParseEnds(cap, f + rest);
    StreamParses(cap, ms, f + rest);
    assert ms + [] == ms;
  }

  lemma OversizeRefused(cap: nat, f: seq<byte>, w: seq<byte>, n: nat)
    requires 10 <= cap == |w| && w <= f && |f| > cap && f[0] / 128 == 1 && f[0] / 16 % 8 == 0
    requires |f| == n + (if n <= 125 then 2 else if n <= 0xFFFF then 4 else 10)
    requires f[1] == (if n <= 125 then n else if n <= 0xFFFF then 126 else 127)
    requires 125 < n <= 0xFFFF ==> BigEndian(f[2..4]) == n
    requires n > 0xFFFF ==> BigEndian(f[2..10]) == n
    ensures FrameRead(cap, w) == if n > cap then Malformed else NeedMore
  {
    hide BigEndian;
    assert w[2..4] == f[2..4] && w[2..10] == f[2..10];
  }

  /** So does a frame that the receive buffer cannot hold: at its length field, or when the buffer is full of it. */
  lemma OversizeFrameEnds(cap: nat, ms: seq<Message>, op: nat, payload: seq<byte>, rest: seq<byte>)
    requires 10 <= cap < Pow256(8) && forall i :: 0 <= i < |ms| ==> Fits(cap, ms[i])
    requires op < 16 && |payload| < Pow256(8) && |ServerFrame(op, payload)| > cap
    ensures Parse(cap, Stream(cap, ms) + (ServerFrame(op, payload) + rest))
            == Parsed(ms, Closed(if |payload| > cap then BadFrame else TooLarge))
  {
    hide ServerFrame, Parse, BigEndian, FrameRead;
    var f := ServerFrame(op, payload);
    FrameLayout(op, payload);
    var w := Window(cap, f + rest);
    assert w == f[..cap];
    OversizeRefused(cap, f, w, |payload|);
    ParseEnds(cap, f + rest);
    StreamParses(cap, ms, f + rest);
    assert ms + [] == ms;
  }

  /**
   * A peer that masks its frames, as a client's own frames reflected are, ends the connection: the messages
   * before are delivered, nothing of that frame or behind it is.
   */
  lemma ReflectedFrameEnds(cap: nat, ms: seq<Message>, op: nat, payload: seq<byte>, mask: seq<byte>, rest: seq<byte>)
    requires 2 <= cap < Pow256(8) && forall i :: 0 <= i < |ms| ==> Fits(cap, ms[i])
    requires op < 16 && |payload| < Pow256(8) && |mask| == 4
    ensures Parse(cap, Stream(cap, ms) + (ClientFrame(op, payload, mask) + rest)) == Parsed(ms, Closed(BadFrame))
  {
    hide ServerFrame, ClientFrame, FrameRead, Parse;
    var f := ClientFrame(op, payload, mask);
    ClientLayout(op, payload, mask);
    var w := Window(cap, f + rest);
    assert w[..2] == f[..2];
    ReflectedFrameRefused(cap, op, payload, mask, w);
    ParseEnds(cap, f + rest);
    StreamParses(cap, ms, f + rest);
    assert ms + [] == ms;
  }

  // ---------------------------------------------------------------- pings and their pongs

  /** The payloads of the pings among some frames. */
  function Pings(ms: seq<Message>): seq<seq<byte>> {
    if ms == [] then []
    else Pings(ms[..|ms| - 1]) + (if ms[|ms| - 1].op == OP_PING then [ms[|ms| - 1].payload] else [])
  }

  /** A ping passed: whether nothing was going out just then, and the mask for its pong. */
  datatype Ping = Ping(payload: seq<byte>, idle: bool, mask: seq<byte>)

  predicate Usable(p: Ping) { |p.payload| < Pow256(8) && |p.mask| == 4 }

  /** Its pong goes out: nothing else is going out, and it fits. */
  predicate Answered(p: Ping, cap: nat)
    requires Usable(p)
  {
    p.idle && |ClientFrame(OP_PONG, p.payload, p.mask)| <= cap
  }

  /** What the pings passed have queued, in an outbound buffer of `cap` bytes. */
  ghost function Pongs(log: seq<Ping>, cap: nat): seq<byte>
    requires forall i :: 0 <= i < |log| ==> Usable(log[i])
  {
    if log == [] then []
    else
      var p := log[|log| - 1];
      Pongs(log[..|log| - 1], cap) + (if Answered(p, cap) then ClientFrame(OP_PONG, p.payload, p.mask) else [])
  }

  /**
   * How the outbound buffer fares from ping to ping: idle at the first if it was at the start, still busy after
   * one that found it busy, and still idle after one whose pong did not fit.
   */
  ghost predicate Chained(log: seq<Ping>, start: bool, end: bool, cap: nat)
    requires forall i :: 0 <= i < |log| ==> Usable(log[i])
    decreases |log|
  {
    if log == [] then end == start
    else
      var p := log[|log| - 1];
      && Chained(log[..|log| - 1], start, p.idle, cap)
      && (!p.idle ==> !end)
      && (p.idle && !Answered(p, cap) ==> end)
  }

  /** `log` accounts for the pings among the frames `taken` and for what they queued. */
  ghost predicate Logged(taken: seq<Message>, log: seq<Ping>, queued: seq<byte>, queued': seq<byte>, start: bool, end: bool, cap: nat) {
    && (forall i :: 0 <= i < |log| ==> Usable(log[i]))
    && |log| == |Pings(taken)| && (forall i :: 0 <= i < |log| ==> log[i].payload == Pings(taken)[i])
    && queued' == queued + Pongs(log, cap)
    && Chained(log, start, end, cap)
  }

  lemma LogStarts(queued: seq<byte>, start: bool, cap: nat)
    ensures Logged([], [], queued, queued, start, start, cap)
  {
    assert queued + [] == queued;
  }

  lemma LogGrows(taken: seq<Message>, log: seq<Ping>, queued: seq<byte>, q1: seq<byte>, start: bool, end: bool, cap: nat,
                 p: Ping, q2: seq<byte>, end': bool)
    requires Logged(taken, log, queued, q1, start, end, cap) && Usable(p) && p.idle == end
    requires q2 == q1 + (if Answered(p, cap) then ClientFrame(OP_PONG, p.payload, p.mask) else [])
    requires (!p.idle ==> !end') && (p.idle && !Answered(p, cap) ==> end')
    ensures Logged(taken + [Message(OP_PING, p.payload)], log + [p], queued, q2, start, end', cap)
  {
    hide ClientFrame;
    var m := Message(OP_PING, p.payload);
    assert (taken + [m])[..|taken|] == taken && (log + [p])[..|log|] == log;
    assert queued + Pongs(log, cap) + (if Answered(p, cap) then ClientFrame(OP_PONG, p.payload, p.mask) else []) ==
           queued + (Pongs(log, cap) + (if Answered(p, cap) then ClientFrame(OP_PONG, p.payload, p.mask) else []));
  }

  lemma LogPasses(taken: seq<Message>, log: seq<Ping>, queued: seq<byte>, q1: seq<byte>, start: bool, end: bool, cap: nat, m: Message)
    requires Logged(taken, log, queued, q1, start, end, cap) && m.op != OP_PING
    ensures Logged(taken + [m], log, queued, q1, start, end, cap)
  {
    hide ClientFrame, Chained, Pongs;
    assert (taken + [m])[..|taken|] == taken;
    assert Pings(taken) + [] == Pings(taken);
  }

  /** The first ping of those is answered before anything else is queued, if nothing was going out and its pong fits. */
  lemma {:induction false} FirstPingAnswered(taken: seq<Message>, log: seq<Ping>, queued: seq<byte>, q1: seq<byte>, end: bool, cap: nat)
    requires Logged(taken, log, queued, q1, true, end, cap) && log != []
    ensures log[0].idle
    ensures Answered(log[0], cap) ==> queued + ClientFrame(OP_PONG, log[0].payload, log[0].mask) <= q1
  {
    hide ClientFrame;
    PongsFrom(log, true, end, cap);
  }

  lemma {:induction false} PongsFrom(log: seq<Ping>, start: bool, end: bool, cap: nat)
    requires forall i :: 0 <= i < |log| ==> Usable(log[i])
    requires log != [] && Chained(log, start, end, cap)
    ensures log[0].idle == start
    ensures Answered(log[0], cap) ==> ClientFrame(OP_PONG, log[0].payload, log[0].mask) <= Pongs(log, cap)
    decreases |log|
  {
    hide ClientFrame;
    var front := log[..|log| - 1];
    if front != [] {
      PongsFrom(front, start, log[|log| - 1].idle, cap);
    } else {
      assert Pongs([], cap) == [];
    }
  }

  // ---------------------------------------------------------------- the outbound buffer

  class Outbox {
    const tx: array<byte>
    var txLen: nat
    var txSent: nat
    /** Every byte ever queued, and every byte the socket has taken. */
    ghost var queued: seq<byte>
    ghost var wire: seq<byte>

    ghost predicate Valid()
      reads this, tx
    {
      txSent <= txLen <= tx.Length && wire + tx[txSent..txLen] == queued
    }

    constructor (cap: nat)
      ensures Valid() && fresh(tx) && tx.Length == cap && txLen == 0 && queued == wire == []
    {
      tx := new byte[cap](i => 0);
      txLen, txSent, queued, wire := 0, 0, [], [];
    }

    /** `flush_tx`: the socket takes as much as it likes of what is left, call after call. */
    method Flush() returns (alive: bool)
      requires Valid()
      modifies this
      ensures Valid() && queued == old(queued) && old(wire) <= wire
      ensures alive && txLen == 0 ==> wire == queued
      ensures txLen == 0 || txLen == old(txLen)
    {
      while txSent < txLen
        invariant Valid() && queued == old(queued) && old(wire) <= wire && txLen == old(txLen)
        decreases txLen - txSent
      {
        var n: int :| n <= txLen - txSent;
        if n < 0 { return false; }
        if n == 0 { return true; }
        wire := wire + tx[txSent..txSent + n];
        txSent := txSent + n;
      }
      txLen, txSent := 0, 0;
      alive := true;
    }

    /** Queues one masked frame; refused while an earlier one is still going out, or if it does not fit. */
    method Put(op: byte, payload: seq<byte>, mask: seq<byte>) returns (ok: bool)
      requires Valid() && op < 16 && |mask| == 4 && |payload| < Pow256(8)
      modifies this, tx
      ensures Valid() && wire == old(wire)
      ensures ok <==> old(txLen) == 0 && |ClientFrame(op, payload, mask)| <= tx.Length
      ensures !ok ==> txLen == old(txLen)
      ensures queued == old(queued) + (if ok then ClientFrame(op, payload, mask) else [])
    {
      hide ClientFrame;
      if txLen != 0 { return false; }
      ClientLayout(op, payload, mask);
      assert op % 16 == op && queued + [] == queued;
      var written := FrameWrite(tx, op, payload, mask);
      if written == 0 { return false; }
      txLen, txSent := written, 0;
      queued := queued + ClientFrame(op, payload, mask);
      assert tx[0..written] == tx[..written];
      ok := true;
    }
  }

  // ---------------------------------------------------------------- the client

  datatype Recv = Lost | Got(data: seq<byte>)

  datatype WsEvent = Nothing | Delivered(payload: seq<byte>) | Ended

  class Client {
    const rx: array<byte>
    var rxLen: nat
    /** Bytes of the message handed out last, dropped when the next poll comes. */
    var pendingConsume: nat
    var open: bool
    const out: Outbox

    /** Every byte the socket has handed over since the upgrade, and every frame taken off it. */
    ghost var received: seq<byte>
    ghost var passed: seq<Message>

    ghost const Repr: set<object> := {this, rx, out, out.tx}

    ghost predicate Formed()
      reads Repr
    {
      && 0 < rx.Length < Pow256(8) && rxLen <= rx.Length && pendingConsume <= rxLen
      && out.Valid() && rx != out.tx
    }

    /** The buffer holds the unconsumed end of the stream, and nothing parsed from it is lost. */
    ghost predicate InSync()
      requires Formed()
      reads Repr
    {
      && rxLen <= |received| && received[|received| - rxLen..] == rx[..rxLen]
      && Parse(rx.Length, received) == Ahead(passed, Parse(rx.Length, rx[pendingConsume..rxLen]))
    }

    ghost predicate Valid()
      reads Repr
    {
      Formed() && (open ==> InSync())
    }

    /** The connection as the upgrade leaves it: open, with whatever followed the response header. */
    constructor (cap: nat, out: Outbox, leftover: seq<byte>)
      requires 0 < cap < Pow256(8) && |leftover| <= cap && out.Valid()
      ensures Valid() && open && fresh(rx) && rx.Length == cap && this.out == out
      ensures received == leftover && passed == []
    {
      rx := new byte[cap](i => if 0 <= i < |leftover| then leftover[i] else 0);
      rxLen, pendingConsume, open := |leftover|, 0, true;
      this.out := out;
      received, passed := leftover, [];
      new;
      assert rx[0..rxLen] == leftover;
    }

    /** `memmove` of the buffer's tail to its front. */
    method Drop(n: nat)
      requires Formed() && n <= rxLen
      modifies this`rxLen, this`pendingConsume, rx
      ensures Formed() && rxLen == old(rxLen) - n && rx[..rxLen] == old(rx[n..rxLen])
      ensures pendingConsume == 0
    {
      forall i | 0 <= i < rxLen - n { rx[i] := rx[i + n]; }
      rxLen := rxLen - n;
      pendingConsume := 0;
    }

    /** The read of `nev_ws_poll`: at most as many bytes as there is room for. */
    method Append(data: seq<byte>)
      requires Formed() && rxLen + |data| <= rx.Length
      modifies this`rxLen, rx
      ensures Formed() && rxLen == old(rxLen) + |data| && rx[..rxLen] == old(rx[..rxLen]) + data
    {
      forall i | 0 <= i < |data| { rx[rxLen + i] := data[i]; }
      rxLen := rxLen + |data|;
    }

    /** `nev_ws_frame_read` on the receive buffer. */
    method ReadFrame() returns (r: ReadResult)
      requires Formed()
      ensures r == FrameRead(rx.Length, rx[..rxLen])
    {
      ghost var s := rx[..rxLen];
      if rxLen < 2 { return NeedMore; }
      var b0, b1 := rx[0], rx[1];
      if b0 / 16 % 8 != 0 || b0 / 128 == 0 || b1 / 128 != 0 { return Malformed; }
      var opcode, at, plen: nat := b0 % 16, 2, b1 % 128;
      if plen == 126 {
        if rxLen < 4 { return NeedMore; }
        BigEndian2(s[2..4]);
        plen, at := 256 * (rx[2] as int) + rx[3], 4;
        if plen <= 125 { return Malformed; }
      } else if plen == 127 {
        if rxLen < 10 { return NeedMore; }
        plen := ReadLong(s);
        at := 10;
        if plen <= 0xFFFF || plen > rx.Length { return Malformed; }
      }
      if plen > rx.Length { return Malformed; }
      if rxLen < at + plen { return NeedMore; }
      r := Frame(opcode, at, plen);
    }

    /** The eight-byte length, byte by byte. */
    method ReadLong(ghost s: seq<byte>) returns (n: nat)
      requires rx.Length >= |s| >= 10 && s == rx[..|s|]
      ensures n == BigEndian(s[2..10])
    {
      n := 0;
      var i := 0;
      while i < 8
        invariant 0 <= i <= 8 && n == BigEndian(s[2..2 + i])
      {
        BigEndianSnoc(s[2..2 + i], s[2 + i]);
        assert s[2..2 + i] + [s[2 + i]] == s[2..2 + (i + 1)];
        n := n * 256 + rx[2 + i];
        i := i + 1;
      }
    }

    /** The buffer after a frame that delivers nothing has been taken off it. */
    method Skip(r: ReadResult)
      requires Formed() && pendingConsume == 0 && InSync()
      requires r == FrameRead(rx.Length, rx[..rxLen]) && r.Frame? && (r.opcode == OP_PING || r.opcode == OP_PONG)
      modifies this`rxLen, this`pendingConsume, this`passed, rx
      ensures Formed() && pendingConsume == 0 && InSync() && rxLen < old(rxLen)
      ensures passed == old(passed) + [Message(r.opcode, old(rx[r.at..r.at + r.len]))]
    {
      hide FrameRead, Parse, Outbox.Valid, Ahead;
      var n := r.at + r.len;
      ghost var s := rx[..rxLen];
      assert rx[0..rxLen] == s;
      FramePassed(rx.Length, received, s, passed, r);
      TailOfTail(received, s, n);
      ghost var more, m := s[n..], Message(r.opcode, rx[r.at..n]);
      assert m.payload == s[r.at..n] && more == rx[n..rxLen];
      Drop(n);
      passed := passed + [m];
      assert rx[0..rxLen] == more;
    }

    /** `send_control` with a pong: queued exactly if nothing else is going out and it fits, else forgotten. */
    method SendPong(payload: seq<byte>) returns (ghost p: Ping)
      requires Formed() && |payload| < Pow256(8)
      modifies out, out.tx
      ensures out.Valid() && Usable(p) && p.payload == payload && p.idle == (old(out.txLen) == 0)
      ensures out.queued == old(out.queued) + (if Answered(p, out.tx.Length) then ClientFrame(OP_PONG, p.payload, p.mask) else [])
      ensures !p.idle || !Answered(p, out.tx.Length) ==> out.txLen == old(out.txLen)
    {
      hide ClientFrame;
      var a: byte, b: byte, c: byte, d: byte := *, *, *, *;
      var mask := [a, b, c, d];
      p := Ping(payload, out.txLen == 0, mask);
      var ok := out.Put(OP_PONG, payload, mask);
      if ok {
        var _ := out.Flush();
      }
    }

    /**
     * `nev_ws_send`: taken exactly when the connection is open, nothing is still going out, the frame fits and
     * the socket lives.  A frame taken is queued whole; a socket found dead ends the connection.
     */
    method Send(payload: seq<byte>) returns (ok: bool, ghost mask: seq<byte>, ghost dead: bool)
      requires Valid() && |payload| < Pow256(8)
      modifies this`open, out, out.tx
      ensures Valid() && |mask| == 4 && received == old(received) && passed == old(passed)
      ensures var room := old(open) && old(out.txLen) == 0 && |ClientFrame(OP_BIN, payload, mask)| <= out.tx.Length;
              && (ok <==> room && !dead) && (dead ==> room)
              && open == (old(open) && !dead)
              && out.queued == old(out.queued) + (if room then ClientFrame(OP_BIN, payload, mask) else [])
              && old(out.wire) <= out.wire && (ok && out.txLen == 0 ==> out.wire == out.queued)
    {
      hide ClientFrame, Parse, FrameRead;
      var a: byte, b: byte, c: byte, d: byte := *, *, *, *;
      var key := [a, b, c, d];
      mask, dead := key, false;
      assert out.queued + [] == out.queued;
      if !open || out.txLen != 0 { return false, mask, false; }
      ok := out.Put(OP_BIN, payload, key);
      if !ok { return; }
      var alive := out.Flush();
      if !alive {
        Fail();
        ok, dead := false, true;
      }
    }

    /** `fail`: the connection is given up for good. */
    method Fail()
      modifies this`open
      ensures !open
    {
      open := false;
    }

    /** A binary frame at the front of the buffer is handed out where it stands. */
    method HandOut(r: ReadResult) returns (ev: WsEvent)
      requires Formed() && pendingConsume == 0 && InSync()
      requires r == FrameRead(rx.Length, rx[..rxLen]) && r.Frame? && r.opcode == OP_BIN
      modifies this`pendingConsume, this`passed
      ensures Formed() && InSync() && ev.Delivered? && passed == old(passed) + [Message(OP_BIN, ev.payload)]
    {
      hide FrameRead, Parse, Outbox.Valid, Ahead;
      ghost var s := rx[..rxLen];
      assert rx[0..rxLen] == s;
      FramePassed(rx.Length, received, s, passed, r);
      ghost var more := s[r.at + r.len..];
      var m := rx[r.at..r.at + r.len];
      assert m == s[r.at..r.at + r.len];
      pendingConsume := r.at + r.len;
      passed := passed + [Message(OP_BIN, m)];
      assert rx[pendingConsume..rxLen] == more;
      ev := Delivered(m);
    }

    /** What a poll makes of the frames it takes: control frames, their pongs, and a message if there is one. */
    ghost predicate Took(before: seq<Message>, queued: seq<byte>, taken: seq<Message>, log: seq<Ping>, start: bool, ev: WsEvent)
      reads this, out, out.tx
    {
      && (forall i :: 0 <= i < |taken| ==> taken[i].op == OP_PING || taken[i].op == OP_PONG)
      && passed == before + taken + (if ev.Delivered? then [Message(OP_BIN, ev.payload)] else [])
      && Logged(taken, log, queued, out.queued, start, out.txLen == 0, out.tx.Length)
    }

    /** The loop of `nev_ws_poll`: one message, or the end, or nothing yet; pings are answered on the way. */
    method TakeOne() returns (ev: WsEvent, ghost taken: seq<Message>, ghost log: seq<Ping>)
      requires Formed() && pendingConsume == 0 && open && InSync()
      modifies this, rx, out, out.tx
      ensures Valid() && received == old(received)
      ensures Took(old(passed), old(out.queued), taken, log, old(out.txLen) == 0, ev)
      ensures ev.Delivered? ==> open
      ensures ev.Nothing? ==> open && pendingConsume == 0
                              && Parse(rx.Length, received) == Parsed(passed, Outcome.Open(rx[..rxLen]))
      ensures ev.Ended? ==> !open && exists why: Why :: Parse(rx.Length, received) == Parsed(passed, Outcome.Closed(why))
    {
      hide FrameRead, Parse, ServerFrame, ClientFrame, Logged;
      taken, log := [], [];
      LogStarts(out.queued, out.txLen == 0, out.tx.Length);
      assert passed == old(passed) + [] + [];
      while true
        invariant Formed() && pendingConsume == 0 && open && InSync() && received == old(received)
        invariant Took(old(passed), old(out.queued), taken, log, old(out.txLen) == 0, Nothing)
        decreases rxLen
      {
        ghost var s := rx[..rxLen];
        assert rx[0..rxLen] == s == Window(rx.Length, s);
        var r := ReadFrame();
        if r.Frame? && r.opcode == OP_BIN {
          ev := HandOut(r);
          return;
        }
        if !(r.Frame? && (r.opcode == OP_PING || r.opcode == OP_PONG)) {
          EndsAhead(rx.Length, s, passed);
          if r.NeedMore? && rxLen != rx.Length { return Nothing, taken, log; }
          Fail();
          return Ended, taken, log;
        }
        taken, log := TakeControl(r, old(passed), old(out.queued), taken, log, old(out.txLen) == 0);
      }
    }

    /** A ping or a pong: the ping answered, the frame taken off the buffer. */
    method TakeControl(r: ReadResult, ghost before: seq<Message>, ghost queued: seq<byte>, ghost taken: seq<Message>, ghost log: seq<Ping>,
                       ghost start: bool) returns (ghost taken': seq<Message>, ghost log': seq<Ping>)
      requires Formed() && pendingConsume == 0 && open && InSync()
      requires r == FrameRead(rx.Length, rx[..rxLen]) && r.Frame? && (r.opcode == OP_PING || r.opcode == OP_PONG)
      requires Took(before, queued, taken, log, start, Nothing)
      modifies this, rx, out, out.tx
      ensures Formed() && pendingConsume == 0 && open && InSync() && received == old(received) && rxLen < old(rxLen)
      ensures Took(before, queued, taken', log', start, Nothing)
    {
      hide FrameRead, Parse, ServerFrame, ClientFrame, Logged, Answered;
      ghost var s := rx[..rxLen];
      assert s == Window(rx.Length, s);
      CutFrame(rx.Length, s);
      ghost var m := Message(r.opcode, rx[r.at..r.at + r.len]);
      taken', log' := taken + [m], log;
      if r.opcode == OP_PING {
        ghost var q1, idle := out.queued, out.txLen == 0;
        ghost var p := SendPong(rx[r.at..r.at + r.len]);
        log' := log + [p];
        LogGrows(taken, log, queued, q1, start, idle, out.tx.Length, p, out.queued, out.txLen == 0);
      } else {
        LogPasses(taken, log, queued, out.queued, start, out.txLen == 0, out.tx.Length, m);
      }
      Skip(r);
      assert before + taken + [m] == before + taken';
    }

    method Receive(data: seq<byte>)
      requires Formed() && pendingConsume == 0 && InSync() && rxLen + |data| <= rx.Length
      modifies this`rxLen, this`received, rx
      ensures Formed() && InSync() && received == old(received) + data
    {
      hide FrameRead, Parse;
      ghost var held := rx[..rxLen];
      assert rx[0..rxLen] == held;
      StreamGrows(rx.Length, received, held, passed, data);
      Append(data);
      received := received + data;
      assert rx[0..rxLen] == held + data;
    }

    /** The message handed out last is dropped, and what the socket has is read if there is room. */
    method Refill(net: Recv) returns (alive: bool)
      requires Formed() && InSync() && (net.Got? ==> rxLen - pendingConsume + |net.data| <= rx.Length)
      modifies this`rxLen, this`pendingConsume, this`received, rx
      ensures Formed() && InSync() && pendingConsume == 0
      ensures alive <==> net.Got? || old(rxLen - pendingConsume) == rx.Length
      ensures received == old(received) + (if net.Got? then net.data else [])
    {
      hide FrameRead, Parse;
      assert rx[0..rxLen] == rx[..rxLen];
      if pendingConsume != 0 {
        Drop(pendingConsume);
        assert rx[0..rxLen] == rx[..rxLen];
      }
      assert received + [] == received;
      if rxLen == rx.Length {
        if net.Got? { assert net.data == []; }
        return true;
      }
      if net.Lost? { return false; }
      Receive(net.data);
      alive := true;
    }

    /**
     * `nev_ws_poll` on an established connection.  `net` is what the socket would answer to a read; it never
     * hands over more than was asked for.  `lost` tells a dead connection from one the client ended; `taken` are
     * the control frames passed, `log` says what became of the pings among them, and `idle` whether nothing was
     * going out when the first was met.
     */
    method Poll(net: Recv) returns (ev: WsEvent, ghost lost: bool, ghost taken: seq<Message>, ghost log: seq<Ping>, ghost idle: bool)
      requires Valid() && (net.Got? ==> rxLen - pendingConsume + |net.data| <= rx.Length)
      modifies Repr
      ensures Valid()
      ensures !old(open) ==> ev == Nothing && !open && received == old(received) && taken == []
      ensures old(open) && !lost ==> net.Got? || old(rxLen - pendingConsume) == rx.Length
      ensures old(open) && !lost ==> received == old(received) + (if net.Got? then net.data else [])
      ensures Took(old(passed), old(out.queued), taken, log, idle, ev) && (old(out.txLen) == 0 ==> idle)
      ensures idle && log != [] && Usable(log[0]) && Answered(log[0], out.tx.Length) ==>
                old(out.queued) + ClientFrame(OP_PONG, log[0].payload, log[0].mask) <= out.queued
      ensures ev.Delivered? ==> open && !lost
      ensures old(open) && ev.Nothing? ==>
                open && !lost && Parse(rx.Length, received) == Parsed(passed, Outcome.Open(rx[..rxLen]))
      ensures ev.Ended? ==> !open
      ensures ev.Ended? && !lost ==>
                exists why: Why :: Parse(rx.Length, received) == Parsed(passed, Outcome.Closed(why))
    {
      hide FrameRead, Parse, ServerFrame, ClientFrame, Window, Logged;
      lost, taken, log := false, [], [];
      assert passed == passed + [] + [];
      LogStarts(out.queued, out.txLen == 0, out.tx.Length);
      idle := out.txLen == 0;
      if !open { return Nothing, false, [], [], idle; }
      var alive := out.Flush();
      idle := out.txLen == 0;
      LogStarts(out.queued, idle, out.tx.Length);
      if !alive {
        Fail();
        return Ended, true, [], [], idle;
      }
      var fed := Refill(net);
      if !fed {
        Fail();
        return Ended, true, [], [], idle;
      }
      ghost var queued := out.queued;
      ev, taken, log := TakeOne();
      if idle && log != [] { FirstPingAnswered(taken, log, queued, out.queued, out.txLen == 0, out.tx.Length); }
    }
  }

  /** A frame at the front of the buffer that does not end the connection is the next one of the stream. */
  lemma NextFrame(cap: nat, s: seq<byte>)
    requires cap < Pow256(8) && |s| <= cap
    requires FrameRead(cap, s).Frame? && Continues(FrameRead(cap, s).opcode)
    ensures var r := FrameRead(cap, s);
            && 0 < r.at + r.len <= |s|
            && Parse(cap, s) == Ahead([Message(r.opcode, s[r.at..r.at + r.len])], Parse(cap, s[r.at + r.len..]))
  {
    hide FrameRead, Parse;
    var r := FrameRead(cap, s);
    assert Window(cap, s) == s;
    CutFrame(cap, s);
    var f, more := s[..r.at + r.len], s[r.at + r.len..];
    assert s == f + more && f[r.at..] == s[r.at..r.at + r.len];
    ParseFrame(cap, f, r.opcode, r.at, r.len, more);
  }

  /** The frame at the front of what is held joins those passed, and what is behind it is held. */
  lemma FramePassed(cap: nat, received: seq<byte>, s: seq<byte>, done: seq<Message>, r: ReadResult)
    requires cap < Pow256(8) && |s| <= cap && Parse(cap, received) == Ahead(done, Parse(cap, s))
    requires r == FrameRead(cap, s) && r.Frame? && Continues(r.opcode)
    ensures 0 < r.at + r.len <= |s|
    ensures Parse(cap, received) == Ahead(done + [Message(r.opcode, s[r.at..r.at + r.len])], Parse(cap, s[r.at + r.len..]))
  {
    hide FrameRead, Parse, Ahead;
    NextFrame(cap, s);
    AheadTwice(done, Message(r.opcode, s[r.at..r.at + r.len]), Parse(cap, s[r.at + r.len..]));
  }

  lemma TailOfTail(a: seq<byte>, s: seq<byte>, n: nat)
    requires n <= |s| <= |a| && a[|a| - |s|..] == s
    ensures a[|a| - (|s| - n)..] == s[n..]
  {}

  /** Where no such frame is at the front, the frames passed are all there are. */
  lemma EndsAhead(cap: nat, s: seq<byte>, passed: seq<Message>)
    requires cap < Pow256(8)
    requires var r := FrameRead(cap, Window(cap, s)); !(r.Frame? && Continues(r.opcode))
    ensures Ahead(passed, Parse(cap, s)) == Parsed(passed, Parse(cap, s).outcome)
    ensures var r, o := FrameRead(cap, Window(cap, s)), Parse(cap, s).outcome;
            if r.NeedMore? && |s| < cap then o == Open(s) else o.Closed?
  {
    hide FrameRead, Parse;
    ParseEnds(cap, s);
    assert passed + [] == passed;
  }

  /** More bytes behind the buffer are more bytes behind the stream. */
  lemma StreamGrows(cap: nat, received: seq<byte>, held: seq<byte>, done: seq<Message>, data: seq<byte>)
    requires cap < Pow256(8)
    requires Parse(cap, received) == Ahead(done, Parse(cap, held))
    ensures Parse(cap, received + data) == Ahead(done, Parse(cap, held + data))
  {
    hide FrameRead, Parse;
    ParseContinues(cap, received, data);
    ParseContinues(cap, held, data);
  }

  lemma AheadTwice(done: seq<Message>, m: Message, p: Parsed)
    ensures Ahead(done, Ahead([m], p)) == Ahead(done + [m], p)
  {
    assert done + ([m] + p.frames) == done + [m] + p.frames;
  }

  /** Frames already taken, put in front of those still to come. */
  function Ahead(done: seq<Message>, p: Parsed): Parsed {
    p.(frames := done + p.frames)
  }
}
