/**
 * A device's connection on the daemon: bytes from the socket, frames off the buffer, messages out of the
 * frames, and the session's answers.
 */
module Server {
  import opened Basics
  import opened Endian
  import opened Proto
  import opened Framing
  import opened Session
  import SessionRuns
  import Cbor
  import Utf8

  /** Payloads handed to the session one after the other, the `k`th frame of the connection at `clock(k)`. */
  function Handle(w: World, s: Snapshot, payloads: seq<seq<byte>>, clock: nat -> nat, from: nat): Reply
    decreases |payloads|
  {
    if payloads == [] then Reply(s, [])
    else
      var r := Step(w, s, Received(ParseFrame(payloads[0]), clock(from)));
      var t := Handle(w, r.next, payloads[1..], clock, from + 1);
      Reply(t.next, r.actions + t.actions)
  }

  lemma {:induction false} HandleAppend(w: World, s: Snapshot, p: seq<seq<byte>>, q: seq<seq<byte>>, clock: nat -> nat, from: nat)
    ensures var r := Handle(w, s, p, clock, from); var t := Handle(w, r.next, q, clock, from + |p|);
            Handle(w, s, p + q, clock, from) == Reply(t.next, r.actions + t.actions)
    decreases |p|
  {
    hide Step, ParseFrame;
    if p == [] {
      assert p + q == q;
    } else {
      assert (p + q)[1..] == p[1..] + q;
      var r := Step(w, s, Received(ParseFrame(p[0]), clock(from)));
      HandleAppend(w, r.next, p[1..], q, clock, from + 1);
      var u := Handle(w, r.next, p[1..], clock, from + 1);
      var t := Handle(w, u.next, q, clock, from + |p|);
      assert r.actions + (u.actions + t.actions) == r.actions + u.actions + t.actions;
    }
  }

  lemma HandleNothing(w: World, s: Snapshot, clock: nat -> nat, from: nat)
    ensures Handle(w, s, [], clock, from) == Reply(s, [])
  {}

  lemma HandleOne(w: World, s: Snapshot, payload: seq<byte>, clock: nat -> nat, from: nat)
    ensures Handle(w, s, [payload], clock, from) == Step(w, s, Received(ParseFrame(payload), clock(from)))
  {
    hide Step, ParseFrame;
    var r := Step(w, s, Received(ParseFrame(payload), clock(from)));
    assert r.actions + [] == r.actions;
  }

  /** Every frame is answered, except on a closed session, and the session is closed once it says so. */
  lemma AnswersFrames(w: World, s: Snapshot, f: Frame, now: nat)
    ensures var r := Step(w, s, Received(f, now));
            && (r.actions == [] <==> s.state == Closed)
            && (s.state == Closed ==> r.next == s)
            && (Close in r.actions ==> r.next.state == Closed)
  {
    hide Samples;
  }

  lemma {:induction false} ClosedIsSilent(w: World, s: Snapshot, payloads: seq<seq<byte>>, clock: nat -> nat, from: nat)
    requires s.state == Closed
    ensures Handle(w, s, payloads, clock, from) == Reply(s, [])
    decreases |payloads|
  {
    hide Step, ParseFrame;
    if payloads != [] {
      AnswersFrames(w, s, ParseFrame(payloads[0]), clock(from));
      ClosedIsSilent(w, s, payloads[1..], clock, from + 1);
    }
  }

  lemma {:induction false} CloseCloses(w: World, s: Snapshot, payloads: seq<seq<byte>>, clock: nat -> nat, from: nat)
    ensures var r := Handle(w, s, payloads, clock, from); Close in r.actions ==> r.next.state == Closed
    decreases |payloads|
  {
    hide Step, ParseFrame;
    if payloads != [] {
      var r := Step(w, s, Received(ParseFrame(payloads[0]), clock(from)));
      AnswersFrames(w, s, ParseFrame(payloads[0]), clock(from));
      CloseCloses(w, r.next, payloads[1..], clock, from + 1);
      if r.next.state == Closed { ClosedIsSilent(w, r.next, payloads[1..], clock, from + 1); }
    }
  }

  // ---------------------------------------------------------------- a connection

  /**
   * What is buffered, the session and how many frames it has been given.  `answers` collects the actions
   * carried out so far; once one of them is to close, the connection is `over` and nothing more is read.
   */
  datatype Conn = Conn(kept: seq<byte>, session: Snapshot, served: nat, over: bool, answers: seq<Action>)

  /** One read.  A prefix that announces too much costs the answers of this read: the connection is closed. */
  function Serve(w: World, c: Conn, piece: seq<byte>, clock: nat -> nat): Conn {
    if c.over then c
    else
      var d := Drain(c.kept + piece);
      var r := Handle(w, c.session, d.handed, clock, c.served);
      var actions := if d.failed then [Close] else r.actions;
      Conn(d.kept, r.next, c.served + |d.handed|, Close in actions, c.answers + actions)
  }

  function ServeAll(w: World, c: Conn, pieces: seq<seq<byte>>, clock: nat -> nat): Conn
    decreases |pieces|
  {
    if pieces == [] then c else ServeAll(w, Serve(w, c, pieces[0], clock), pieces[1..], clock)
  }

  function NewConn(s: Snapshot): Conn { Conn([], s, 0, false, []) }

  /** Nothing is answered but, at once, with a close: no frame comes, or none is heard, or the first is refused. */
  predicate Curt(w: World, s: Snapshot, payloads: seq<seq<byte>>, clock: nat -> nat) {
    payloads == [] || s.state == Closed
    || Step(w, s, Received(ParseFrame(payloads[0]), clock(0))).actions == [Close]
  }

  lemma CurtActions(w: World, s: Snapshot, payloads: seq<seq<byte>>, clock: nat -> nat)
    requires Curt(w, s, payloads, clock)
    ensures var a := Handle(w, s, payloads, clock, 0).actions; a == [] || a == [Close]
  {
    hide Step, ParseFrame;
    if s.state == Closed {
      ClosedIsSilent(w, s, payloads, clock, 0);
    } else if payloads != [] {
      var r := Step(w, s, Received(ParseFrame(payloads[0]), clock(0)));
      AnswersFrames(w, s, ParseFrame(payloads[0]), clock(0));
      ClosedIsSilent(w, r.next, payloads[1..], clock, 1);
    }
  }

  /** The connection after some reads, in terms of the payloads drained from all that was sent. */
  ghost predicate Tracks(w: World, s: Snapshot, c: Conn, d: Drained, clock: nat -> nat) {
    var r := Handle(w, s, d.handed, clock, 0);
    && c.session == r.next && c.over == (d.failed || Close in r.actions)
    && (!c.over ==> c.kept == d.kept && c.served == |d.handed|)
    && (!d.failed ==> c.answers == r.actions)
    && (d.failed && Curt(w, s, d.handed, clock) ==> c.answers == [Close])
  }

  lemma ServeTracks(w: World, s: Snapshot, c: Conn, d: Drained, piece: seq<byte>, clock: nat -> nat)
    requires Tracks(w, s, c, d, clock)
    ensures Tracks(w, s, Serve(w, c, piece, clock), Feed(d, piece), clock)
  {
    hide Drain, Handle, Curt;
    if !d.failed {
      var e := Drain(d.kept + piece);
      var r := Handle(w, s, d.handed, clock, 0);
      HandleAppend(w, s, d.handed, e.handed, clock, 0);
      if Close in r.actions {
        CloseCloses(w, s, d.handed, clock, 0);
        ClosedIsSilent(w, r.next, e.handed, clock, |d.handed|);
        assert r.actions + [] == r.actions;
      }
      CurtStays(w, s, d.handed, e.handed, clock);
      if Curt(w, s, d.handed, clock) { CurtActions(w, s, d.handed, clock); }
      assert Close in [Close] && [] + [Close] == [Close];
    }
  }

  lemma CurtStays(w: World, s: Snapshot, p: seq<seq<byte>>, q: seq<seq<byte>>, clock: nat -> nat)
    ensures Curt(w, s, p + q, clock) ==> Curt(w, s, p, clock)
  {
    hide Step, ParseFrame;
  }

  lemma {:induction false} ServeAllTracks(w: World, s: Snapshot, c: Conn, d: Drained, pieces: seq<seq<byte>>, clock: nat -> nat)
    requires Tracks(w, s, c, d, clock)
    ensures Tracks(w, s, ServeAll(w, c, pieces, clock), FeedAll(d, pieces), clock)
    decreases |pieces|
  {
    hide Tracks, Feed, Serve;
    if pieces != [] {
      ServeTracks(w, s, c, d, pieces[0], clock);
      ServeAllTracks(w, s, Serve(w, c, pieces[0], clock), Feed(d, pieces[0]), pieces[1..], clock);
    }
  }

  lemma NewConnTracks(w: World, s: Snapshot, clock: nat -> nat)
    ensures Tracks(w, s, NewConn(s), Drained([], [], false), clock)
  {
    HandleNothing(w, s, clock, 0);
  }

  lemma DrainNothing()
    ensures Drain([]) == Drained([], [], false)
  {}

  /** However the network cuts the stream, the session ends in the same state and the connection goes on or ends alike. */
  lemma PartitionDoesNotMatter(w: World, s: Snapshot, pieces: seq<seq<byte>>, clock: nat -> nat)
    ensures var c, d := ServeAll(w, NewConn(s), pieces, clock), Serve(w, NewConn(s), Concat(pieces), clock);
            && c.session == d.session && c.over == d.over
            && (!Drain(Concat(pieces)).failed || Curt(w, s, Drain(Concat(pieces)).handed, clock) ==> c.answers == d.answers)
  {
    hide Drain, Handle, Serve, Curt;
    var start := Drained([], [], false);
    NewConnTracks(w, s, clock);
    ServeAllTracks(w, s, NewConn(s), start, pieces, clock);
    ServeTracks(w, s, NewConn(s), start, Concat(pieces), clock);
    DrainNothing();
    PartitionIndependent(start, pieces);
    assert [] + Concat(pieces) == Concat(pieces);
    assert [] + Drain(Concat(pieces)).handed == Drain(Concat(pieces)).handed;
  }

  /** Cutting a stream that ends in a bad prefix after its first frame keeps the answer to that frame. */
  lemma FirstFrameAlone(w: World, s: Snapshot, stream: seq<byte>, clock: nat -> nat) returns (pieces: seq<seq<byte>>)
    requires var d := Drain(stream); d.failed && d.handed != []
    ensures Concat(pieces) == stream
    ensures var a := Step(w, s, Received(ParseFrame(Drain(stream).handed[0]), clock(0))).actions;
            ServeAll(w, NewConn(s), pieces, clock).answers == if Close in a then a else a + [Close]
  {
    hide Drain, Handle, Step, ParseFrame, WrapAll, FrameWrap;
    var h := Drain(stream).handed;
    var rest: seq<byte> := HandedIsTheStream(stream);
    var first: seq<byte>, more: seq<byte> := CutAfterFirst(h, rest);
    pieces := [first, more];
    assert stream == first + more;
    assert pieces[1..] == [more] && [more][1..] == [];
    ConcatTwo(first, more);
    HandleOne(w, s, h[0], clock, 0);
    assert [] + first == first;
    DrainContinues(first, more);
    var a := Step(w, s, Received(ParseFrame(h[0]), clock(0))).actions;
    var c := Serve(w, NewConn(s), first, clock);
    assert [] + a == a;
    assert ServeAll(w, NewConn(s), pieces, clock) == ServeAll(w, c, [more], clock);
    assert ServeAll(w, c, [more], clock) == ServeAll(w, Serve(w, c, more, clock), [], clock);
  }

  lemma ConcatTwo(p: seq<byte>, q: seq<byte>)
    ensures Concat([p, q]) == p + q
  {
    assert [p, q][1..] == [q] && [q][1..] == [];
    assert Concat([q]) == q + [];
  }

  lemma CutAfterFirst(h: seq<seq<byte>>, rest: seq<byte>) returns (first: seq<byte>, more: seq<byte>)
    requires h != [] && forall i :: 0 <= i < |h| ==> |h[i]| <= MAX_FRAME
    ensures WrapAll(h) + rest == first + more && Drain(first) == Drained([h[0]], [], false)
  {
    hide Drain, FrameWrap;
    WrapLength(h[0]);
    first, more := FrameWrap(h[0]).value, WrapAll(h[1..]) + rest;
    assert WrapAll(h) + rest == first + more;
    DrainsOne(h[0], []);
    DrainNothing();
    assert first + [] == first && [h[0]] + [] == [h[0]];
  }

  /**
   * The answers are the same however the stream is cut exactly when it holds no bad prefix, or nothing before
   * the bad prefix is answered but with a close.
   */
  lemma AnswersAgreeIff(w: World, s: Snapshot, stream: seq<byte>, clock: nat -> nat)
    ensures (forall pieces: seq<seq<byte>> :: Concat(pieces) == stream ==>
               ServeAll(w, NewConn(s), pieces, clock).answers == Serve(w, NewConn(s), stream, clock).answers)
            <==> !Drain(stream).failed || Curt(w, s, Drain(stream).handed, clock)
  {
    hide Drain, Handle, Step, ParseFrame, ServeAll;
    if !Drain(stream).failed || Curt(w, s, Drain(stream).handed, clock) {
      forall pieces: seq<seq<byte>> | Concat(pieces) == stream
        ensures ServeAll(w, NewConn(s), pieces, clock).answers == Serve(w, NewConn(s), stream, clock).answers
      {
        PartitionDoesNotMatter(w, s, pieces, clock);
      }
    } else {
      var pieces := FirstFrameAlone(w, s, stream, clock);
      AnswersFrames(w, s, ParseFrame(Drain(stream).handed[0]), clock(0));
      assert [] + stream == stream && [] + [Close] == [Close];
    }
  }

  /**
   * A stream for which they differ: a ping, framed, and a bad prefix.  Read together they are answered with a
   * close alone; read one after the other, the ping gets its pong first.
   */
  lemma PongLostToBadPrefix(w: World, s: Snapshot, nonce: nat, clock: nat -> nat)
    requires s.state == AwaitingPairing || s.state == Ready
    requires nonce < U32_LIMIT
    ensures AllTyped(PING_FIELDS, [Num(nonce)]) && |Message(PING, PING_FIELDS, [Num(nonce)])| <= MAX_FRAME
    ensures var ping, bad := FrameWrap(Message(PING, PING_FIELDS, [Num(nonce)])).value, [0xFF, 0xFF, 0xFF, 0xFF];
            && ServeAll(w, NewConn(s), [ping, bad], clock).answers == [Seen, SendPong(nonce), Close]
            && ServeAll(w, NewConn(s), [ping + bad], clock).answers == [Close]
  {
    hide Drain, Handle, Message, ParseFrame, FrameWrap;
    PingFits(nonce);
    WrapLength(Message(PING, PING_FIELDS, [Num(nonce)]));
    var message: seq<byte> := Message(PING, PING_FIELDS, [Num(nonce)]);
    var ping: seq<byte>, bad: seq<byte> := FrameWrap(message).value, [0xFF, 0xFF, 0xFF, 0xFF];
    ParsesPing(nonce);
    BadPrefix(bad);
    DrainNothing();
    DrainsOne(message, []);
    DrainsOne(message, bad);
    assert ping + [] == ping && [message] + [] == [message];
    HandleOne(w, s, message, clock, 0);
    HandleNothing(w, Handle(w, s, [message], clock, 0).next, clock, 1);
    var c := Serve(w, NewConn(s), ping, clock);
    assert [] + ping == ping && [] + bad == bad && [] + (ping + bad) == ping + bad;
    assert c == Conn([], s, 1, false, [Seen, SendPong(nonce)]);
    assert [ping, bad][1..] == [bad] && [bad][1..] == [] && [ping + bad][1..] == [];
    assert ServeAll(w, c, [bad], clock) == Serve(w, c, bad, clock);
    assert ServeAll(w, NewConn(s), [ping + bad], clock) == Serve(w, NewConn(s), ping + bad, clock);
  }

  lemma BadPrefix(bad: seq<byte>)
    requires bad == [0xFF, 0xFF, 0xFF, 0xFF]
    ensures Drain(bad) == Drained([], [], true)
  {
    assert bad[..4] == bad;
    BytesOfNumber(0xFFFF_FFFF, 4);
    Pow256Values();
    assert ToBytes(0xFFFF_FFFF, 4) == bad;
  }

  lemma PingFits(nonce: nat)
    requires nonce < U32_LIMIT
    ensures AllTyped(PING_FIELDS, [Num(nonce)]) && AllReadable(Rust, PING_FIELDS, [Num(nonce)])
    ensures |Message(PING, PING_FIELDS, [Num(nonce)])| <= MAX_FRAME
  {
    hide Cbor.Head;
    HeadLength(Cbor.ARRAY, 2);
    HeadLength(Cbor.UINT, PING);
    HeadLength(Cbor.UINT, nonce);
    assert Fields(PING_FIELDS, [Num(nonce)]) == Cbor.Head(Cbor.UINT, nonce) + Fields([], []);
  }

  lemma ParsesPing(nonce: nat)
    requires nonce < U32_LIMIT && AllTyped(PING_FIELDS, [Num(nonce)])
    ensures ParseFrame(Message(PING, PING_FIELDS, [Num(nonce)])) == PingFrame(Some(nonce))
  {
    hide Decode, Message, AllInBounds, Cbor.ReadArray, Cbor.ReadUint;
    PingFits(nonce);
    SameSchemaRoundTrip(Rust, PING, PING_FIELDS, [Num(nonce)]);
    MessageHeader(PING, PING_FIELDS, [Num(nonce)]);
  }

  // ---------------------------------------------------------------- the first frame

  /** A hello the device's struct can hold, its texts valid UTF-8. */
  predicate HelloFits(h: Hello) {
    && 0 <= h.protocol <= 0xFFFF
    && |h.device| <= 32 && |h.firmware| <= 24 && |h.token| <= 64
    && Utf8.Valid(h.device) && Utf8.Valid(h.firmware) && Utf8.Valid(h.token)
  }

  function HelloValues(h: Hello): (vs: seq<Value>)
    ensures HelloFits(h) ==> AllReadable(Rust, HELLO_FIELDS, vs) && AllTyped(HELLO_FIELDS, vs)
  {
    [Num(h.protocol), Data(h.device), Data(h.firmware), Data(h.token)]
  }

  function HelloMessage(h: Hello): seq<byte>
    requires HelloFits(h)
  {
    Message(HELLO, HELLO_FIELDS, HelloValues(h))
  }

  lemma ParsesHello(h: Hello)
    requires HelloFits(h)
    ensures ParseFrame(HelloMessage(h)) == HelloFrame(Some(h))
  {
    hide Decode, Message, AllInBounds, Utf8.Valid, Cbor.ReadArray, Cbor.ReadUint;
    SameSchemaRoundTrip(Rust, HELLO, HELLO_FIELDS, HelloValues(h));
    MessageHeader(HELLO, HELLO_FIELDS, HelloValues(h));
  }

  /** Over the wire too, a first hello opens the session exactly if the device and its token belong together. */
  lemma HelloDecides(w: World, h: Hello, clock: nat -> nat)
    requires HelloFits(h)
    ensures var s := Handle(w, Snapshot(New, [], [], None, Note, [], 0), [HelloMessage(h)], clock, 0).next;
            s.state == Ready <==> SessionRuns.Proves(w, h)
  {
    hide Step, ParseFrame, HelloMessage, HelloFits;
    var s := Snapshot(New, [], [], None, Note, [], 0);
    ParsesHello(h);
    HandleOne(w, s, HelloMessage(h), clock, 0);
    SessionRuns.ProofSuffices(w, s, h, clock(0));
  }

  // ---------------------------------------------------------------- speech, from the microphone to the transcriber

  /** A chunk the device can send: what its struct holds, in whole samples. */
  predicate Sendable(c: Chunk) {
    && 0 <= c.seqNo < U32_LIMIT && 0 <= c.session < U32_LIMIT && 0 <= c.kind < 256
    && |c.pcm| <= 4096 && |c.pcm| % 2 == 0
  }

  function ChunkValues(c: Chunk): (vs: seq<Value>)
    ensures Sendable(c) ==> AllReadable(Rust, AUDIO_FIELDS, vs) && AllTyped(AUDIO_FIELDS, vs)
  {
    [Num(c.seqNo), Num(c.session), Flag(c.last), Data(c.pcm), Num(c.kind)]
  }

  function ChunkMessage(c: Chunk): (m: seq<byte>)
    requires Sendable(c)
    ensures |m| <= MAX_FRAME
  {
    ChunkFits(c);
    Message(AUDIO_CHUNK, AUDIO_FIELDS, ChunkValues(c))
  }

  lemma ParsesChunk(c: Chunk)
    requires Sendable(c)
    ensures ParseFrame(ChunkMessage(c)) == AudioFrame(Some(c))
  {
    hide Decode, Message, AllInBounds, Cbor.ReadArray, Cbor.ReadUint;
    SameSchemaRoundTrip(Rust, AUDIO_CHUNK, AUDIO_FIELDS, ChunkValues(c));
    MessageHeader(AUDIO_CHUNK, AUDIO_FIELDS, ChunkValues(c));
  }

  lemma ChunkFits(c: Chunk)
    requires Sendable(c)
    ensures |Message(AUDIO_CHUNK, AUDIO_FIELDS, ChunkValues(c))| <= MAX_FRAME
  {
    hide Cbor.Head;
    var ts, vs := AUDIO_FIELDS, ChunkValues(c);
    FieldLength(ts[0], vs[0]);
    FieldLength(ts[1], vs[1]);
    FieldLength(ts[2], vs[2]);
    FieldLength(ts[3], vs[3]);
    FieldLength(ts[4], vs[4]);
    FieldsOfFive(ts, vs);
    HeadLength(Cbor.ARRAY, 6);
    HeadLength(Cbor.UINT, AUDIO_CHUNK);
  }

  lemma HeadLength(major: nat, v: nat)
    requires major < 8 && v < Cbor.U64_LIMIT
    ensures |Cbor.Head(major, v)| <= 9
  {}

  lemma FieldLength(t: FieldType, v: Value)
    requires Typed(t, v)
    ensures |Field(t, v)| <= 9 + (if t.Raw? || t.Str? then |v.s| else 0)
  {
    hide Cbor.Head;
    match t
    case I32 => if v.n < 0 { HeadLength(Cbor.NINT, -(v.n + 1)); } else { HeadLength(Cbor.UINT, v.n); }
    case Bool =>
    case F32 =>
    case Str(_) => HeadLength(Cbor.TEXT, |v.s|);
    case Raw(_) => HeadLength(Cbor.BYTES, |v.s|);
    case _ => HeadLength(Cbor.UINT, v.n);
  }

  lemma FieldsOfFive(ts: seq<FieldType>, vs: seq<Value>)
    requires |ts| == 5 && AllTyped(ts, vs)
    ensures |Fields(ts, vs)| ==
            |Field(ts[0], vs[0])| + |Field(ts[1], vs[1])| + |Field(ts[2], vs[2])| + |Field(ts[3], vs[3])| + |Field(ts[4], vs[4])|
  {
    hide Field, Typed;
    assert |Fields(ts, vs)| == |Field(ts[0], vs[0])| + |Fields(ts[1..], vs[1..])|;
    var t1, v1 := ts[1..], vs[1..];
    assert |Fields(t1, v1)| == |Field(ts[1], vs[1])| + |Fields(t1[1..], v1[1..])|;
    var t2, v2 := t1[1..], v1[1..];
    assert |Fields(t2, v2)| == |Field(ts[2], vs[2])| + |Fields(t2[1..], v2[1..])|;
    var t3, v3 := t2[1..], v2[1..];
    assert |Fields(t3, v3)| == |Field(ts[3], vs[3])| + |Fields(t3[1..], v3[1..])|;
    var t4, v4 := t3[1..], v3[1..];
    assert |Fields(t4, v4)| == |Field(ts[4], vs[4])| + |Fields(t4[1..], v4[1..])|;
  }

  function Messages(chunks: seq<Chunk>): (ms: seq<seq<byte>>)
    requires forall i :: 0 <= i < |chunks| ==> Sendable(chunks[i])
    ensures |ms| == |chunks| && forall i :: 0 <= i < |ms| ==> |ms[i]| <= MAX_FRAME
  {
    seq(|chunks|, i requires 0 <= i < |chunks| => ChunkMessage(chunks[i]))
  }

  function Speech(chunks: seq<Chunk>): seq<int> {
    if chunks == [] then [] else Samples(chunks[0].pcm) + Speech(chunks[1..])
  }

  function Utterances(actions: seq<Action>): seq<Action> {
    if actions == [] then []
    else (if actions[0].Utterance? then [actions[0]] else []) + Utterances(actions[1..])
  }

  lemma {:induction false} UtterancesAppend(a: seq<Action>, b: seq<Action>)
    ensures Utterances(a + b) == Utterances(a) + Utterances(b)
  {
    if a == [] {
      assert a + b == b;
    } else {
      assert (a + b)[1..] == a[1..] + b;
      UtterancesAppend(a[1..], b);
    }
  }

  /** The chunks of one recording: same session, the final flag on the last and only there. */
  ghost predicate OneRecording(chunks: seq<Chunk>, session: int) {
    && chunks != []
    && forall i :: 0 <= i < |chunks| ==>
         Sendable(chunks[i]) && chunks[i].session == session && chunks[i].last == (i == |chunks| - 1)
  }

  /** A recording under way: what is held grows until the final chunk hands it on, once. */
  lemma {:induction false} RecordingArrives(w: World, s: Snapshot, chunks: seq<Chunk>, session: int, clock: nat -> nat, from: nat)
    requires s.state == Ready && OneRecording(chunks, session)
    requires Joined(s, chunks[0]).kind != Transcript
    requires var held := Joined(s, chunks[0]).audio + Speech(chunks); 0 < |held| <= MAX_UTTERANCE
    ensures var t := Joined(s, chunks[0]);
            Utterances(Handle(w, s, Messages(chunks), clock, from).actions) ==
              [Utterance(session, t.audio + Speech(chunks), t.kind == Note)]
    decreases |chunks|
  {
    hide Step, ParseFrame, Samples, Joined, ChunkMessage, Utterances, Sendable;
    var c, t := chunks[0], Joined(s, chunks[0]);
    var ms := Messages(chunks);
    assert ms[1..] == Messages(chunks[1..]);
    ParsesChunk(c);
    SessionRuns.ChunkInput(w, s, Received(AudioFrame(Some(c)), clock(from)));
    var r := Step(w, s, Received(ParseFrame(ms[0]), clock(from)));
    UtterancesAppend(r.actions, Handle(w, r.next, ms[1..], clock, from + 1).actions);
    Evenness(c);
    ChunkEffect(s, c);
    if |chunks| == 1 {
      assert Speech(chunks) == Samples(c.pcm) + Speech([]);
      assert t.audio + Speech(chunks) == t.audio + Samples(c.pcm);
      NoUtterances();
    } else {
      var more := chunks[1..];
      assert t.audio + Speech(chunks) == t.audio + Samples(c.pcm) + Speech(more);
      JoinsOn(r.next, more[0]);
      RecordingArrives(w, r.next, more, session, clock, from + 1);
    }
  }

  lemma Evenness(c: Chunk)
    requires Sendable(c)
    ensures |c.pcm| % 2 == 0
  {}

  lemma NoUtterances()
    ensures Utterances([]) == []
  {}

  lemma JoinsOn(s: Snapshot, c: Chunk)
    requires s.capture == Some(c.session)
    ensures Joined(s, c).audio == s.audio && Joined(s, c).kind == s.kind
  {}

  /** What a chunk that fits does. */
  lemma ChunkEffect(s: Snapshot, c: Chunk)
    requires var t := Joined(s, c); s.state == Ready && t.kind != Transcript && |t.audio| + |Samples(c.pcm)| <= MAX_UTTERANCE
    ensures var t, r := Joined(s, c), OnChunk(s, c);
            var held := t.audio + Samples(c.pcm);
            && (!c.last ==> r.next.state == Ready && r.next.capture == Some(c.session) && r.next.kind == t.kind
                            && r.next.audio == held && Utterances(r.actions) == [])
            && (c.last && held != [] ==> Utterances(r.actions) == [Utterance(c.session, held, t.kind == Note)])
  {
    hide Samples, Utterances;
    var t, r := Joined(s, c), OnChunk(s, c);
    var held := t.audio + Samples(c.pcm);
    var head := [Seen] + Gap(s, c);
    HeadIsQuiet(s, c);
    if c.last && held != [] {
      var u := Utterance(c.session, held, t.kind == Note);
      UtterancesAppend(head, [u]);
      OnlyUtterance(u);
    }
  }

  lemma HeadIsQuiet(s: Snapshot, c: Chunk)
    ensures Utterances([Seen] + Gap(s, c)) == []
  {
    UtterancesAppend([Seen], Gap(s, c));
  }

  lemma OnlyUtterance(u: Action)
    requires u.Utterance?
    ensures Utterances([u]) == [u]
  {}

  /**
   * From the microphone to the transcriber: a recording that the device encodes, frames and sends, cut by
   * the network in any way, reaches the transcriber as one utterance with every sample in order.
   */
  lemma VoiceArrives(w: World, s: Snapshot, chunks: seq<Chunk>, session: int, pieces: seq<seq<byte>>, clock: nat -> nat)
    requires s.state == Ready && s.capture != Some(session) && OneRecording(chunks, session)
    requires KindOf(chunks[0].kind) != Transcript && 0 < |Speech(chunks)| <= MAX_UTTERANCE
    requires Concat(pieces) == WrapAll(Messages(chunks))
    ensures Utterances(ServeAll(w, NewConn(s), pieces, clock).answers) ==
            [Utterance(session, Speech(chunks), KindOf(chunks[0].kind) == Note)]
  {
    hide Step, ParseFrame, Drain, Handle, Speech, Utterances, WrapAll, ChunkMessage;
    NewConnTracks(w, s, clock);
    ServeAllTracks(w, s, NewConn(s), Drained([], [], false), pieces, clock);
    FramesSurvivePartition(Messages(chunks), pieces);
    assert Joined(s, chunks[0]).audio == [] && [] + Speech(chunks) == Speech(chunks);
    RecordingArrives(w, s, chunks, session, clock, 0);
  }

  // ---------------------------------------------------------------- the program

  class Connection {
    var buf: seq<byte>
    const session: Session
    /** How many frames the session has been given; it stands for the time that passes. */
    var served: nat
    var over: bool
    ghost var answers: seq<Action>

    ghost function Value(): Conn
      reads this, session
    {
      Conn(buf, session.Abs(), served, over, answers)
    }

    constructor (s: Session)
      ensures session == s && Value() == NewConn(s.Abs())
    {
      buf := [];
      session := s;
      served, over, answers := 0, false, [];
    }

    /**
     * One turn of the connection's loop: what the socket delivered is appended and drained, and the actions
     * are carried out, the last of them being to close or the loop going on.
     */
    method Receive(bytes: seq<byte>, clock: nat -> nat) returns (actions: seq<Action>)
      modifies this, session
      ensures answers == old(answers) + actions
      ensures Value() == Serve(session.world, old(Value()), bytes, clock).(kept := buf)
      ensures !over ==> Value() == Serve(session.world, old(Value()), bytes, clock)
    {
      hide Drain, Handle;
      if over {
        assert answers + [] == answers;
        return [];
      }
      buf := buf + bytes;
      var drained := DrainFrames(clock);
      actions := if drained.Some? then drained.value else [Close];
      answers := answers + actions;
      over := Close in actions;
    }

    /** `drain_frames`. */
    method DrainFrames(clock: nat -> nat) returns (actions: Option<seq<Action>>)
      modifies this`buf, this`served, session
      ensures var d := Drain(old(buf));
              var r := Handle(session.world, old(session.Abs()), d.handed, clock, old(served));
              && session.Abs() == r.next && served == old(served) + |d.handed|
              && actions == (if d.failed then None else Some(r.actions))
              && (!d.failed ==> buf == d.kept)
    {
      hide FrameSplit, Drain, Step, ParseFrame, Handle;
      ghost var s, w, from := session.Abs(), session.world, served;
      ghost var whole := Drain(buf);
      var out, handed := [], [];
      HandleNothing(w, s, clock, from);
      while true
        invariant Reply(session.Abs(), out) == Handle(w, s, handed, clock, from) && served == from + |handed|
        invariant var d := Drain(buf); whole == d.(handed := handed + d.handed)
        decreases |buf|
      {
        DrainStep(buf);
        var f := FrameSplit(buf);
        SplitBounds(buf);
        if f.NeedMore? {
          assert handed + [] == handed;
          return Some(out);
        }
        if f.TooLong? {
          assert handed + [] == handed;
          return None;
        }
        HandleAppend(w, s, handed, [f.payload], clock, from);
        HandleOne(w, session.Abs(), f.payload, clock, served);
        ghost var d := Drain(buf[f.total..]);
        assert handed + ([f.payload] + d.handed) == handed + [f.payload] + d.handed;
        var more := session.ReceivePayload(f.payload, clock(served));
        out := out + more;
        handed := handed + [f.payload];
        served := served + 1;
        buf := buf[f.total..];
      }
    }
  }

  lemma SplitBounds(s: seq<byte>)
    ensures FrameSplit(s).Frame? ==> FRAME_HEADER <= FrameSplit(s).total <= |s|
  {}

  lemma DrainStep(s: seq<byte>)
    ensures var f := FrameSplit(s);
            && (f.NeedMore? ==> Drain(s) == Drained([], s, false))
            && (f.TooLong? ==> Drain(s) == Drained([], [], true))
            && (f.Frame? ==> var d := Drain(s[f.total..]); Drain(s) == Drained([f.payload] + d.handed, d.kept, d.failed))
  {}
}
