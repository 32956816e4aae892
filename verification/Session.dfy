/** One device connection on the daemon's side: authentication and audio capture, with time as an argument. */
module Session {
  import opened Basics
  import opened Proto
  import Cbor
  import Pairing

  const PROTOCOL_VERSION := 1
  /** 120 seconds at 16 kHz. */
  const MAX_UTTERANCE := 1_920_000
  const U32_LIMIT := 0x1_0000_0000

  // ---------------------------------------------------------------- what can arrive

  const HELLO: nat := 1
  const PAIR: nat := 3
  const PING: nat := 5
  const PONG: nat := 6
  const AUDIO_CHUNK: nat := 16
  const CAPTURE_MARKER: nat := 19
  const AGENT_REQUEST: nat := 32
  const DAEMON_MESSAGES: set<nat> := {2, 4, 17, 18, 33, 34, 48, 49, 50}

  const HELLO_FIELDS := [U16, Str(32), Str(24), Str(64)]
  const PAIR_FIELDS := [Str(12)]
  const PING_FIELDS := [U32]
  const AUDIO_FIELDS := [U32, U32, Bool, Raw(4096), U8]
  const MARKER_FIELDS := [U32, F32]
  const ASK_FIELDS := [U32, Str(512), Str(16)]

  datatype Hello = Hello(protocol: int, device: Text, firmware: Text, token: Text)
  datatype Chunk = Chunk(seqNo: int, session: int, last: bool, pcm: seq<byte>, kind: int)
  datatype Request = Request(turn: int, text: Text, app: Text)

  /** A payload as the session sees it; None where a message does not decode. */
  datatype Frame =
    | NotAMessage
    | UnknownMessage
    | DaemonMessage
    | HelloFrame(hello: Option<Hello>)
    | PairFrame(code: Option<Text>)
    | PingFrame(nonce: Option<int>)
    | PongFrame
    | AudioFrame(chunk: Option<Chunk>)
    | MarkerFrame(marker: Option<(int, nat)>)
    | AskFrame(request: Option<Request>)

  /** `peek_id`. */
  function PeekId(s: seq<byte>): Option<nat> {
    match Cbor.ReadArray(s)
    case None => None
    case Some(Got(count, size)) =>
      if count < 1 then None
      else match Cbor.ReadUint(s[size..])
        case None => None
        case Some(Got(id, _)) => if id > 0xFFFF then None else Some(id)
  }

  function Values(id: nat, ts: seq<FieldType>, s: seq<byte>): (r: Option<seq<Value>>)
    ensures r.Some? ==> AllInBounds(ts, r.value)
  {
    DecodesInBounds(Rust, id, ts, s);
    Decode(Rust, id, ts, s)
  }

  function ParseFrame(s: seq<byte>): (f: Frame)
    ensures f.AudioFrame? && f.chunk.Some? ==> |f.chunk.value.pcm| <= 4096
  {
    match PeekId(s)
    case None => NotAMessage
    case Some(id) =>
      if id == HELLO then HelloFrame(ParseHello(Values(id, HELLO_FIELDS, s)))
      else if id == PAIR then PairFrame(ParsePair(Values(id, PAIR_FIELDS, s)))
      else if id == PING then PingFrame(ParsePing(Values(id, PING_FIELDS, s)))
      else if id == PONG then PongFrame
      else if id == AUDIO_CHUNK then AudioFrame(ParseChunk(Values(id, AUDIO_FIELDS, s)))
      else if id == CAPTURE_MARKER then MarkerFrame(ParseMarker(Values(id, MARKER_FIELDS, s)))
      else if id == AGENT_REQUEST then AskFrame(ParseAsk(Values(id, ASK_FIELDS, s)))
      else if id in DAEMON_MESSAGES then DaemonMessage
      else UnknownMessage
  }

  function ParseHello(r: Option<seq<Value>>): Option<Hello>
    requires r.Some? ==> AllInBounds(HELLO_FIELDS, r.value)
  {
    if r.None? then None
    else
      var vs := r.value;
      assert forall i :: 0 <= i < 4 ==> InBounds(HELLO_FIELDS[i], vs[i]);
      Some(Hello(vs[0].n, vs[1].s, vs[2].s, vs[3].s))
  }

  function ParsePair(r: Option<seq<Value>>): Option<Text>
    requires r.Some? ==> AllInBounds(PAIR_FIELDS, r.value)
  {
    if r.None? then None
    else
      assert InBounds(PAIR_FIELDS[0], r.value[0]);
      Some(r.value[0].s)
  }

  function ParsePing(r: Option<seq<Value>>): Option<int>
    requires r.Some? ==> AllInBounds(PING_FIELDS, r.value)
  {
    if r.None? then None
    else
      assert InBounds(PING_FIELDS[0], r.value[0]);
      Some(r.value[0].n)
  }

  function ParseChunk(r: Option<seq<Value>>): (c: Option<Chunk>)
    requires r.Some? ==> AllInBounds(AUDIO_FIELDS, r.value)
    ensures c.Some? ==> |c.value.pcm| <= 4096
  {
    if r.None? then None
    else
      var vs := r.value;
      assert forall i :: 0 <= i < 5 ==> InBounds(AUDIO_FIELDS[i], vs[i]);
      Some(Chunk(vs[0].n, vs[1].n, vs[2].b, vs[3].s, vs[4].n))
  }

  function ParseMarker(r: Option<seq<Value>>): Option<(int, nat)>
    requires r.Some? ==> AllInBounds(MARKER_FIELDS, r.value)
  {
    if r.None? then None
    else
      var vs := r.value;
      assert forall i :: 0 <= i < 2 ==> InBounds(MARKER_FIELDS[i], vs[i]);
      Some((vs[0].n, vs[1].bits))
  }

  function ParseAsk(r: Option<seq<Value>>): Option<Request>
    requires r.Some? ==> AllInBounds(ASK_FIELDS, r.value)
  {
    if r.None? then None
    else
      var vs := r.value;
      assert forall i :: 0 <= i < 3 ==> InBounds(ASK_FIELDS[i], vs[i]);
      Some(Request(vs[0].n, vs[1].s, vs[2].s))
  }

  // ---------------------------------------------------------------- the state and its steps

  datatype State = New | AwaitingPairing | Ready | Closed
  datatype Kind = Note | Transcript | Question

  datatype Snapshot = Snapshot(
    state: State, device: Text, firmware: Text,
    capture: Option<int>, kind: Kind, audio: seq<int>, nextSeq: int)

  const OPENED := Snapshot(New, [], [], None, Note, [], 0)

  datatype Action =
    | SendHelloAck(accepted: bool, needsPairing: bool, daemonName: Text, unixTime: nat)
    | SendPairResult(granted: bool, token: Text, reason: string)
    | SendPong(nonce: int)
    | Close
    | RequestPairing(device: Text, code: Text)
    | Utterance(session: int, pcm: seq<int>, file: bool)
    | CaptureChunk(session: int, pcm: seq<int>, last: bool)
    | Marker(session: int, atSeconds: nat)
    | Ask(request: Request)
    | AudioGap(session: int, expected: int, got: int)
    | Seen

  datatype Input = Received(frame: Frame, now: nat) | PairGranted(token: Text) | PairRefused(reason: string)

  /** The daemon's name, and whether a token is the one issued to a device. */
  datatype World = World(daemonName: Text, lookup: (Text, Text) -> bool)

  datatype Reply = Reply(next: Snapshot, actions: seq<Action>)

  function KindOf(v: int): Kind { if v == 1 then Transcript else if v == 2 then Question else Note }

  /** A signed 16-bit sample, least significant byte first. */
  function Sample(low: byte, high: byte): int {
    var u := low + 256 * high;
    if u < 0x8000 then u else u - 0x1_0000
  }

  function Samples(pcm: seq<byte>): (s: seq<int>)
    ensures |s| == |pcm| / 2
  {
    if |pcm| < 2 then [] else [Sample(pcm[0], pcm[1])] + Samples(pcm[2..])
  }

  /** A signed 16-bit value as the device's microphone delivers it: two's complement, low byte first. */
  function PcmOf(v: int): (b: seq<byte>)
    requires -0x8000 <= v < 0x8000
  {
    [v % 0x100, v / 0x100 % 0x100]
  }

  function Pcm(values: seq<int>): (b: seq<byte>)
    requires forall i :: 0 <= i < |values| ==> -0x8000 <= values[i] < 0x8000
    ensures |b| == 2 * |values|
  {
    if values == [] then [] else PcmOf(values[0]) + Pcm(values[1..])
  }

  /** What the microphone recorded is what the samples are. */
  lemma {:induction false} SamplesOfPcm(values: seq<int>)
    requires forall i :: 0 <= i < |values| ==> -0x8000 <= values[i] < 0x8000
    ensures Samples(Pcm(values)) == values
  {
    hide Sample;
    if values != [] {
      SampleOfPcm(values[0]);
      SamplesOfPcm(values[1..]);
      assert Pcm(values)[2..] == Pcm(values[1..]);
      assert values == [values[0]] + values[1..];
    }
  }

  lemma SampleOfPcm(v: int)
    requires -0x8000 <= v < 0x8000
    ensures Sample(PcmOf(v)[0], PcmOf(v)[1]) == v
  {}

  function Closing(s: Snapshot): Reply {
    Reply(s.(state := Closed, audio := [], capture := None), [Close])
  }

  function OnHello(w: World, s: Snapshot, h: Option<Hello>, now: nat): Reply {
    if s.state != New || h.None? then Closing(s)
    else if h.value.protocol != PROTOCOL_VERSION then
      Reply(Closing(s).next, [SendHelloAck(false, false, w.daemonName, now), Close])
    else if h.value.device == [] then Closing(s)
    else
      var t := s.(device := h.value.device, firmware := h.value.firmware);
      if h.value.token != [] && w.lookup(h.value.device, h.value.token) then
        Reply(t.(state := Ready), [Seen, SendHelloAck(true, false, w.daemonName, now)])
      else
        Reply(t.(state := AwaitingPairing), [SendHelloAck(false, true, w.daemonName, now)])
  }

  const BAD_CODE := "code must be six digits"

  function OnPair(s: Snapshot, code: Option<Text>): Reply {
    if s.state != AwaitingPairing || code.None? then Closing(s)
    else if !Pairing.IsValidCode(code.value) then Reply(s, [SendPairResult(false, [], BAD_CODE)])
    else Reply(s, [RequestPairing(s.device, code.value)])
  }

  function OnMarker(s: Snapshot, m: Option<(int, nat)>): Reply {
    if s.state != Ready || m.None? then Closing(s)
    else if s.capture != Some(m.value.0) then Reply(s, [Seen])
    else Reply(s, [Seen, Marker(m.value.0, m.value.1)])
  }

  function OnAsk(s: Snapshot, r: Option<Request>): Reply {
    if s.state != Ready || r.None? then Closing(s) else Reply(s, [Seen, Ask(r.value)])
  }

  /** The capture a chunk belongs to: the running one, or a new one that discards what was unfinished. */
  function Joined(s: Snapshot, c: Chunk): Snapshot {
    var t := if s.capture == Some(c.session) then s
             else s.(capture := Some(c.session), audio := [], kind := KindOf(c.kind));
    t.(nextSeq := (c.seqNo + 1) % U32_LIMIT)
  }

  function Gap(s: Snapshot, c: Chunk): seq<Action> {
    if s.capture == Some(c.session) && c.seqNo != s.nextSeq then [AudioGap(c.session, s.nextSeq, c.seqNo)] else []
  }

  function OnChunk(s: Snapshot, c: Chunk): Reply {
    var head, t := [Seen] + Gap(s, c), Joined(s, c);
    var pcm := Samples(c.pcm);
    var stopped := t.(capture := None, audio := []);
    if t.kind == Transcript then
      Reply(if c.last then t.(capture := None) else t, head + [CaptureChunk(c.session, pcm, c.last)])
    else if |t.audio| + |pcm| > MAX_UTTERANCE then
      Reply(stopped, head + [Utterance(c.session, t.audio, t.kind == Note)])
    else
      var audio := t.audio + pcm;
      if !c.last then Reply(t.(audio := audio), head)
      else Reply(stopped, if audio == [] then head else head + [Utterance(c.session, audio, t.kind == Note)])
  }

  function OnAudio(s: Snapshot, c: Option<Chunk>): Reply {
    if s.state != Ready || c.None? || |c.value.pcm| % 2 != 0 then Closing(s) else OnChunk(s, c.value)
  }

  function OnFrame(w: World, s: Snapshot, f: Frame, now: nat): Reply {
    if s.state == Closed then Reply(s, [])
    else if f.NotAMessage? then Closing(s)
    else if f.UnknownMessage? then Reply(s, [Seen])
    else if s.state == New && !f.HelloFrame? then Closing(s)
    else match f
      case HelloFrame(h) => OnHello(w, s, h, now)
      case PairFrame(code) => OnPair(s, code)
      case PingFrame(n) => if n.Some? then Reply(s, [Seen, SendPong(n.value)]) else Closing(s)
      case PongFrame => Reply(s, [Seen])
      case AudioFrame(c) => OnAudio(s, c)
      case MarkerFrame(m) => OnMarker(s, m)
      case AskFrame(r) => OnAsk(s, r)
      case _ => Closing(s)
  }

  /** One step of a connection: a frame, or the desktop app's answer to a pairing request. */
  function Step(w: World, s: Snapshot, i: Input): Reply {
    match i
    case Received(f, now) => OnFrame(w, s, f, now)
    case PairGranted(token) =>
      if s.state != AwaitingPairing then Reply(s, [])
      else Reply(s.(state := Ready), [Seen, SendPairResult(true, token, "")])
    case PairRefused(reason) =>
      if s.state != AwaitingPairing then Reply(s, []) else Reply(s, [SendPairResult(false, [], reason)])
  }

  // ---------------------------------------------------------------- the program

  class Session {
    const world: World
    var state: State
    var device: Text
    var firmware: Text
    var capture: Option<int>
    var kind: Kind
    var audio: seq<int>
    var nextSeq: int

    function Abs(): Snapshot
      reads this
    {
      Snapshot(state, device, firmware, capture, kind, audio, nextSeq)
    }

    constructor (w: World)
      ensures Abs() == OPENED && world == w
    {
      world := w;
      state, device, firmware, capture, kind, audio, nextSeq := New, [], [], None, Note, [], 0;
    }

    /** One frame payload. */
    method ReceivePayload(payload: seq<byte>, now: nat) returns (actions: seq<Action>)
      modifies this
      ensures Reply(Abs(), actions) == Step(world, old(Abs()), Received(ParseFrame(payload), now))
    {
      hide ParseFrame;
      actions := Receive(ParseFrame(payload), now);
    }

    method Receive(f: Frame, now: nat) returns (actions: seq<Action>)
      modifies this
      ensures Reply(Abs(), actions) == OnFrame(world, old(Abs()), f, now)
    {
      if state == Closed { return []; }
      if f.NotAMessage? {
        actions := Shut();
        return;
      }
      if f.UnknownMessage? { return [Seen]; }
      if state == New && !f.HelloFrame? {
        actions := Shut();
        return;
      }
      match f
      case HelloFrame(h) => actions := Greet(h, now);
      case PairFrame(code) => actions := Pair(code);
      case PingFrame(n) =>
        if n.Some? { return [Seen, SendPong(n.value)]; }
        actions := Shut();
      case PongFrame => actions := [Seen];
      case AudioFrame(c) => actions := Hear(c);
      case MarkerFrame(m) => actions := Mark(m);
      case AskFrame(r) =>
        if state == Ready && r.Some? { return [Seen, Ask(r.value)]; }
        actions := Shut();
      case DaemonMessage => actions := Shut();
      case _ => assert false;
    }

    method Greet(h: Option<Hello>, now: nat) returns (actions: seq<Action>)
      modifies this
      ensures Reply(Abs(), actions) == OnHello(world, old(Abs()), h, now)
    {
      if state != New || h.None? {
        actions := Shut();
        return;
      }
      if h.value.protocol != PROTOCOL_VERSION {
        actions := [SendHelloAck(false, false, world.daemonName, now)];
        var more := Shut();
        return actions + more;
      }
      if h.value.device == [] {
        actions := Shut();
        return;
      }
      device := h.value.device;
      firmware := h.value.firmware;
      var known := h.value.token != [] && world.lookup(h.value.device, h.value.token);
      if known {
        state := Ready;
        actions := [Seen, SendHelloAck(true, false, world.daemonName, now)];
      } else {
        state := AwaitingPairing;
        actions := [SendHelloAck(false, true, world.daemonName, now)];
      }
    }

    method Pair(code: Option<Text>) returns (actions: seq<Action>)
      modifies this
      ensures Reply(Abs(), actions) == OnPair(old(Abs()), code)
    {
      if state != AwaitingPairing || code.None? {
        actions := Shut();
        return;
      }
      if !Pairing.IsValidCode(code.value) { return [SendPairResult(false, [], BAD_CODE)]; }
      actions := [RequestPairing(device, code.value)];
    }

    method Grant(token: Text) returns (actions: seq<Action>)
      modifies this
      ensures Reply(Abs(), actions) == Step(world, old(Abs()), PairGranted(token))
    {
      if state != AwaitingPairing { return []; }
      state := Ready;
      actions := [Seen, SendPairResult(true, token, "")];
    }

    method Refuse(reason: string) returns (actions: seq<Action>)
      ensures Reply(Abs(), actions) == Step(world, Abs(), PairRefused(reason))
    {
      if state != AwaitingPairing { return []; }
      actions := [SendPairResult(false, [], reason)];
    }

    method Mark(m: Option<(int, nat)>) returns (actions: seq<Action>)
      modifies this
      ensures Reply(Abs(), actions) == OnMarker(old(Abs()), m)
    {
      if state != Ready || m.None? {
        actions := Shut();
        return;
      }
      if capture != Some(m.value.0) { return [Seen]; }
      actions := [Seen, Marker(m.value.0, m.value.1)];
    }

    method Hear(c: Option<Chunk>) returns (actions: seq<Action>)
      modifies this
      ensures Reply(Abs(), actions) == OnAudio(old(Abs()), c)
    {
      hide Joined, Gap, Samples, KindOf;
      if state != Ready || c.None? || |c.value.pcm| % 2 != 0 {
        actions := Shut();
        return;
      }
      var chunk := c.value;
      actions := Join(chunk);
      var pcm := TakeSamples(chunk.pcm);
      if kind == Transcript {
        if chunk.last { capture := None; }
        return actions + [CaptureChunk(chunk.session, pcm, chunk.last)];
      }
      if |audio| + |chunk.pcm| / 2 > MAX_UTTERANCE {
        actions := actions + [Utterance(chunk.session, audio, kind == Note)];
        audio := [];
        capture := None;
        return;
      }
      audio := audio + pcm;
      if chunk.last {
        if audio != [] { actions := actions + [Utterance(chunk.session, audio, kind == Note)]; }
        audio := [];
        capture := None;
      }
    }

    /** The capture a chunk belongs to, and the gap it may reveal. */
    method Join(chunk: Chunk) returns (actions: seq<Action>)
      modifies this
      ensures Abs() == Joined(old(Abs()), chunk) && actions == [Seen] + Gap(old(Abs()), chunk)
    {
      actions := [Seen];
      if capture != Some(chunk.session) {
        capture := Some(chunk.session);
        audio := [];
        nextSeq := 0;
        kind := KindOf(chunk.kind);
      } else if chunk.seqNo != nextSeq {
        actions := actions + [AudioGap(chunk.session, nextSeq, chunk.seqNo)];
      }
      nextSeq := (chunk.seqNo + 1) % U32_LIMIT;
    }

    method Shut() returns (actions: seq<Action>)
      modifies this
      ensures Reply(Abs(), actions) == Closing(old(Abs()))
    {
      state := Closed;
      audio := [];
      capture := None;
      actions := [Close];
    }
  }

  /** Pairs of bytes, one sample each. */
  method TakeSamples(pcm: seq<byte>) returns (s: seq<int>)
    ensures s == Samples(pcm)
  {
    s := [];
    var i := 0;
    while i + 1 < |pcm|
      invariant i <= |pcm| && s + Samples(pcm[i..]) == Samples(pcm)
    {
      assert pcm[i..][2..] == pcm[i + 2..];
      assert s + ([Sample(pcm[i], pcm[i + 1])] + Samples(pcm[i + 2..])) == s + [Sample(pcm[i], pcm[i + 1])] + Samples(pcm[i + 2..]);
      s := s + [Sample(pcm[i], pcm[i + 1])];
      i := i + 2;
    }
    assert s + [] == s;
  }
}
