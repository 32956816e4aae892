/** What a session answers, and when it hangs up, told from the outside. */
module SessionAnswers {
  import opened Basics
  import opened Session
  import opened SessionRuns
  import opened Proto
  import Cbor
  import Pairing
  import Golden

  // ---------------------------------------------------------------- what arrives

  /** What a device sends, laid out as the schema has it, reaches the session field by field. */
  lemma ArrivesAs(v: Golden.Vector)
    requires v.id < 0x1_0000 && |v.ts| < 100 && AllReadable(Rust, v.ts, v.vs) && AllTyped(v.ts, v.vs)
    ensures var f, vs := ParseFrame(Message(v.id, v.ts, v.vs)), v.vs;
            && (Alike(v, Golden.HELLO) ==> f == HelloFrame(Some(Hello(vs[0].n, vs[1].s, vs[2].s, vs[3].s))))
            && (Alike(v, Golden.PAIR) ==> f == PairFrame(Some(vs[0].s)))
            && (Alike(v, Golden.PING) ==> f == PingFrame(Some(vs[0].n)))
            && (Alike(v, Golden.AUDIO_CHUNK) ==> f == AudioFrame(Some(Chunk(vs[0].n, vs[1].n, vs[2].b, vs[3].s, vs[4].n))))
            && (Alike(v, Golden.CAPTURE_MARKER) ==> f == MarkerFrame(Some((vs[0].n, vs[1].bits))))
            && (Alike(v, Golden.AGENT_REQUEST) ==> f == AskFrame(Some(Request(vs[0].n, vs[1].s, vs[2].s))))
  {
    hide Decode, Message, AllInBounds, Cbor.ReadArray, Cbor.ReadUint;
    SameSchemaRoundTrip(Rust, v.id, v.ts, v.vs);
    MessageHeader(v.id, v.ts, v.vs);
    assert forall i :: 0 <= i < |v.ts| ==> Readable(Rust, v.ts[i], v.vs[i]);
  }

  predicate Alike(v: Golden.Vector, w: Golden.Vector) { v.id == w.id && v.ts == w.ts }

  /** A message is told by its id alone: a pong, one that only a daemon sends, or one of a later schema. */
  lemma OthersArriveAs(id: nat, ts: seq<FieldType>, vs: seq<Value>)
    requires id < 0x1_0000 && |ts| < 100 && AllTyped(ts, vs)
    ensures var f := ParseFrame(Message(id, ts, vs));
            && (f.PongFrame? <==> id == 6)
            && (f.DaemonMessage? <==> id in {2, 4, 17, 18, 33, 34, 48, 49, 50})
            && (f.UnknownMessage? <==> id !in {1, 2, 3, 4, 5, 6, 16, 17, 18, 19, 32, 33, 34, 48, 49, 50})
            && !f.NotAMessage?
  {
    hide Decode, Message, AllInBounds, Cbor.ReadArray, Cbor.ReadUint;
    MessageHeader(id, ts, vs);
  }

  /** Nothing but an array that is not empty, has room for its elements and begins with 16 bits counts as a message. */
  lemma HeaderDecides(n: nat, id: nat, rest: seq<byte>)
    requires n < Cbor.U64_LIMIT && id < Cbor.U64_LIMIT
    ensures ParseFrame(Cbor.Head(4, n) + (Cbor.Head(0, id) + rest)).NotAMessage? <==>
            n == 0 || id > 0xFFFF || n > |Cbor.Head(0, id) + rest|
  {
    hide Cbor.Head, Cbor.ReadHead, Decode;
    var s := Cbor.Head(4, n) + (Cbor.Head(0, id) + rest);
    Cbor.ReadsHead(4, n, Cbor.Head(0, id) + rest);
    Cbor.ReadsHead(0, id, rest);
    assert s[|Cbor.Head(4, n)|..] == Cbor.Head(0, id) + rest;
  }

  // ---------------------------------------------------------------- when it hangs up

  /** Whether a frame is one the peer may send now: a decodable message of a kind that belongs to the state. */
  predicate Welcome(s: State, f: Frame) {
    || f.UnknownMessage?
    || (s == New && f.HelloFrame? && f.hello.Some? && (f.hello.value.protocol == 1 ==> f.hello.value.device != []))
    || (s in {AwaitingPairing, Ready} && (f.PongFrame? || (f.PingFrame? && f.nonce.Some?)))
    || (s == AwaitingPairing && f.PairFrame? && f.code.Some?)
    || (s == Ready && f.AudioFrame? && f.chunk.Some? && |f.chunk.value.pcm| % 2 == 0)
    || (s == Ready && f.MarkerFrame? && f.marker.Some?)
    || (s == Ready && f.AskFrame? && f.request.Some?)
  }

  /** It hangs up on what is not welcome, and after greeting a peer that speaks another version; never otherwise. */
  lemma HangsUpIff(w: World, s: Snapshot, i: Input)
    requires s.state != Closed
    ensures var r := Step(w, s, i);
            && (Close in r.actions <==> r.next.state == Closed)
            && (r.next.state == Closed <==>
                i.Received? && (!Welcome(s.state, i.frame) || (i.frame.HelloFrame? && i.frame.hello.value.protocol != 1)))
    ensures var r := Step(w, s, i);
            r.next.state == Closed ==> r.actions[|r.actions| - 1] == Close && r.next.audio == [] && r.next.capture == None
  {
    hide OnChunk, Pairing.IsValidCode;
    if IsChunk(i) && s.state == Ready { ChunkStays(s, ChunkOf(i)); }
  }

  lemma ChunkStays(s: Snapshot, c: Chunk)
    ensures OnChunk(s, c).next.state == s.state && Close !in OnChunk(s, c).actions
  {
    hide Samples;
  }

  // ---------------------------------------------------------------- what it answers

  /** A greeting says where the peer stands, who is speaking and what time it is. */
  lemma GreetingTells(w: World, s: Snapshot, i: Input)
    ensures forall a :: a in Step(w, s, i).actions && a.SendHelloAck? ==>
            var t := Step(w, s, i).next;
            && s.state == New && i.Received? && a.daemonName == w.daemonName && a.unixTime == i.now
            && (a.accepted <==> t.state == Ready) && (a.needsPairing <==> t.state == AwaitingPairing)
    ensures s.state == New && i.Received? && Welcome(New, i.frame) && !i.frame.UnknownMessage? ==>
            exists a :: a in Step(w, s, i).actions && a.SendHelloAck?
  {
    hide OnChunk, Pairing.IsValidCode;
    if IsChunk(i) && s.state == Ready { ChunkSpeaks(s, ChunkOf(i)); }
    if s.state == New && i.Received? && Welcome(New, i.frame) && !i.frame.UnknownMessage? {
      Greeted(w, s, i.frame.hello, i.now);
    }
  }

  lemma Greeted(w: World, s: Snapshot, h: Option<Hello>, now: nat)
    requires s.state == New && Welcome(New, HelloFrame(h))
    ensures exists a :: a in OnHello(w, s, h, now).actions && a.SendHelloAck?
  {
    var r := OnHello(w, s, h, now).actions;
    assert |r| > 0 && (r[0].SendHelloAck? || (|r| > 1 && r[1].SendHelloAck?));
  }

  /** Of a chunk of audio nothing comes but audio and the gap it reveals. */
  lemma ChunkSpeaks(s: Snapshot, c: Chunk)
    ensures forall a :: a in OnChunk(s, c).actions ==> a.Seen? || a.AudioGap? || a.Utterance? || a.CaptureChunk?
  {
    hide Samples;
  }

  /** The answers that carry something of the input, each given exactly when it is due. */
  lemma AnswersDue(w: World, s: Snapshot, i: Input, a: Action)
    ensures a.SendPong? ==>
            (a in Step(w, s, i).actions <==>
             s.state in {AwaitingPairing, Ready} && i.Received? && i.frame == PingFrame(Some(a.nonce)))
    ensures a.Marker? ==>
            (a in Step(w, s, i).actions <==>
             s.state == Ready && s.capture == Some(a.session) && i.Received?
             && i.frame == MarkerFrame(Some((a.session, a.atSeconds))))
    ensures a.Ask? ==>
            (a in Step(w, s, i).actions <==> s.state == Ready && i.Received? && i.frame == AskFrame(Some(a.request)))
  {
    hide OnChunk, Pairing.IsValidCode;
    if IsChunk(i) && s.state == Ready { ChunkSpeaks(s, ChunkOf(i)); }
  }

  /** Pairing is asked for, for the device that greeted, exactly when a code of six digits arrives while it is awaited. */
  lemma PairingDue(w: World, s: Snapshot, i: Input, a: Action)
    ensures a.RequestPairing? ==>
            (a in Step(w, s, i).actions <==>
             && s.state == AwaitingPairing && i.Received? && i.frame == PairFrame(Some(a.code)) && a.device == s.device
             && exists n: nat :: n < 1_000_000 && a.code == Pairing.Decimal(n, 6))
    ensures a.SendPairResult? && a.granted ==>
            (a in Step(w, s, i).actions <==>
             s.state == AwaitingPairing && i == PairGranted(a.token) && a.reason == "")
    ensures a.SendPairResult? && !a.granted ==>
            (a in Step(w, s, i).actions <==>
             && s.state == AwaitingPairing && a.token == []
             && (i == PairRefused(a.reason)
                 || (a.reason == "code must be six digits" && i.Received? && i.frame.PairFrame? && i.frame.code.Some?
                     && !exists n: nat :: n < 1_000_000 && i.frame.code.value == Pairing.Decimal(n, 6))))
  {
    hide OnChunk, Pairing.IsValidCode, Pairing.Decimal;
    if IsChunk(i) && s.state == Ready { ChunkSpeaks(s, ChunkOf(i)); }
    if i.Received? && i.frame.PairFrame? && i.frame.code.Some? { Pairing.ValidCodeIff(i.frame.code.value); }
  }

  /** A gap names the capture, the number that was due and the one that came. */
  lemma GapTells(w: World, s: Snapshot, i: Input, a: Action)
    requires a.AudioGap?
    ensures a in Step(w, s, i).actions <==>
            && s.state == Ready && IsChunk(i) && |ChunkOf(i).pcm| % 2 == 0
            && s.capture == Some(a.session) == Some(ChunkOf(i).session)
            && a.expected == s.nextSeq && a.got == ChunkOf(i).seqNo && a.expected != a.got
  {
    hide Samples, Pairing.IsValidCode, OnChunk;
    if IsChunk(i) {
      ChunkInput(w, s, i);
      ChunkGapTells(s, ChunkOf(i), a);
    } else {
      OtherInput(w, s, i);
    }
  }

  lemma ChunkGapTells(s: Snapshot, c: Chunk, a: Action)
    requires a.AudioGap?
    ensures a in OnChunk(s, c).actions <==>
            s.capture == Some(a.session) == Some(c.session) && a.expected == s.nextSeq && a.got == c.seqNo && a.expected != a.got
  {
    hide Samples;
    if s.capture == Some(c.session) && c.seqNo != s.nextSeq {
      assert OnChunk(s, c).actions[1] == AudioGap(c.session, s.nextSeq, c.seqNo);
    }
  }

  /** The peer is marked as seen once it is proven, by whatever it sends, and before that only by small talk. */
  lemma SeenIff(w: World, s: Snapshot, i: Input)
    ensures Seen in Step(w, s, i).actions <==>
            && s.state != Closed && Step(w, s, i).next.state != Closed
            && if i.Received? then Step(w, s, i).next.state == Ready || i.frame.UnknownMessage? || i.frame.PingFrame? || i.frame.PongFrame?
               else i.PairGranted? && s.state == AwaitingPairing
  {
    hide OnChunk, Pairing.IsValidCode;
    if IsChunk(i) && s.state == Ready { ChunkSeen(s, ChunkOf(i)); }
  }

  lemma ChunkSeen(s: Snapshot, c: Chunk)
    ensures Seen in OnChunk(s, c).actions && OnChunk(s, c).next.state == s.state
  {
    hide Samples;
    assert OnChunk(s, c).actions[0] == Seen;
  }

  // ---------------------------------------------------------------- whom pairing is for

  /** The greeting that the session holds on to: of a device without proof, in the version spoken. */
  ghost predicate Greeter(w: World, inputs: seq<Input>, at: nat, device: Text) {
    && at < |inputs| && inputs[at].Received? && inputs[at].frame.HelloFrame? && inputs[at].frame.hello.Some?
    && End(w, inputs[..at]).state == New
    && var h := inputs[at].frame.hello.value;
       h.protocol == 1 && h.device == device != [] && !Proves(w, h)
  }

  lemma {:induction false} AwaitedGreeted(w: World, inputs: seq<Input>) returns (at: nat)
    requires End(w, inputs).state == AwaitingPairing
    ensures Greeter(w, inputs, at, End(w, inputs).device)
  {
    hide Step, End;
    OpensNew(w);
    var n := |inputs| - 1;
    var before := inputs[..n];
    assert inputs[..n + 1] == inputs;
    EndStep(w, inputs, n);
    AwaitsFrom(w, End(w, before), inputs[n]);
    if End(w, before).state == AwaitingPairing {
      at := AwaitedGreeted(w, before);
      assert before[..at] == inputs[..at] && before[at] == inputs[at];
    } else {
      at := n;
    }
  }

  lemma OpensNew(w: World)
    ensures End(w, []) == OPENED && OPENED.state == New
  {}

  lemma AwaitsFrom(w: World, s: Snapshot, i: Input)
    requires Step(w, s, i).next.state == AwaitingPairing
    ensures s.state == AwaitingPairing ==> Step(w, s, i).next.device == s.device
    ensures s.state != AwaitingPairing ==>
            && s.state == New && i.Received? && i.frame.HelloFrame? && i.frame.hello.Some?
            && var h := i.frame.hello.value;
               h.protocol == 1 && h.device == Step(w, s, i).next.device != [] && !Proves(w, h)
  {
    hide OnChunk, Pairing.IsValidCode;
    if IsChunk(i) && s.state == Ready { ChunkStays(s, ChunkOf(i)); }
  }

  /**
   * In every run, whatever pairing is asked for is asked for the device whose greeting came in earlier on this
   * connection, with the six digits that came in just now.
   */
  lemma PairingIsForTheGreeter(w: World, inputs: seq<Input>, n: nat, device: Text, code: Text) returns (at: nat)
    requires n < |inputs| && RequestPairing(device, code) in Answer(w, inputs, n)
    ensures at < n && Greeter(w, inputs, at, device)
    ensures inputs[n].Received? && inputs[n].frame == PairFrame(Some(code))
    ensures exists k: nat :: k < 1_000_000 && code == Pairing.Decimal(k, 6)
  {
    hide Step, End, Pairing.Decimal;
    PairingDue(w, End(w, inputs[..n]), inputs[n], RequestPairing(device, code));
    at := AwaitedGreeted(w, inputs[..n]);
    assert inputs[..n][..at] == inputs[..at] && inputs[..n][at] == inputs[at];
  }
}
