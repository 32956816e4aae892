/**
 * The canonical encodings the schema's reference implementation produced, one for each message: both encoders write
 * them and both decoders read them.  They fix what the codec theorems leave to convention, down to the byte.
 */
module Golden {
  import opened Basics
  import opened Endian
  import opened Proto
  import Cbor
  import Utf8

  /** The message as the schema lays it out, a sample of it, and the sample's bytes. */
  datatype Vector = Vector(id: nat, ts: seq<FieldType>, vs: seq<Value>, head: seq<byte>, fields: seq<seq<byte>>)

  function Ascii(text: string): (s: seq<byte>)
    requires forall i :: 0 <= i < |text| ==> 0 < text[i] as int < 128
    ensures |s| == |text| && forall i :: 0 <= i < |s| ==> 0 < s[i] < 128
  {
    seq(|text|, i requires 0 <= i < |text| => text[i] as int)
  }

  const HELLO := Vector(1, [U16, Str(32), Str(24), Str(64)],
    [Num(7), Data(Ascii("device_id-1")), Data(Ascii("firmware-2")), Data(Ascii("token-3"))],
    [0x85, 0x01],
    [[0x07], [0x6B] + Ascii("device_id-1"), [0x6A] + Ascii("firmware-2"), [0x67] + Ascii("token-3")])

  const HELLO_ACK := Vector(2, [Bool, Bool, Str(48), U64],
    [Flag(true), Flag(false), Data(Ascii("daemon_name-2")), Num(28)],
    [0x85, 0x02],
    [[0xF5], [0xF4], [0x6D] + Ascii("daemon_name-2"), [0x18, 0x1C]])

  const PAIR := Vector(3, [Str(12)],
    [Data(Ascii("code-0"))],
    [0x82, 0x03],
    [[0x66] + Ascii("code-0")])

  const PAIR_RESULT := Vector(4, [Bool, Str(64), Str(64)],
    [Flag(true), Data(Ascii("token-1")), Data(Ascii("reason-2"))],
    [0x84, 0x04],
    [[0xF5], [0x67] + Ascii("token-1"), [0x68] + Ascii("reason-2")])

  const PING := Vector(5, [U32],
    [Num(7)],
    [0x82, 0x05],
    [[0x07]])

  const PONG := Vector(6, [U32],
    [Num(7)],
    [0x82, 0x06],
    [[0x07]])

  const AUDIO_CHUNK := Vector(16, [U32, U32, Bool, Raw(4096), U8],
    [Num(7), Num(14), Flag(true), Data([0x33, 0x34, 0x35, 0x36, 0x37, 0x38, 0x39, 0x3A]), Num(35)],
    [0x86, 0x10],
    [[0x07], [0x0E], [0xF5], [0x48, 0x33, 0x34, 0x35, 0x36, 0x37, 0x38, 0x39, 0x3A], [0x18, 0x23]])

  const CAPTURE_MARKER := Vector(19, [U32, F32],
    [Num(7), Bits(0x3FC00000)],
    [0x83, 0x13],
    [[0x07], [0xFA, 0x3F, 0xC0, 0x00, 0x00]])

  const TRANSCRIPT_PARTIAL := Vector(17, [U32, Str(512)],
    [Num(7), Data(Ascii("text-1"))],
    [0x83, 0x11],
    [[0x07], [0x66] + Ascii("text-1")])

  const TRANSCRIPT_FINAL := Vector(18, [U32, Str(512), F32],
    [Num(7), Data(Ascii("text-1")), Bits(0x40200000)],
    [0x84, 0x12],
    [[0x07], [0x66] + Ascii("text-1"), [0xFA, 0x40, 0x20, 0x00, 0x00]])

  const AGENT_REQUEST := Vector(32, [U32, Str(512), Str(16)],
    [Num(7), Data(Ascii("text-1")), Data(Ascii("app-2"))],
    [0x84, 0x18, 0x20],
    [[0x07], [0x66] + Ascii("text-1"), [0x65] + Ascii("app-2")])

  const AGENT_TOKEN := Vector(33, [U32, Str(512)],
    [Num(7), Data(Ascii("text-1"))],
    [0x83, 0x18, 0x21],
    [[0x07], [0x66] + Ascii("text-1")])

  const AGENT_DONE := Vector(34, [U32, Str(128)],
    [Num(7), Data(Ascii("error-1"))],
    [0x83, 0x18, 0x22],
    [[0x07], [0x67] + Ascii("error-1")])

  const MOOD_HINT := Vector(48, [U8, U8, U16],
    [Num(7), Num(14), Num(21)],
    [0x84, 0x18, 0x30],
    [[0x07], [0x0E], [0x15]])

  const NOTIFICATION := Vector(49, [Str(48), Str(160), Bool],
    [Data(Ascii("title-0")), Data(Ascii("body-1")), Flag(true)],
    [0x84, 0x18, 0x31],
    [[0x67] + Ascii("title-0"), [0x66] + Ascii("body-1"), [0xF5]])

  const OTA_AVAILABLE := Vector(50, [Str(24), Str(256), U32, Raw(32)],
    [Data(Ascii("version-0")), Data(Ascii("url-1")), Num(21), Data([0x33, 0x34, 0x35, 0x36, 0x37, 0x38, 0x39, 0x3A])],
    [0x85, 0x18, 0x32],
    [[0x69] + Ascii("version-0"), [0x65] + Ascii("url-1"), [0x15], [0x48, 0x33, 0x34, 0x35, 0x36, 0x37, 0x38, 0x39, 0x3A]])

  ghost predicate Matches(v: Vector) {
    && v.id < 0x1_0000 && |v.ts| <= 5 && AllTyped(v.ts, v.vs) && Message(v.id, v.ts, v.vs) == Bytes(v)
    && Decode(C, v.id, v.ts, Bytes(v)) == Some(v.vs) == Decode(Rust, v.id, v.ts, Bytes(v))
  }

  function Bytes(v: Vector): seq<byte> { v.head + Concat(v.fields) }


  // ---------------------------------------------------------------- written and read

  lemma SmallHead(major: nat, n: nat)
    requires major < 8 && n < 256
    ensures Cbor.Head(major, n) == if n < 24 then [32 * major + n] else [32 * major + 24, n]
  {}

  lemma {:induction false} FieldsAre(ts: seq<FieldType>, vs: seq<Value>, fs: seq<seq<byte>>)
    requires AllTyped(ts, vs) && |fs| == |ts| && forall i :: 0 <= i < |ts| ==> fs[i] == Field(ts[i], vs[i])
    ensures Fields(ts, vs) == Concat(fs)
    decreases |ts|
  {
    hide Field;
    if ts != [] { FieldsAre(ts[1..], vs[1..], fs[1..]); }
  }

  /** What a short field is on the wire. */
  lemma FieldIs(t: FieldType, v: Value)
    requires Typed(t, v)
    ensures v.Num? && 0 <= v.n < 24 ==> Field(t, v) == [v.n]
    ensures v.Num? && 24 <= v.n < 256 ==> Field(t, v) == [0x18, v.n]
    ensures v.Flag? ==> Field(t, v) == [if v.b then 0xF5 else 0xF4]
    ensures v.Data? && |v.s| < 24 ==> Field(t, v) == [(if t.Str? then 0x60 else 0x40) + |v.s|] + v.s
    ensures v.Bits? ==>
            var n := v.bits; Field(t, v) == [0xFA, n / 0x100_0000, n / 0x1_0000 % 256, n / 256 % 256, n % 256]
  {
    hide ToBytes, Cbor.Head;
    if v.Num? && 0 <= v.n < 256 { SmallHead(0, v.n); }
    if v.Data? && |v.s| < 24 { SmallHead(if t.Str? then 3 else 2, |v.s|); }
    if v.Bits? { FloatBytes(v.bits); }
  }

  lemma FloatBytes(n: nat)
    requires n < 0x1_0000_0000
    ensures ToBytes(n, 4) == [n / 0x100_0000, n / 0x1_0000 % 256, n / 256 % 256, n % 256]
  {
    assert ToBytes(n, 0 + 1) == [] + [n % 256];
    var a, b, c := n / 256, n / 0x1_0000, n / 0x100_0000;
    assert a / 256 == b && b / 256 == c && c < 256;
    assert ToBytes(c, 1) == ToBytes(c / 256, 0) + [c];
    assert ToBytes(b, 2) == ToBytes(c, 1) + [b % 256];
    assert ToBytes(a, 3) == ToBytes(b, 2) + [a % 256];
  }

  lemma {:induction false} AsciiIsText(s: seq<byte>)
    requires forall i :: 0 <= i < |s| ==> 0 < s[i] < 128
    ensures Utf8.Valid(s) && 0 !in s
  {
    if s != [] { AsciiIsText(s[1..]); }
  }

  /** What the parts are decides the message. */
  lemma FromParts(v: Vector)
    requires v.id < 0x1_0000 && v.id < 256 && |v.ts| <= 5 && AllInBounds(v.ts, v.vs) && AllTyped(v.ts, v.vs)
    requires forall i :: 0 <= i < |v.ts| && v.ts[i].Str? ==> forall k :: 0 <= k < |v.vs[i].s| ==> 0 < v.vs[i].s[k] < 128
    requires v.head == [0x81 + |v.ts|] + (if v.id < 24 then [v.id] else [0x18, v.id])
    requires |v.fields| == |v.ts| && forall i :: 0 <= i < |v.ts| ==> v.fields[i] == Field(v.ts[i], v.vs[i])
    ensures Matches(v)
  {
    hide Field, Decode, Cbor.Head, Utf8.Valid, Fields, Concat;
    SmallHead(4, 1 + |v.ts|);
    SmallHead(0, v.id);
    FieldsAre(v.ts, v.vs, v.fields);
    forall i | 0 <= i < |v.ts| ensures Readable(C, v.ts[i], v.vs[i]) && Readable(Rust, v.ts[i], v.vs[i]) {
      assert InBounds(v.ts[i], v.vs[i]);
      if v.ts[i].Str? { AsciiIsText(v.vs[i].s); }
    }
    SameSchemaRoundTrip(C, v.id, v.ts, v.vs);
    SameSchemaRoundTrip(Rust, v.id, v.ts, v.vs);
  }

  lemma HelloMatches()
    ensures Matches(HELLO)
  {
    hide Field, Decode;
    var ts, vs := HELLO.ts, HELLO.vs;
    FieldIs(ts[0], vs[0]);
    FieldIs(ts[1], vs[1]);
    FieldIs(ts[2], vs[2]);
    FieldIs(ts[3], vs[3]);
    FromParts(HELLO);
  }

  lemma HelloAckMatches()
    ensures Matches(HELLO_ACK)
  {
    hide Field, Decode;
    var ts, vs := HELLO_ACK.ts, HELLO_ACK.vs;
    FieldIs(ts[0], vs[0]);
    FieldIs(ts[1], vs[1]);
    FieldIs(ts[2], vs[2]);
    FieldIs(ts[3], vs[3]);
    FromParts(HELLO_ACK);
  }

  lemma PairMatches()
    ensures Matches(PAIR)
  {
    hide Field, Decode;
    var ts, vs := PAIR.ts, PAIR.vs;
    FieldIs(ts[0], vs[0]);
    FromParts(PAIR);
  }

  lemma PairResultMatches()
    ensures Matches(PAIR_RESULT)
  {
    hide Field, Decode;
    var ts, vs := PAIR_RESULT.ts, PAIR_RESULT.vs;
    FieldIs(ts[0], vs[0]);
    FieldIs(ts[1], vs[1]);
    FieldIs(ts[2], vs[2]);
    FromParts(PAIR_RESULT);
  }

  lemma PingMatches()
    ensures Matches(PING)
  {
    hide Field, Decode;
    var ts, vs := PING.ts, PING.vs;
    FieldIs(ts[0], vs[0]);
    FromParts(PING);
  }

  lemma PongMatches()
    ensures Matches(PONG)
  {
    hide Field, Decode;
    var ts, vs := PONG.ts, PONG.vs;
    FieldIs(ts[0], vs[0]);
    FromParts(PONG);
  }

  lemma AudioChunkMatches()
    ensures Matches(AUDIO_CHUNK)
  {
    hide Field, Decode;
    var ts, vs := AUDIO_CHUNK.ts, AUDIO_CHUNK.vs;
    FieldIs(ts[0], vs[0]);
    FieldIs(ts[1], vs[1]);
    FieldIs(ts[2], vs[2]);
    FieldIs(ts[3], vs[3]);
    FieldIs(ts[4], vs[4]);
    FromParts(AUDIO_CHUNK);
  }

  lemma CaptureMarkerMatches()
    ensures Matches(CAPTURE_MARKER)
  {
    hide Field, Decode;
    var ts, vs := CAPTURE_MARKER.ts, CAPTURE_MARKER.vs;
    FieldIs(ts[0], vs[0]);
    FieldIs(ts[1], vs[1]);
    FromParts(CAPTURE_MARKER);
  }

  lemma TranscriptPartialMatches()
    ensures Matches(TRANSCRIPT_PARTIAL)
  {
    hide Field, Decode;
    var ts, vs := TRANSCRIPT_PARTIAL.ts, TRANSCRIPT_PARTIAL.vs;
    FieldIs(ts[0], vs[0]);
    FieldIs(ts[1], vs[1]);
    FromParts(TRANSCRIPT_PARTIAL);
  }

  lemma TranscriptFinalMatches()
    ensures Matches(TRANSCRIPT_FINAL)
  {
    hide Field, Decode;
    var ts, vs := TRANSCRIPT_FINAL.ts, TRANSCRIPT_FINAL.vs;
    FieldIs(ts[0], vs[0]);
    FieldIs(ts[1], vs[1]);
    FieldIs(ts[2], vs[2]);
    FromParts(TRANSCRIPT_FINAL);
  }

  lemma AgentRequestMatches()
    ensures Matches(AGENT_REQUEST)
  {
    hide Field, Decode;
    var ts, vs := AGENT_REQUEST.ts, AGENT_REQUEST.vs;
    FieldIs(ts[0], vs[0]);
    FieldIs(ts[1], vs[1]);
    FieldIs(ts[2], vs[2]);
    FromParts(AGENT_REQUEST);
  }

  lemma AgentTokenMatches()
    ensures Matches(AGENT_TOKEN)
  {
    hide Field, Decode;
    var ts, vs := AGENT_TOKEN.ts, AGENT_TOKEN.vs;
    FieldIs(ts[0], vs[0]);
    FieldIs(ts[1], vs[1]);
    FromParts(AGENT_TOKEN);
  }

  lemma AgentDoneMatches()
    ensures Matches(AGENT_DONE)
  {
    hide Field, Decode;
    var ts, vs := AGENT_DONE.ts, AGENT_DONE.vs;
    FieldIs(ts[0], vs[0]);
    FieldIs(ts[1], vs[1]);
    FromParts(AGENT_DONE);
  }

  lemma MoodHintMatches()
    ensures Matches(MOOD_HINT)
  {
    hide Field, Decode;
    var ts, vs := MOOD_HINT.ts, MOOD_HINT.vs;
    FieldIs(ts[0], vs[0]);
    FieldIs(ts[1], vs[1]);
    FieldIs(ts[2], vs[2]);
    FromParts(MOOD_HINT);
  }

  lemma NotificationMatches()
    ensures Matches(NOTIFICATION)
  {
    hide Field, Decode;
    var ts, vs := NOTIFICATION.ts, NOTIFICATION.vs;
    FieldIs(ts[0], vs[0]);
    FieldIs(ts[1], vs[1]);
    FieldIs(ts[2], vs[2]);
    FromParts(NOTIFICATION);
  }

  lemma OtaAvailableMatches()
    ensures Matches(OTA_AVAILABLE)
  {
    hide Field, Decode;
    var ts, vs := OTA_AVAILABLE.ts, OTA_AVAILABLE.vs;
    FieldIs(ts[0], vs[0]);
    FieldIs(ts[1], vs[1]);
    FieldIs(ts[2], vs[2]);
    FieldIs(ts[3], vs[3]);
    FromParts(OTA_AVAILABLE);
  }

  const VECTORS := [HELLO, HELLO_ACK, PAIR, PAIR_RESULT, PING,
    PONG, AUDIO_CHUNK, CAPTURE_MARKER, TRANSCRIPT_PARTIAL, TRANSCRIPT_FINAL,
    AGENT_REQUEST, AGENT_TOKEN, AGENT_DONE, MOOD_HINT, NOTIFICATION,
    OTA_AVAILABLE]

  /** Every message of the schema. */
  lemma EveryMessageMatches()
    ensures |VECTORS| == 16 && forall i :: 0 <= i < 16 ==> Matches(VECTORS[i])
  {
    hide Matches;
    HelloMatches();
    HelloAckMatches();
    PairMatches();
    PairResultMatches();
    PingMatches();
    PongMatches();
    AudioChunkMatches();
    CaptureMarkerMatches();
    TranscriptPartialMatches();
    TranscriptFinalMatches();
    AgentRequestMatches();
    AgentTokenMatches();
    AgentDoneMatches();
    MoodHintMatches();
    NotificationMatches();
    OtaAvailableMatches();
  }
}
