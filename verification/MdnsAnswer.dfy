/**
 * What a daemon answers, byte for byte as RFC 1035 lays a message out, and what the parser makes of it: an answer
 * with its service, its host and its address is found as what it says.
 */
module MdnsAnswer {
  import opened Basics
  import opened Endian
  import opened Mdns
  import opened MdnsParse

  // ---------------------------------------------------------------- a message, section 4.1

  datatype Question = Question(name: seq<Label>, tail: seq<byte>)

  datatype Resource = Resource(owner: seq<Label>, kind: nat, class_: nat, ttl: nat, data: seq<byte>)

  /** A name the parser can hold: labels without NUL, short enough for its buffers. */
  ghost predicate Sayable(ls: seq<Label>, cap: nat) {
    Sized(ls) && |Join(ls)| < cap && 0 !in Join(ls)
  }

  ghost predicate Askable(q: Question) { Sized(q.name) && |Join(q.name)| < 256 && |q.tail| == 4 }

  ghost predicate Answerable(r: Resource) {
    && Sayable(r.owner, NAME_CAP)
    && r.kind < 0x1_0000 && r.class_ < 0x1_0000 && r.ttl < 0x1_0000_0000 && |r.data| < 0x1_0000
  }

  function Spelled(ls: seq<Label>): (s: seq<byte>)
    requires Sized(ls)
    ensures |s| > 0
  {
    Wire(ls) + [0]
  }

  function ResourceBytes(r: Resource): seq<byte>
    requires Sized(r.owner)
  {
    Spelled(r.owner) + (ToBytes(r.kind, 2) + ToBytes(r.class_, 2) + ToBytes(r.ttl, 4) + ToBytes(|r.data|, 2)) + r.data
  }

  ghost predicate AllNamed(qs: seq<Question>) { forall i :: 0 <= i < |qs| ==> Sized(qs[i].name) }

  ghost predicate AllOwned(rs: seq<Resource>) { forall i :: 0 <= i < |rs| ==> Sized(rs[i].owner) }

  function QuestionsBytes(qs: seq<Question>): seq<byte>
    requires AllNamed(qs)
  {
    if qs == [] then [] else Spelled(qs[0].name) + qs[0].tail + QuestionsBytes(qs[1..])
  }

  function ResourcesBytes(rs: seq<Resource>): seq<byte>
    requires AllOwned(rs)
  {
    if rs == [] then [] else ResourceBytes(rs[0]) + ResourcesBytes(rs[1..])
  }

  /** Identifier and flags, the four counts, the questions, and the records of the other three sections. */
  function Message(head: seq<byte>, qs: seq<Question>, an: seq<Resource>, ns: seq<Resource>, ar: seq<Resource>): seq<byte>
    requires AllNamed(qs)
    requires AllOwned(an + ns + ar)
  {
    head + (ToBytes(|qs|, 2) + ToBytes(|an|, 2) + ToBytes(|ns|, 2) + ToBytes(|ar|, 2))
    + QuestionsBytes(qs) + ResourcesBytes(an + ns + ar)
  }

  // ---------------------------------------------------------------- is read as what it is

  lemma HoldsPart(pkt: seq<byte>, at: nat, a: seq<byte>, b: seq<byte>)
    requires Holds(pkt, at, a + b)
    ensures Holds(pkt, at, a) && Holds(pkt, at + |a|, b)
  {
    PartOf(pkt, at, |a + b|, 0, |a|);
    PartOf(pkt, at, |a + b|, |a|, |a + b|);
    assert (a + b)[0..|a|] == a && (a + b)[|a|..|a + b|] == b;
  }

  lemma ReadsU16(pkt: seq<byte>, at: nat, n: nat)
    requires n < 0x1_0000 && Holds(pkt, at, ToBytes(n, 2))
    ensures U16(pkt, at) == n
  {
    Pow256Values();
    BytesOfNumber(n, 2);
    var s := pkt[at..at + 2];
    BigEndian2(s);
    assert s[0] == pkt[at] && s[1] == pkt[at + 1];
  }

  lemma ReadsName(pkt: seq<byte>, at: nat, ls: seq<Label>, cap: nat)
    requires Sized(ls) && |Join(ls)| < cap && Holds(pkt, at, Spelled(ls))
    ensures NameAt(pkt, at, cap) == Some(Join(ls)) && NameEnd(pkt, at) == at + |Spelled(ls)|
    ensures 0 !in Join(ls) ==> NameText(pkt, at, cap) == Some(Join(ls))
  {
    hide Meaning, NameEnd, Join, Wire;
    ReadsSpelled(pkt, at, ls, MAX_JUMPS);
    NulFreeSurvives(Join(ls));
  }

  /** Where the record's data starts. */
  function DataAt(at: nat, r: Resource): nat
    requires Sized(r.owner)
  {
    at + |Spelled(r.owner)| + 10
  }

  lemma ReadsResource(pkt: seq<byte>, at: nat, r: Resource)
    requires Answerable(r) && Holds(pkt, at, ResourceBytes(r))
    ensures RecordAt(pkt, at) == Some(Record(Join(r.owner), r.kind, DataAt(at, r), |r.data|))
    ensures Holds(pkt, DataAt(at, r), r.data) && DataAt(at, r) + |r.data| == at + |ResourceBytes(r)|
  {
    hide Meaning, NameEnd, NameAt, NameText, Join, Wire, ToBytes, U16, Holds;
    var name, fields := Spelled(r.owner), ToBytes(r.kind, 2) + ToBytes(r.class_, 2) + ToBytes(r.ttl, 4) + ToBytes(|r.data|, 2);
    var after := at + |name|;
    FieldWidths(r);
    HoldsPart(pkt, at, name + fields, r.data);
    HoldsPart(pkt, at, name, fields);
    ReadsName(pkt, at, r.owner, NAME_CAP);
    HoldsPart(pkt, after, ToBytes(r.kind, 2) + ToBytes(r.class_, 2) + ToBytes(r.ttl, 4), ToBytes(|r.data|, 2));
    HoldsPart(pkt, after, ToBytes(r.kind, 2) + ToBytes(r.class_, 2), ToBytes(r.ttl, 4));
    HoldsPart(pkt, after, ToBytes(r.kind, 2), ToBytes(r.class_, 2));
    HoldsEnds(pkt, after + 10, r.data);
    ReadsU16(pkt, after, r.kind);
    ReadsU16(pkt, after + 8, |r.data|);
  }

  lemma FieldWidths(r: Resource)
    ensures |ToBytes(r.kind, 2)| == |ToBytes(r.class_, 2)| == |ToBytes(|r.data|, 2)| == 2 && |ToBytes(r.ttl, 4)| == 4
  {
    hide ToBytes;
  }

  lemma HoldsEnds(pkt: seq<byte>, at: nat, s: seq<byte>)
    requires Holds(pkt, at, s)
    ensures at + |s| <= |pkt|
  {}

  /** The records as the parser sees them, the first at `at`. */
  function Placed(at: nat, rs: seq<Resource>): seq<Record>
    requires AllOwned(rs)
    decreases |rs|
  {
    if rs == [] then []
    else [Record(Join(rs[0].owner), rs[0].kind, DataAt(at, rs[0]), |rs[0].data|)] + Placed(at + |ResourceBytes(rs[0])|, rs[1..])
  }

  lemma {:induction false} ReadsResources(pkt: seq<byte>, at: nat, rs: seq<Resource>)
    requires AllOwned(rs) && (forall i :: 0 <= i < |rs| ==> Answerable(rs[i])) && Holds(pkt, at, ResourcesBytes(rs))
    ensures Records(pkt, at, |rs|) == Some(Placed(at, rs))
    decreases |rs|
  {
    hide RecordAt, ResourceBytes, Join, Holds, Answerable;
    if rs != [] {
      assert Answerable(rs[0]);
      HoldsPart(pkt, at, ResourceBytes(rs[0]), ResourcesBytes(rs[1..]));
      ReadsResource(pkt, at, rs[0]);
      ReadsResources(pkt, at + |ResourceBytes(rs[0])|, rs[1..]);
    }
  }

  /** Each record as the parser sees it holds its data. */
  lemma {:induction false} PlacedHolds(pkt: seq<byte>, at: nat, rs: seq<Resource>)
    requires AllOwned(rs) && Holds(pkt, at, ResourcesBytes(rs))
    ensures |Placed(at, rs)| == |rs|
    ensures forall i :: 0 <= i < |rs| ==>
            var p := Placed(at, rs)[i];
            && Holds(pkt, p.rdata, rs[i].data)
            && p == Record(Join(rs[i].owner), rs[i].kind, p.rdata, |rs[i].data|)
    decreases |rs|
  {
    hide Join, Holds, Spelled, ToBytes;
    if rs != [] {
      var r := rs[0];
      FieldWidths(r);
      HoldsPart(pkt, at, ResourceBytes(r), ResourcesBytes(rs[1..]));
      HoldsPart(pkt, at, ResourceBytes(r)[..|Spelled(r.owner)| + 10], r.data);
      PlacedHolds(pkt, at + |ResourceBytes(r)|, rs[1..]);
    }
  }

  lemma {:induction false} SkipsQuestions(pkt: seq<byte>, at: nat, qs: seq<Question>)
    requires AllNamed(qs) && (forall i :: 0 <= i < |qs| ==> Askable(qs[i])) && Holds(pkt, at, QuestionsBytes(qs))
    ensures SkipQuestions(pkt, at, |qs|) == Some(at + |QuestionsBytes(qs)|)
    decreases |qs|
  {
    hide NameAt, NameEnd, Join, Wire, Holds;
    if qs != [] {
      var q := qs[0];
      HoldsPart(pkt, at, Spelled(q.name) + q.tail, QuestionsBytes(qs[1..]));
      HoldsPart(pkt, at, Spelled(q.name), q.tail);
      HoldsEnds(pkt, at + |Spelled(q.name)|, q.tail);
      ReadsName(pkt, at, q.name, 256);
      SkipsQuestions(pkt, at + |Spelled(q.name)| + 4, qs[1..]);
    }
  }

  /** A question at `a` ends at `b`: a name that is read, and four bytes more. */
  predicate AsksTo(pkt: seq<byte>, a: nat, b: nat) {
    NameAt(pkt, a, 256).Some? && b == NameEnd(pkt, a) + 4 <= |pkt|
  }

  /** Where questions start, one behind the other, and where the last ends. */
  ghost predicate Questions(pkt: seq<byte>, starts: seq<nat>) {
    forall i :: 0 <= i < |starts| - 1 ==> AsksTo(pkt, starts[i], starts[i + 1])
  }

  ghost predicate Asked(pkt: seq<byte>, at: nat, count: nat, end: nat, starts: seq<nat>) {
    |starts| == count + 1 && starts[0] == at && starts[count] == end && Questions(pkt, starts)
  }

  lemma {:induction false} PassedAsked(pkt: seq<byte>, at: nat, count: nat) returns (starts: seq<nat>)
    requires SkipQuestions(pkt, at, count).Some?
    ensures Asked(pkt, at, count, SkipQuestions(pkt, at, count).value, starts)
    decreases count
  {
    hide NameAt, NameEnd, Asked, AsksTo;
    if count == 0 {
      starts := [at];
      OneStart(pkt, at);
    } else {
      var next := NameEnd(pkt, at) + 4;
      var more := PassedAsked(pkt, next, count - 1);
      starts := [at] + more;
      StartInFront(pkt, at, next, count - 1, SkipQuestions(pkt, at, count).value, more);
    }
  }

  lemma OneStart(pkt: seq<byte>, at: nat)
    ensures Asked(pkt, at, 0, at, [at])
  {}

  lemma StartInFront(pkt: seq<byte>, at: nat, next: nat, count: nat, end: nat, more: seq<nat>)
    requires Asked(pkt, next, count, end, more) && NameAt(pkt, at, 256).Some? && next == NameEnd(pkt, at) + 4 <= |pkt|
    ensures Asked(pkt, at, count + 1, end, [at] + more)
  {
    hide NameAt, NameEnd;
    var all := [at] + more;
    forall i | 0 <= i < |all| - 1 ensures AsksTo(pkt, all[i], all[i + 1]) {
      if i > 0 { assert all[i] == more[i - 1] && all[i + 1] == more[i]; }
    }
  }

  lemma {:induction false} AskedPassed(pkt: seq<byte>, at: nat, count: nat, end: nat, starts: seq<nat>)
    requires Asked(pkt, at, count, end, starts)
    ensures SkipQuestions(pkt, at, count) == Some(end)
    decreases count
  {
    hide NameAt, NameEnd;
    if count > 0 {
      assert AsksTo(pkt, starts[0], starts[1]);
      var more := starts[1..];
      forall i | 0 <= i < |more| - 1 ensures AsksTo(pkt, more[i], more[i + 1]) {
        assert AsksTo(pkt, starts[i + 1], starts[i + 1 + 1]);
      }
      AskedPassed(pkt, starts[1], count - 1, end, more);
    }
  }

  /** Questions are passed over exactly if all of them are there and read. */
  lemma PassedIff(pkt: seq<byte>, at: nat, count: nat, end: nat)
    ensures SkipQuestions(pkt, at, count) == Some(end) <==> exists starts :: Asked(pkt, at, count, end, starts)
  {
    hide Asked, SkipQuestions;
    if SkipQuestions(pkt, at, count) == Some(end) { var starts := PassedAsked(pkt, at, count); }
    if starts :| Asked(pkt, at, count, end, starts) { AskedPassed(pkt, at, count, end, starts); }
  }

  /** Every record of every section is read, and nothing else. */
  lemma ReadsMessage(head: seq<byte>, qs: seq<Question>, an: seq<Resource>, ns: seq<Resource>, ar: seq<Resource>)
    requires |head| == 4 && |qs| < 0x1_0000 && |an| < 0x1_0000 && |ns| < 0x1_0000 && |ar| < 0x1_0000
    requires AllNamed(qs) && forall i :: 0 <= i < |qs| ==> Askable(qs[i])
    requires AllOwned(an + ns + ar) && forall i :: 0 <= i < |an + ns + ar| ==> Answerable((an + ns + ar)[i])
    ensures AllRecords(Message(head, qs, an, ns, ar)) == Some(Placed(12 + |QuestionsBytes(qs)|, an + ns + ar))
  {
    hide Records, SkipQuestions, QuestionsBytes, ResourcesBytes, ToBytes, U16, Askable, Answerable, Placed, Holds;
    var p := Message(head, qs, an, ns, ar);
    var a, b, c, d := ToBytes(|qs|, 2), ToBytes(|an|, 2), ToBytes(|ns|, 2), ToBytes(|ar|, 2);
    var q, r := QuestionsBytes(qs), ResourcesBytes(an + ns + ar);
    CountWidth(|qs|);
    CountWidth(|an|);
    CountWidth(|ns|);
    CountWidth(|ar|);
    HoldsAll(p);
    assert p == head + (a + b + c + d) + q + r;
    HoldsPart(p, 0, head + (a + b + c + d) + q, r);
    HoldsPart(p, 0, head + (a + b + c + d), q);
    HoldsPart(p, 0, head, a + b + c + d);
    HoldsPart(p, 4, a + b + c, d);
    HoldsPart(p, 4, a + b, c);
    HoldsPart(p, 4, a, b);
    ReadsU16(p, 4, |qs|);
    ReadsU16(p, 6, |an|);
    ReadsU16(p, 8, |ns|);
    ReadsU16(p, 10, |ar|);
    SkipsQuestions(p, 12, qs);
    ReadsResources(p, 12 + |q|, an + ns + ar);
  }

  lemma MessageHolds(head: seq<byte>, qs: seq<Question>, an: seq<Resource>, ns: seq<Resource>, ar: seq<Resource>)
    requires |head| == 4 && AllNamed(qs) && AllOwned(an + ns + ar)
    ensures Holds(Message(head, qs, an, ns, ar), 12 + |QuestionsBytes(qs)|, ResourcesBytes(an + ns + ar))
  {
    hide QuestionsBytes, ResourcesBytes, ToBytes, Holds;
    var p := Message(head, qs, an, ns, ar);
    CountWidth(|qs|);
    CountWidth(|an|);
    CountWidth(|ns|);
    CountWidth(|ar|);
    HoldsAll(p);
    var r := ResourcesBytes(an + ns + ar);
    HoldsPart(p, 0, p[..12 + |QuestionsBytes(qs)|], r);
  }

  lemma CountWidth(n: nat)
    ensures |ToBytes(n, 2)| == 2
  {}

  lemma HoldsAll(p: seq<byte>)
    ensures Holds(p, 0, p)
  {}

  // ---------------------------------------------------------------- a daemon's answer

  const SERVICE_LABELS: seq<Label> := [NEVOS, TCP, LOCAL]

  lemma ServiceJoins()
    ensures Sized(SERVICE_LABELS) && Join(SERVICE_LABELS) == SERVICE
  {
    assert SERVICE_LABELS[..2] == [NEVOS, TCP] && [NEVOS, TCP][..1] == [NEVOS];
    assert Join([NEVOS]) == NEVOS;
    assert Join([NEVOS, TCP]) == NEVOS + [DOT] + TCP;
  }

  /** The service points at the instance, the instance at host and port, and the host has an address. */
  function Answer(instance: Label, host: seq<Label>, port: nat, address: seq<byte>, class_: nat, ttl: nat, order: seq<byte>): seq<Resource>
    requires Sized([instance] + SERVICE_LABELS) && Sized(host)
  {
    [Resource(SERVICE_LABELS, 12, class_, ttl, Spelled([instance] + SERVICE_LABELS)),
     Resource([instance] + SERVICE_LABELS, 33, class_, ttl, order + ToBytes(port, 2) + Spelled(host)),
     Resource(host, 1, class_, ttl, address)]
  }

  /** An instance under our name: anything in front, a dot, and the service in any case. */
  lemma OurInstanceIff(name: Text)
    ensures IsOurInstance(name) <==> exists front, tail: Text :: front != [] && SameName(tail, SERVICE) && name == front + [DOT] + tail
  {
    if IsOurInstance(name) {
      var at := |name| - |SERVICE| - 1;
      assert name == name[..at] + [DOT] + name[at + 1..];
    }
    if front, tail: Text :| front != [] && SameName(tail, SERVICE) && name == front + [DOT] + tail {
      assert |tail| == |Lower(tail)| == |SERVICE|;
      assert name[|front|] == DOT && name[|front| + 1..] == tail;
    }
  }

  const CAPITALS := "ABCDEFGHIJKLMNOPQRSTUVWXYZ"
  const SMALL := "abcdefghijklmnopqrstuvwxyz"

  /** Case is that of the twenty-six letters, and of no other byte. */
  lemma LowerIs(b: byte)
    ensures forall i :: 0 <= i < 26 ==> LowerByte(CAPITALS[i] as int) == SMALL[i] as int
    ensures (forall i :: 0 <= i < 26 ==> b != CAPITALS[i] as int) ==> LowerByte(b) == b
  {
    forall i | 0 <= i < 26 ensures CAPITALS[i] as int == 65 + i && SMALL[i] as int == 97 + i {
      Alphabet(i);
    }
    if 65 <= b <= 90 { assert CAPITALS[b - 65] as int == b; }
  }

  lemma Alphabet(i: nat)
    requires i < 26
    ensures CAPITALS[i] as int == 65 + i && SMALL[i] as int == 97 + i
  {}

  /** The first label, as far as the result holds it. */
  function Cut(instance: Label): Text { if |instance| > 47 then instance[..47] else instance }

  ghost predicate Daemonic(instance: Label, host: seq<Label>, port: nat, address: seq<byte>) {
    && 0 < |instance| < 64 && 0 !in instance && DOT !in instance
    && Sayable(host, NAME_CAP) && 0 < port < 0x1_0000 && |address| == 4 && BigEndian(address) != 0
  }

  lemma InstanceJoins(instance: Label)
    requires 0 < |instance| < 64 && 0 !in instance
    ensures var ls := [instance] + SERVICE_LABELS; Sayable(ls, NAME_CAP) && Join(ls) == instance + [DOT] + SERVICE
  {
    hide Join;
    ServiceJoins();
    JoinCons(instance, SERVICE_LABELS);
  }

  lemma CutIs(instance: Label, rest: Text)
    requires DOT !in instance
    ensures ShortName(instance + [DOT] + rest) == Cut(instance)
  {
    var name := instance + [DOT] + rest;
    assert name[|instance|] == DOT;
    assert forall i :: 0 <= i < |instance| ==> name[i] == instance[i];
    DotIs(name, |instance|);
    assert name[..|instance|] == instance;
    if |instance| > 47 { assert name[..47] == instance[..47]; }
  }

  lemma {:induction false} SpelledIsShort(ls: seq<Label>)
    requires Sized(ls)
    ensures |Spelled(ls)| <= |Join(ls)| + 2
    decreases |ls|
  {
    hide Join;
    if ls != [] {
      SpelledIsShort(ls[1..]);
      JoinCons(ls[0], ls[1..]);
      JoinEmpty();
      assert ls == [ls[0]] + ls[1..];
    }
  }

  lemma AnswerFits(instance: Label, host: seq<Label>, port: nat, address: seq<byte>, class_: nat, ttl: nat, order: seq<byte>)
    requires Daemonic(instance, host, port, address) && class_ < 0x1_0000 && ttl < 0x1_0000_0000 && |order| == 4
    ensures Sized([instance] + SERVICE_LABELS) && Sized(host)
    ensures var rs := Answer(instance, host, port, address, class_, ttl, order);
            AllOwned(rs) && forall i :: 0 <= i < |rs| ==> Answerable(rs[i])
  {
    hide Join, ToBytes, Wire;
    InstanceJoins(instance);
    ServiceJoins();
    SpelledIsShort(host);
    SpelledIsShort([instance] + SERVICE_LABELS);
  }

  /** The three records say what they should to the parser, wherever they lie. */
  lemma AnswerFolds(pkt: seq<byte>, a: nat, b: nat, c: nat, rs: seq<Record>,
                    instance: Label, host: seq<Label>, port: nat, address: seq<byte>, order: seq<byte>)
    requires Daemonic(instance, host, port, address) && |order| == 4 && Sized([instance] + SERVICE_LABELS)
    requires Holds(pkt, a, Spelled([instance] + SERVICE_LABELS))
    requires Holds(pkt, b, order + ToBytes(port, 2) + Spelled(host)) && Holds(pkt, c, address)
    requires var full := instance + [DOT] + SERVICE;
             rs == [Record(SERVICE, 12, a, |Spelled([instance] + SERVICE_LABELS)|),
                    Record(full, 33, b, 6 + |Spelled(host)|), Record(Join(host), 1, c, 4)]
    ensures InPacket(pkt, rs)
    ensures Fold(pkt, NOTHING, rs) ==
            Some(Found(instance + [DOT] + SERVICE, Join(host), port, BigEndian(address), Join(host)))
  {
    hide Join, Wire, NameText, NameAt, NameEnd, Meaning, Lower, U16, Holds, IsOurInstance, ToBytes, BigEndian;
    var full := instance + [DOT] + SERVICE;
    InstanceJoins(instance);
    SameNameReflexive(SERVICE);
    SameNameReflexive(full);
    OurInstanceIff(full);
    ReadsName(pkt, a, [instance] + SERVICE_LABELS, NAME_CAP);
    HoldsEnds(pkt, a, Spelled([instance] + SERVICE_LABELS));
    HoldsEnds(pkt, b, order + ToBytes(port, 2) + Spelled(host));
    HoldsEnds(pkt, c, address);
    HoldsPart(pkt, b, order + ToBytes(port, 2), Spelled(host));
    HoldsPart(pkt, b, order, ToBytes(port, 2));
    ReadsU16(pkt, b + 4, port);
    ReadsName(pkt, b + 6, host, NAME_CAP);
    ReadsAddress(pkt, rs[2], address);
    var f := Found(full, [], 0, 0, []);
    var g := Found(full, Join(host), port, 0, []);
    var h := Found(full, Join(host), port, BigEndian(address), Join(host));
    assert Visit(pkt, NOTHING, rs[0]) == Some(f);
    assert Visit(pkt, f, rs[1]) == Some(g);
    assert Visit(pkt, g, rs[2]) == Some(h);
    FoldThree(pkt, rs, f, g, h);
  }

  lemma FoldThree(pkt: seq<byte>, rs: seq<Record>, f: Found, g: Found, h: Found)
    requires |rs| == 3 && InPacket(pkt, rs)
    requires Visit(pkt, NOTHING, rs[0]) == Some(f) && Visit(pkt, f, rs[1]) == Some(g) && Visit(pkt, g, rs[2]) == Some(h)
    ensures Fold(pkt, NOTHING, rs) == Some(h)
  {
    hide Visit;
    assert rs[1..][0] == rs[1] && rs[1..][1..] == [rs[2]];
    assert Fold(pkt, g, [rs[2]]) == Some(h);
    assert Fold(pkt, f, rs[1..]) == Some(h);
  }

  lemma ReadsAddress(pkt: seq<byte>, r: Record, address: seq<byte>)
    requires |address| == 4 && Holds(pkt, r.rdata, address)
    ensures r.rdata + 4 <= |pkt| && Address(pkt, r) == BigEndian(address)
  {
    BigEndian4(address);
    assert forall i :: 0 <= i < 4 ==> pkt[r.rdata + i] == pkt[r.rdata..r.rdata + 4][i] == address[i];
  }

  lemma AnswerCount(instance: Label, host: seq<Label>, port: nat, address: seq<byte>, class_: nat, ttl: nat, order: seq<byte>)
    requires Sized([instance] + SERVICE_LABELS) && Sized(host)
    ensures |Answer(instance, host, port, address, class_, ttl, order)| == 3
  {}

  lemma AnswerPlaced(pkt: seq<byte>, at: nat,
                     instance: Label, host: seq<Label>, port: nat, address: seq<byte>, class_: nat, ttl: nat, order: seq<byte>)
    requires Daemonic(instance, host, port, address) && |order| == 4
    requires Sized([instance] + SERVICE_LABELS) && Sized(host)
    requires var rs := Answer(instance, host, port, address, class_, ttl, order);
             AllOwned(rs) && Holds(pkt, at, ResourcesBytes(rs))
    ensures var seen := Placed(at, Answer(instance, host, port, address, class_, ttl, order));
            && InPacket(pkt, seen)
            && Fold(pkt, NOTHING, seen) ==
               Some(Found(instance + [DOT] + SERVICE, Join(host), port, BigEndian(address), Join(host)))
  {
    hide Join, Wire, Holds, ToBytes, BigEndian, Placed, Fold, ResourcesBytes, Spelled, IsOurInstance;
    var rs := Answer(instance, host, port, address, class_, ttl, order);
    PlacedHolds(pkt, at, rs);
    var seen := Placed(at, rs);
    InstanceJoins(instance);
    ServiceJoins();
    AnswerFolds(pkt, seen[0].rdata, seen[1].rdata, seen[2].rdata, seen, instance, host, port, address, order);
  }

  /**
   * The answer a daemon sends, however its three records are spread over the sections and whatever was asked, is
   * found as the daemon it speaks of: its address, its port, and its name as far as there is room for it.
   */
  lemma DaemonFound(head: seq<byte>, qs: seq<Question>, an: seq<Resource>, ns: seq<Resource>, ar: seq<Resource>,
                    instance: Label, host: seq<Label>, port: nat, address: seq<byte>, class_: nat, ttl: nat, order: seq<byte>)
    requires |head| == 4 && |qs| < 0x1_0000 && AllNamed(qs) && forall i :: 0 <= i < |qs| ==> Askable(qs[i])
    requires Daemonic(instance, host, port, address) && class_ < 0x1_0000 && ttl < 0x1_0000_0000 && |order| == 4
    requires Sized([instance] + SERVICE_LABELS) && Sized(host) && AllOwned(an + ns + ar)
    requires an + ns + ar == Answer(instance, host, port, address, class_, ttl, order)
    ensures Parse(Message(head, qs, an, ns, ar)) == Some(Daemon(BigEndian(address), port, Cut(instance)))
  {
    hide Message, AllRecords, Fold, Placed, Join, Wire, ToBytes, BigEndian, ShortName, Askable, Answerable, Answer;
    var rs := an + ns + ar;
    var pkt := Message(head, qs, an, ns, ar);
    AnswerFits(instance, host, port, address, class_, ttl, order);
    AnswerCount(instance, host, port, address, class_, ttl, order);
    ReadsMessage(head, qs, an, ns, ar);
    MessageHolds(head, qs, an, ns, ar);
    var at := 12 + |QuestionsBytes(qs)|;
    PlacedHolds(pkt, at, rs);
    AnswerPlaced(pkt, at, instance, host, port, address, class_, ttl, order);
    CutIs(instance, SERVICE);
    SameNameReflexive(Join(host));
  }
}
