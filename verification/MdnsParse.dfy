/** Finding the daemon: the query, and the walk over the records of an answer. */
module MdnsParse {
  import opened Basics
  import opened Mdns

  const TYPE_A := 1
  const TYPE_PTR := 12
  const TYPE_SRV := 33
  const NAME_CAP := 128
  const RESULT_CAP := 48

  const NEVOS: Text := [95, 110, 101, 118, 111, 115]
  const TCP: Text := [95, 116, 99, 112]
  const LOCAL: Text := [108, 111, 99, 97, 108]
  /** "_nevos._tcp.local" */
  const SERVICE: Text := NEVOS + [DOT] + TCP + [DOT] + LOCAL

  // ---------------------------------------------------------------- the question

  const HEADER: seq<byte> := [0, 0, 0, 0, 0, 1, 0, 0, 0, 0, 0, 0]
  /** PTR, class IN, unicast response wanted. */
  const QUESTION_END: seq<byte> := [0, 12, 0x80, 1]

  lemma ServiceLabels()
    ensures Labels(SERVICE) == [NEVOS, TCP, LOCAL] && Sized(Labels(SERVICE)) && |Wire(Labels(SERVICE))| == 18
  {
    hide Labels, DotAt;
    var rest := TCP + [DOT] + LOCAL;
    assert SERVICE == NEVOS + [DOT] + rest;
    LabelsOf(NEVOS, rest, true);
    LabelsOf(TCP, LOCAL, true);
    LabelsOf(LOCAL, [], false);
    NoLabels();
    assert LOCAL + [] == LOCAL;
    assert [NEVOS] + ([TCP] + ([LOCAL] + [])) == [NEVOS, TCP, LOCAL];
    SizedCons(LOCAL, []);
    SizedCons(TCP, [LOCAL]);
    SizedCons(NEVOS, [TCP, LOCAL]);
    assert [TCP] + [LOCAL] == [TCP, LOCAL] && [LOCAL] + [] == [LOCAL];
  }

  lemma LabelsOf(l: Label, rest: Text, dotted: bool)
    requires l != [] && DOT !in l && (!dotted ==> rest == [])
    ensures Labels(l + (if dotted then [DOT] else []) + rest) == [l] + Labels(rest)
  {
    hide Labels, DotAt;
    var s := l + (if dotted then [DOT] else []) + rest;
    DotIs(s, |l|);
    LabelsStep(s);
    assert s[..|l|] == l && AfterDot(s, |l|) == rest;
  }

  function Query(): seq<byte>
    requires Sized(Labels(SERVICE))
  {
    HEADER + (Wire(Labels(SERVICE)) + [0]) + QUESTION_END
  }

  /** `nev_mdns_build_query`: one question for the service, exactly when the buffer takes its 35 bytes. */
  method BuildQuery(out: array<byte>) returns (n: nat)
    modifies out
    ensures Sized(Labels(SERVICE)) && |Query()| == 35
    ensures if out.Length < 35 then n == 0 else n == 35 && out[..n] == Query()
  {
    hide Labels, Wire, SERVICE;
    ServiceLabels();
    if out.Length < 12 { return 0; }
    forall i | 0 <= i < 12 { out[i] := 0; }
    out[4] := 0;
    out[5] := 1;
    var o := 12;
    assert out[..12] == HEADER;
    var w := WriteName(out, o, SERVICE);
    if w == 0 { return 0; }
    assert out[..12] == HEADER;
    o := o + w;
    if o + 4 > out.Length { return 0; }
    ghost var before := out[..o];
    assert before == HEADER + out[12..o];
    out[o] := 0;
    out[o + 1] := 12;
    out[o + 2] := 0x80;
    out[o + 3] := 1;
    assert out[..o] == before && out[o..o + 4] == QUESTION_END;
    n := o + 4;
    assert out[..n] == out[..o] + out[o..n];
  }

  /** A responder reads the question as the service's name. */
  lemma QueryAsksForTheService()
    ensures Sized(Labels(SERVICE)) && NameAt(Query(), 12, NAME_CAP) == Some(SERVICE) && NameEnd(Query(), 12) + 4 == |Query()|
  {
    hide Labels, Wire, Meaning, NameEnd, Join;
    ServiceLabels();
    var q, w := Query(), Written(SERVICE, 64).value;
    assert q[12..12 + |w|] == w;
    assert SERVICE[|SERVICE| - 1] == 108;
    ReadsBack(SERVICE, 64, q, 12, NAME_CAP);
  }

  // ---------------------------------------------------------------- comparing names

  function LowerByte(b: byte): byte { if 65 <= b <= 90 then b + 32 else b }

  function Lower(s: Text): (l: Text)
    ensures |l| == |s|
  {
    seq(|s|, i requires 0 <= i < |s| => LowerByte(s[i]))
  }

  /** DNS names are equal whatever their case. */
  predicate SameName(a: Text, b: Text) { Lower(a) == Lower(b) }

  /** `name_eq`. */
  method NameEq(a: Text, b: Text) returns (same: bool)
    ensures same == SameName(a, b)
  {
    var i := 0;
    while i < |a| && i < |b|
      invariant i <= |a| && i <= |b|
      invariant forall k :: 0 <= k < i ==> LowerByte(a[k]) == LowerByte(b[k])
    {
      if LowerByte(a[i]) != LowerByte(b[i]) {
        assert Lower(a)[i] != Lower(b)[i];
        return false;
      }
      i := i + 1;
    }
    same := i == |a| && i == |b|;
    if same { assert Lower(a) == Lower(b); } else { assert |Lower(a)| != |Lower(b)|; }
  }

  /** Something in front of the service name, and the dot between. */
  predicate IsOurInstance(name: Text) {
    && |name| > |SERVICE| + 1
    && name[|name| - |SERVICE| - 1] == DOT && SameName(name[|name| - |SERVICE|..], SERVICE)
  }

  // ---------------------------------------------------------------- the records of a packet

  function U16(pkt: seq<byte>, at: nat): nat
    requires at + 2 <= |pkt|
  {
    256 * (pkt[at] as int) + pkt[at + 1]
  }

  /** A name as the parser holds it: a C string. */
  function NameText(pkt: seq<byte>, at: nat, cap: nat): Option<Text> {
    match NameAt(pkt, at, cap)
    case None => None
    case Some(t) => Some(CString(t))
  }

  datatype Record = Record(owner: Text, kind: nat, rdata: nat, rdlen: nat)

  function RecordAt(pkt: seq<byte>, at: nat): (r: Option<Record>)
    ensures r.Some? ==> r.value.rdata + r.value.rdlen <= |pkt|
  {
    var after := NameEnd(pkt, at);
    match NameText(pkt, at, NAME_CAP)
    case None => None
    case Some(owner) =>
      if after + 10 > |pkt| then None
      else
        var r := Record(owner, U16(pkt, after), after + 10, U16(pkt, after + 8));
        if r.rdata + r.rdlen > |pkt| then None else Some(r)
  }

  function Records(pkt: seq<byte>, at: nat, count: nat): Option<seq<Record>>
    decreases count
  {
    if count == 0 then Some([])
    else match RecordAt(pkt, at)
      case None => None
      case Some(r) =>
        match Records(pkt, r.rdata + r.rdlen, count - 1)
        case None => None
        case Some(rs) => Some([r] + rs)
  }

  function SkipQuestions(pkt: seq<byte>, at: nat, count: nat): Option<nat>
    decreases count
  {
    if count == 0 then Some(at)
    else if NameAt(pkt, at, 256).None? || NameEnd(pkt, at) + 4 > |pkt| then None
    else SkipQuestions(pkt, NameEnd(pkt, at) + 4, count - 1)
  }

  /** The records after the questions, as the header counts them. */
  function AllRecords(pkt: seq<byte>): Option<seq<Record>> {
    if |pkt| < 12 then None
    else match SkipQuestions(pkt, 12, U16(pkt, 4))
      case None => None
      case Some(at) => Records(pkt, at, U16(pkt, 6) + U16(pkt, 8) + U16(pkt, 10))
  }

  /** The walk strictly advances: records lie in the packet one behind the other, header and owner between. */
  lemma {:induction false} RecordsAdvance(pkt: seq<byte>, at: nat, count: nat)
    requires Records(pkt, at, count).Some?
    ensures var rs := Records(pkt, at, count).value;
            && |rs| == count
            && (count > 0 ==> rs[0].rdata >= at + 11)
            && (forall i :: 0 <= i < count ==> rs[i].rdata + rs[i].rdlen <= |pkt|)
            && (forall i, j :: 0 <= i && i + 1 == j < count ==> rs[j].rdata >= rs[i].rdata + rs[i].rdlen + 11)
    decreases count
  {
    hide NameAt, NameEnd, CString;
    if count > 0 {
      var r := RecordAt(pkt, at).value;
      RecordAdvances(pkt, at);
      RecordsAdvance(pkt, r.rdata + r.rdlen, count - 1);
    }
  }

  lemma RecordAdvances(pkt: seq<byte>, at: nat)
    ensures RecordAt(pkt, at).Some? ==> RecordAt(pkt, at).value.rdata >= at + 11
  {
    hide CString, Meaning, NameEnd, Join;
    NameAdvances(pkt, at, MAX_JUMPS);
  }

  // ---------------------------------------------------------------- what the walk makes of them

  datatype Found = Found(instance: Text, target: Text, port: nat, ipv4: nat, aName: Text)

  const NOTHING := Found([], [], 0, 0, [])

  datatype Daemon = Daemon(ipv4: nat, port: nat, name: Text)

  function Address(pkt: seq<byte>, r: Record): nat
    requires r.rdata + 4 <= |pkt|
  {
    65536 * U16(pkt, r.rdata) + U16(pkt, r.rdata + 2)
  }

  function PortOf(pkt: seq<byte>, r: Record): nat
    requires r.rdata + 6 <= |pkt|
  {
    U16(pkt, r.rdata + 4)
  }

  /** One record; None where the parser gives up. */
  function Visit(pkt: seq<byte>, f: Found, r: Record): Option<Found>
    requires r.rdata + r.rdlen <= |pkt|
  {
    if r.kind == TYPE_PTR && SameName(r.owner, SERVICE) && f.instance == [] then
      var n := NameText(pkt, r.rdata, NAME_CAP);
      if n.None? then None else Some(f.(instance := n.value))
    else if r.kind == TYPE_SRV then
      if r.rdlen < 7 then None
      else if !IsOurInstance(r.owner) || (f.instance != [] && !SameName(r.owner, f.instance)) then Some(f)
      else
        var n := NameText(pkt, r.rdata + 6, NAME_CAP);
        if n.None? then None
        else Some(f.(port := PortOf(pkt, r), target := n.value, instance := if f.instance == [] then r.owner else f.instance))
    else if r.kind == TYPE_A && r.rdlen == 4 && f.ipv4 == 0 then
      Some(f.(ipv4 := Address(pkt, r), aName := r.owner))
    else Some(f)
  }

  function Fold(pkt: seq<byte>, f: Found, rs: seq<Record>): Option<Found>
    requires forall i :: 0 <= i < |rs| ==> rs[i].rdata + rs[i].rdlen <= |pkt|
    decreases |rs|
  {
    if rs == [] then Some(f)
    else match Visit(pkt, f, rs[0])
      case None => None
      case Some(g) => Fold(pkt, g, rs[1..])
  }

  predicate Agree(f: Found) {
    f.port != 0 && f.ipv4 != 0 && (f.target == [] || f.aName == [] || SameName(f.target, f.aName))
  }

  /** The name to show is the instance's first label, cut to what the result holds. */
  function ShortName(instance: Text): Text {
    var n := DotAt(instance);
    instance[..if n >= RESULT_CAP then RESULT_CAP - 1 else n]
  }

  function Verdict(f: Found): Option<Daemon> {
    if Agree(f) then Some(Daemon(f.ipv4, f.port, ShortName(f.instance))) else None
  }

  ghost predicate InPacket(pkt: seq<byte>, rs: seq<Record>) {
    forall i :: 0 <= i < |rs| ==> rs[i].rdata + rs[i].rdlen <= |pkt|
  }

  /** What the parser returns. */
  ghost function Parse(pkt: seq<byte>): Option<Daemon> {
    match AllRecords(pkt)
    case None => None
    case Some(rs) =>
      if !InPacket(pkt, rs) then None
      else match Fold(pkt, NOTHING, rs)
        case None => None
        case Some(f) => Verdict(f)
  }

  lemma RecordsInPacket(pkt: seq<byte>)
    ensures AllRecords(pkt).Some? ==> InPacket(pkt, AllRecords(pkt).value)
  {
    hide Records, SkipQuestions;
    if AllRecords(pkt).Some? {
      var at := SkipQuestions(pkt, 12, U16(pkt, 4)).value;
      RecordsAdvance(pkt, at, U16(pkt, 6) + U16(pkt, 8) + U16(pkt, 10));
    }
  }

  // ---------------------------------------------------------------- nothing is made up

  /** A service record of ours, and the address record for its host. */
  ghost predicate Grounds(pkt: seq<byte>, f: Found, rs: seq<Record>, srv: nat, a: nat) {
    && (f.port != 0 ==>
         && srv < |rs| && rs[srv].kind == TYPE_SRV && rs[srv].rdlen >= 7 && rs[srv].rdata + rs[srv].rdlen <= |pkt|
         && IsOurInstance(rs[srv].owner) && PortOf(pkt, rs[srv]) == f.port
         && NameText(pkt, rs[srv].rdata + 6, NAME_CAP) == Some(f.target)
         && SameName(rs[srv].owner, f.instance))
    && (f.ipv4 != 0 ==>
         && a < |rs| && rs[a].kind == TYPE_A && rs[a].rdlen == 4 && rs[a].rdata + rs[a].rdlen <= |pkt|
         && Address(pkt, rs[a]) == f.ipv4 && rs[a].owner == f.aName)
  }

  lemma VisitGrounds(pkt: seq<byte>, f: Found, rs: seq<Record>, r: Record, srv: nat, a: nat) returns (srv': nat, a': nat)
    requires Grounds(pkt, f, rs, srv, a) && r.rdata + r.rdlen <= |pkt| && Visit(pkt, f, r).Some?
    requires f.port != 0 ==> f.instance != []
    ensures Grounds(pkt, Visit(pkt, f, r).value, rs + [r], srv', a')
    ensures Visit(pkt, f, r).value.port != 0 ==> Visit(pkt, f, r).value.instance != []
  {
    hide NameText, U16, SameName;
    SameNameReflexive(r.owner);
    var g := Visit(pkt, f, r).value;
    srv' := if r.kind == TYPE_SRV && g != f then |rs| else srv;
    a' := if r.kind == TYPE_A && g != f then |rs| else a;
    if r.kind == TYPE_SRV && IsOurInstance(r.owner) && (f.instance == [] || SameName(r.owner, f.instance)) { srv' := |rs|; }
    assert (rs + [r])[|rs|] == r;
    assert forall i :: 0 <= i < |rs| ==> (rs + [r])[i] == rs[i];
  }

  lemma SameNameReflexive(s: Text)
    ensures SameName(s, s)
  {}

  lemma {:induction false} FoldGrounds(pkt: seq<byte>, f: Found, before: seq<Record>, rs: seq<Record>, srv: nat, a: nat)
      returns (srv': nat, a': nat)
    requires InPacket(pkt, rs) && Grounds(pkt, f, before, srv, a) && Fold(pkt, f, rs).Some?
    requires f.port != 0 ==> f.instance != []
    ensures Grounds(pkt, Fold(pkt, f, rs).value, before + rs, srv', a')
    decreases |rs|
  {
    hide Grounds, Visit;
    if rs == [] {
      srv', a' := srv, a;
      assert before + rs == before;
    } else {
      srv', a' := VisitGrounds(pkt, f, before, rs[0], srv, a);
      assert before + rs == before + [rs[0]] + rs[1..];
      srv', a' := FoldGrounds(pkt, Visit(pkt, f, rs[0]).value, before + [rs[0]], rs[1..], srv', a');
    }
  }

  /**
   * What is accepted is in the packet: a service record for an instance of our service gives the port, an
   * address record gives the address, and where both name the host they name the same one.
   */
  lemma FoundIsInThePacket(pkt: seq<byte>) returns (rs: seq<Record>, srv: nat, a: nat)
    requires Parse(pkt).Some?
    ensures AllRecords(pkt) == Some(rs) && srv < |rs| && a < |rs| && InPacket(pkt, rs)
    ensures rs[srv].kind == TYPE_SRV && rs[srv].rdlen >= 7 && IsOurInstance(rs[srv].owner)
    ensures rs[a].kind == TYPE_A && rs[a].rdlen == 4
    ensures Parse(pkt).value.port == PortOf(pkt, rs[srv]) != 0 && Parse(pkt).value.ipv4 == Address(pkt, rs[a]) != 0
    ensures var host := NameText(pkt, rs[srv].rdata + 6, NAME_CAP);
            host.Some? && (host.value == [] || rs[a].owner == [] || SameName(host.value, rs[a].owner))
    ensures exists instance :: SameName(rs[srv].owner, instance) && Parse(pkt).value.name == ShortName(instance)
  {
    hide AllRecords, Fold, NameText, ShortName, SameName;
    rs := AllRecords(pkt).value;
    srv, a := FoldGrounds(pkt, NOTHING, [], rs, 0, 0);
    assert [] + rs == rs;
  }

  // ---------------------------------------------------------------- and an honest answer is found

  /** The record speaks of the same instance, host, port and address as the rest, or of something else entirely. */
  ghost predicate Consistent(pkt: seq<byte>, r: Record, instance: Text, host: Text, port: nat, ipv4: nat) {
    && (r.kind == TYPE_PTR && SameName(r.owner, SERVICE) ==>
         var n := NameText(pkt, r.rdata, NAME_CAP); n.Some? && SameName(n.value, instance))
    && (r.kind == TYPE_SRV ==> r.rdlen >= 7)
    && (r.kind == TYPE_SRV && IsOurInstance(r.owner) && r.rdata + r.rdlen <= |pkt| ==>
         && SameName(r.owner, instance) && PortOf(pkt, r) == port
         && (var n := NameText(pkt, r.rdata + 6, NAME_CAP); n.Some? && SameName(n.value, host)))
    && (r.kind == TYPE_A && r.rdlen == 4 && r.rdata + r.rdlen <= |pkt| ==> SameName(r.owner, host) && Address(pkt, r) == ipv4)
  }

  predicate IsOurs(r: Record) { r.kind == TYPE_SRV && IsOurInstance(r.owner) }

  predicate IsAddress(r: Record) { r.kind == TYPE_A && r.rdlen == 4 }

  /** What the walk holds agrees with the story told. */
  ghost predicate OnTrack(f: Found, instance: Text, host: Text, port: nat, ipv4: nat) {
    && (f.instance == [] || SameName(f.instance, instance))
    && (f.port == 0 || (f.port == port && SameName(f.target, host)))
    && (f.ipv4 == 0 || (f.ipv4 == ipv4 && SameName(f.aName, host)))
  }

  lemma VisitStaysOnTrack(pkt: seq<byte>, f: Found, r: Record, instance: Text, host: Text, port: nat, ipv4: nat)
    requires r.rdata + r.rdlen <= |pkt| && port != 0 && ipv4 != 0
    requires Consistent(pkt, r, instance, host, port, ipv4) && OnTrack(f, instance, host, port, ipv4)
    ensures var g := Visit(pkt, f, r);
            && g.Some? && OnTrack(g.value, instance, host, port, ipv4)
            && (f.port != 0 || IsOurs(r) ==> g.value.port != 0)
            && (f.ipv4 != 0 || IsAddress(r) ==> g.value.ipv4 != 0)
  {
    hide NameText, U16, Lower;
  }

  lemma {:induction false} FoldStaysOnTrack(
      pkt: seq<byte>, f: Found, rs: seq<Record>, instance: Text, host: Text, port: nat, ipv4: nat)
    requires InPacket(pkt, rs) && port != 0 && ipv4 != 0 && OnTrack(f, instance, host, port, ipv4)
    requires forall i :: 0 <= i < |rs| ==> Consistent(pkt, rs[i], instance, host, port, ipv4)
    ensures var g := Fold(pkt, f, rs);
            && g.Some? && OnTrack(g.value, instance, host, port, ipv4)
            && (f.port != 0 || (exists i :: 0 <= i < |rs| && IsOurs(rs[i])) ==> g.value.port != 0)
            && (f.ipv4 != 0 || (exists i :: 0 <= i < |rs| && IsAddress(rs[i])) ==> g.value.ipv4 != 0)
    decreases |rs|
  {
    hide Consistent, OnTrack, Visit, IsOurs, IsAddress;
    if rs != [] {
      VisitStaysOnTrack(pkt, f, rs[0], instance, host, port, ipv4);
      var more := rs[1..];
      assert forall i :: 0 <= i < |more| ==> more[i] == rs[i + 1];
      FoldStaysOnTrack(pkt, Visit(pkt, f, rs[0]).value, more, instance, host, port, ipv4);
      if i :| 0 <= i < |rs| && IsOurs(rs[i]) {
        if i > 0 { assert IsOurs(more[i - 1]); }
      }
      if i :| 0 <= i < |rs| && IsAddress(rs[i]) {
        if i > 0 { assert IsAddress(more[i - 1]); }
      }
    }
  }

  /**
   * A well-formed packet whose records about our service and about addresses tell one story is accepted,
   * with that port and address, in whichever order the records come and however often.
   */
  lemma HonestAnswerIsFound(pkt: seq<byte>, rs: seq<Record>, instance: Text, host: Text, port: nat, ipv4: nat)
    requires AllRecords(pkt) == Some(rs) && port != 0 && ipv4 != 0
    requires forall i :: 0 <= i < |rs| ==> Consistent(pkt, rs[i], instance, host, port, ipv4)
    requires (exists i :: 0 <= i < |rs| && IsOurs(rs[i])) && (exists i :: 0 <= i < |rs| && IsAddress(rs[i]))
    ensures Parse(pkt).Some? && Parse(pkt).value.port == port && Parse(pkt).value.ipv4 == ipv4
  {
    hide AllRecords, Fold, Consistent, IsOurs, IsAddress, ShortName;
    RecordsInPacket(pkt);
    FoldStaysOnTrack(pkt, NOTHING, rs, instance, host, port, ipv4);
  }

  // ---------------------------------------------------------------- the programs

  /** A name read into a scratch buffer, as a C string, and the offset past it. */
  method ReadText(pkt: seq<byte>, at: nat, cap: nat) returns (r: Option<Text>, end: nat)
    ensures r == NameText(pkt, at, cap) && (r.Some? ==> end == NameEnd(pkt, at))
  {
    hide NameEnd, NameAt;
    var buf := new byte[cap];
    end := ReadName(pkt, at, buf);
    if end == 0 { return None, 0; }
    var n: nat := 0;
    ghost var t := NameAt(pkt, at, cap).value;
    assert buf[|t|] == 0;
    while n < cap && buf[n] != 0
      invariant n <= |t| && forall i :: 0 <= i < n ==> buf[i] != 0
      decreases |t| - n
    {
      n := n + 1;
    }
    assert forall i :: 0 <= i < |t| ==> buf[..|t|][i] == buf[i] == t[i];
    CStringEnds(t, n);
    assert buf[..n] == t[..n];
    r := Some(buf[..n]);
  }

  /** `nev_mdns_parse`. */
  method ParsePacket(pkt: seq<byte>) returns (result: Option<Daemon>)
    ensures result == Parse(pkt)
  {
    hide SkipQuestions, Records, Fold, NameText, NameAt, NameEnd, Visit, RecordAt, Verdict;
    if |pkt| < 12 { return None; }
    RecordsInPacket(pkt);
    var at := PassQuestions(pkt, U16(pkt, 4));
    if at.None? { return None; }
    var total := U16(pkt, 6) + U16(pkt, 8) + U16(pkt, 10);
    var f := WalkRecords(pkt, at.value, total);
    WalkIsFold(pkt, at.value, total, NOTHING);
    if f.None? { return None; }
    result := Judge(f.value);
  }

  method PassQuestions(pkt: seq<byte>, count: nat) returns (at: Option<nat>)
    ensures at == SkipQuestions(pkt, 12, count)
  {
    hide NameAt, NameEnd;
    var here: nat, i: nat := 12, 0;
    while i < count
      invariant i <= count && SkipQuestions(pkt, 12, count) == SkipQuestions(pkt, here, count - i)
    {
      var scratch := new byte[256];
      var after := ReadName(pkt, here, scratch);
      if after == 0 || after + 4 > |pkt| { return None; }
      here := after + 4;
      i := i + 1;
    }
    at := Some(here);
  }

  /** The records visited as they are read. */
  function Walk(pkt: seq<byte>, at: nat, count: nat, f: Found): Option<Found>
    decreases count
  {
    if count == 0 then Some(f)
    else match RecordAt(pkt, at)
      case None => None
      case Some(r) =>
        match Visit(pkt, f, r)
        case None => None
        case Some(g) => Walk(pkt, r.rdata + r.rdlen, count - 1, g)
  }

  lemma {:induction false} WalkIsFold(pkt: seq<byte>, at: nat, count: nat, f: Found)
    ensures var rs := Records(pkt, at, count);
            Walk(pkt, at, count, f) == if rs.Some? && InPacket(pkt, rs.value) then Fold(pkt, f, rs.value) else None
    decreases count
  {
    hide RecordAt, Visit;
    if count > 0 && RecordAt(pkt, at).Some? {
      var r := RecordAt(pkt, at).value;
      WalkInBounds(pkt, at);
      var g := Visit(pkt, f, r);
      var rest := Records(pkt, r.rdata + r.rdlen, count - 1);
      if g.Some? { WalkIsFold(pkt, r.rdata + r.rdlen, count - 1, g.value); }
      if rest.Some? {
        assert ([r] + rest.value)[1..] == rest.value;
        InPacketCons(pkt, r, rest.value);
      }
    }
  }

  lemma WalkInBounds(pkt: seq<byte>, at: nat)
    ensures RecordAt(pkt, at).Some? ==> RecordAt(pkt, at).value.rdata + RecordAt(pkt, at).value.rdlen <= |pkt|
  {}

  lemma InPacketCons(pkt: seq<byte>, r: Record, rs: seq<Record>)
    ensures InPacket(pkt, [r] + rs) <==> r.rdata + r.rdlen <= |pkt| && InPacket(pkt, rs)
  {
    if InPacket(pkt, [r] + rs) {
      assert ([r] + rs)[0] == r;
      forall i | 0 <= i < |rs| ensures rs[i].rdata + rs[i].rdlen <= |pkt| { assert ([r] + rs)[i + 1] == rs[i]; }
    }
  }

  method WalkRecords(pkt: seq<byte>, start: nat, total: nat) returns (found: Option<Found>)
    ensures found == Walk(pkt, start, total, NOTHING)
  {
    hide RecordAt, Visit;
    var f, at: nat, i: nat := NOTHING, start, 0;
    while i < total
      invariant i <= total && Walk(pkt, at, total - i, f) == Walk(pkt, start, total, NOTHING)
    {
      var r := TakeRecord(pkt, at);
      if r.None? { return None; }
      WalkInBounds(pkt, at);
      var g := VisitRecord(pkt, f, r.value);
      if g.None? { return None; }
      f := g.value;
      at := r.value.rdata + r.value.rdlen;
      i := i + 1;
    }
    found := Some(f);
  }

  method TakeRecord(pkt: seq<byte>, at: nat) returns (r: Option<Record>)
    ensures r == RecordAt(pkt, at)
  {
    hide NameText, NameEnd;
    var owner, after := ReadText(pkt, at, NAME_CAP);
    if owner.None? || after + 10 > |pkt| { return None; }
    var kind := U16(pkt, after);
    var rdlen := U16(pkt, after + 8);
    var rdata := after + 10;
    if rdata + rdlen > |pkt| { return None; }
    r := Some(Record(owner.value, kind, rdata, rdlen));
  }

  method VisitRecord(pkt: seq<byte>, f: Found, r: Record) returns (g: Option<Found>)
    requires r.rdata + r.rdlen <= |pkt|
    ensures g == Visit(pkt, f, r)
  {
    hide NameText, SameName, U16;
    if r.kind == TYPE_PTR {
      var ours := NameEq(r.owner, SERVICE);
      if ours && f.instance == [] {
        var n, _ := ReadText(pkt, r.rdata, NAME_CAP);
        if n.None? { return None; }
        return Some(f.(instance := n.value));
      }
    } else if r.kind == TYPE_SRV {
      if r.rdlen < 7 { return None; }
      var ours := OurInstance(r.owner);
      if !ours { return Some(f); }
      if f.instance != [] {
        var same := NameEq(r.owner, f.instance);
        if !same { return Some(f); }
      }
      var port := U16(pkt, r.rdata + 4);
      var n, _ := ReadText(pkt, r.rdata + 6, NAME_CAP);
      if n.None? { return None; }
      return Some(f.(port := port, target := n.value, instance := if f.instance == [] then r.owner else f.instance));
    } else if r.kind == TYPE_A {
      if r.rdlen == 4 && f.ipv4 == 0 {
        return Some(f.(ipv4 := 65536 * U16(pkt, r.rdata) + U16(pkt, r.rdata + 2), aName := r.owner));
      }
    }
    g := Some(f);
  }

  method OurInstance(name: Text) returns (ours: bool)
    ensures ours == IsOurInstance(name)
  {
    var suffix := |SERVICE| + 1;
    if |name| <= suffix { return false; }
    var same := NameEq(name[|name| - |SERVICE|..], SERVICE);
    ours := name[|name| - suffix] == DOT && same;
  }

  method Judge(f: Found) returns (result: Option<Daemon>)
    ensures result == Verdict(f)
  {
    hide SameName;
    if f.port == 0 || f.ipv4 == 0 { return None; }
    if f.target != [] && f.aName != [] {
      var same := NameEq(f.target, f.aName);
      if !same { return None; }
    }
    var n := FindDot(f.instance, 0);
    assert f.instance[0..] == f.instance;
    if n >= RESULT_CAP { n := RESULT_CAP - 1; }
    result := Some(Daemon(f.ipv4, f.port, f.instance[..n]));
  }
}
