/** Names on the wire (RFC 1035, section 4.1.4), read with bounded pointers and written label by label. */
module Mdns {
  import opened Basics

  type Label = seq<byte>

  const DOT: byte := 0x2E
  const MAX_JUMPS := 8

  predicate IsPointer(b: byte) { b >= 0xC0 }

  function Target(pkt: seq<byte>, at: nat): nat
    requires at + 1 < |pkt| && IsPointer(pkt[at])
  {
    256 * (pkt[at] as int - 0xC0) + pkt[at + 1]
  }

  function Prepend(ls: seq<Label>, r: Option<seq<Label>>): Option<seq<Label>> {
    if r.Some? then Some(ls + r.value) else None
  }

  /** What the bytes at `at` mean: labels, then the root or a pointer to an earlier place, `jumps` of them at most. */
  function Meaning(pkt: seq<byte>, at: nat, jumps: nat): Option<seq<Label>>
    decreases jumps, |pkt| - at
  {
    if at >= |pkt| then None
    else
      var b := pkt[at];
      if IsPointer(b) then
        if at + 1 >= |pkt| || jumps == 0 || Target(pkt, at) >= at then None
        else Meaning(pkt, Target(pkt, at), jumps - 1)
      else if b == 0 then Some([])
      else if b >= 0x40 || at + 1 + b > |pkt| then None
      else Prepend([pkt[at + 1..at + 1 + b]], Meaning(pkt, at + 1 + b, jumps))
  }

  /** Where the name as encoded at `at` ends, whatever a pointer leads to. */
  function NameEnd(pkt: seq<byte>, at: nat): nat
    decreases |pkt| - at
  {
    if at >= |pkt| then 0
    else
      var b := pkt[at];
      if IsPointer(b) then at + 2
      else if b == 0 then at + 1
      else if b >= 0x40 || at + 1 + b > |pkt| then 0
      else NameEnd(pkt, at + 1 + b)
  }

  /** A name with a meaning takes at least one byte and lies within the packet. */
  lemma {:induction false} NameAdvances(pkt: seq<byte>, at: nat, jumps: nat)
    ensures Meaning(pkt, at, jumps).Some? ==> at < NameEnd(pkt, at) <= |pkt|
    decreases |pkt| - at
  {
    if at < |pkt| && !IsPointer(pkt[at]) && 0 < pkt[at] < 0x40 && at + 1 + pkt[at] <= |pkt| {
      NameAdvances(pkt, at + 1 + pkt[at], jumps);
    }
  }

  /** Dotted text. */
  function Join(ls: seq<Label>): Text {
    if ls == [] then []
    else if |ls| == 1 then ls[0]
    else Join(ls[..|ls| - 1]) + [DOT] + ls[|ls| - 1]
  }

  ghost predicate NonEmpty(ls: seq<Label>) { forall i :: 0 <= i < |ls| ==> |ls[i]| > 0 }

  lemma JoinSnoc(ls: seq<Label>, l: Label)
    ensures Join(ls + [l]) == if ls == [] then l else Join(ls) + [DOT] + l
  {
    assert (ls + [l])[..|ls|] == ls;
  }

  lemma {:induction false} JoinCons(l: Label, ls: seq<Label>)
    ensures Join([l] + ls) == if ls == [] then l else l + [DOT] + Join(ls)
  {
    hide Join;
    if ls == [] {
      JoinSnoc([], l);
      assert [] + [l] == [l] + [];
    } else {
      var init, last := ls[..|ls| - 1], ls[|ls| - 1];
      JoinCons(l, init);
      JoinSnoc([l] + init, last);
      JoinSnoc(init, last);
      assert [l] + ls == [l] + init + [last] && ls == init + [last];
      if init != [] { assert l + [DOT] + Join(init) + [DOT] + last == l + [DOT] + (Join(init) + [DOT] + last); }
    }
  }

  /** Text only grows as labels are added. */
  lemma {:induction false} JoinGrows(ls: seq<Label>, more: seq<Label>)
    ensures |Join(ls)| <= |Join(ls + more)|
    decreases |more|
  {
    hide Join;
    if more == [] {
      assert ls + more == ls;
    } else {
      var init, last := more[..|more| - 1], more[|more| - 1];
      JoinGrows(ls, init);
      JoinSnoc(ls + init, last);
      JoinEmpty();
      assert ls + more == ls + init + [last];
    }
  }

  lemma JoinEmpty()
    ensures Join([]) == []
  {}

  // ---------------------------------------------------------------- reading

  lemma MeaningPointer(pkt: seq<byte>, at: nat, jumps: nat)
    requires at < |pkt| && IsPointer(pkt[at])
    ensures Meaning(pkt, at, jumps) ==
            if at + 1 >= |pkt| || jumps == 0 || Target(pkt, at) >= at then None
            else Meaning(pkt, Target(pkt, at), jumps - 1)
    ensures NameEnd(pkt, at) == at + 2
  {}

  lemma MeaningLabel(pkt: seq<byte>, at: nat, jumps: nat)
    requires at < |pkt| && !IsPointer(pkt[at])
    ensures pkt[at] == 0 ==> Meaning(pkt, at, jumps) == Some([]) && NameEnd(pkt, at) == at + 1
    ensures pkt[at] != 0 && (pkt[at] >= 0x40 || at + 1 + pkt[at] > |pkt|) ==> Meaning(pkt, at, jumps) == None
    ensures 0 < pkt[at] < 0x40 && at + 1 + pkt[at] <= |pkt| ==>
            var next := at + 1 + pkt[at];
            && Meaning(pkt, at, jumps) == Prepend([pkt[at + 1..next]], Meaning(pkt, next, jumps))
            && NameEnd(pkt, at) == NameEnd(pkt, next)
  {}

  lemma PrependTwice(a: seq<Label>, b: seq<Label>, r: Option<seq<Label>>)
    ensures Prepend(a, Prepend(b, r)) == Prepend(a + b, r)
  {
    if r.Some? { assert a + (b + r.value) == a + b + r.value; }
  }

  /** Where the reader is: `done` stands in the output, and the rest of the name's meaning lies ahead. */
  ghost predicate Reading(pkt: seq<byte>, at: nat, here: nat, jumps: nat, end: nat, done: seq<Label>, text: seq<byte>) {
    && jumps <= MAX_JUMPS && NonEmpty(done) && text == Join(done)
    && Meaning(pkt, at, MAX_JUMPS) == Prepend(done, Meaning(pkt, here, MAX_JUMPS - jumps))
    && (if end == 0 then NameEnd(pkt, at) == NameEnd(pkt, here) else end == NameEnd(pkt, at))
  }

  lemma ReadingStarts(pkt: seq<byte>, at: nat)
    ensures Reading(pkt, at, at, 0, 0, [], [])
  {
    var m := Meaning(pkt, at, MAX_JUMPS);
    if m.Some? { assert [] + m.value == m.value; }
  }

  lemma ReadingJumps(pkt: seq<byte>, at: nat, here: nat, jumps: nat, end: nat, done: seq<Label>, text: seq<byte>)
    requires Reading(pkt, at, here, jumps, end, done, text) && here < |pkt| && IsPointer(pkt[here])
    ensures if here + 1 >= |pkt| || jumps == MAX_JUMPS || Target(pkt, here) >= here then Meaning(pkt, at, MAX_JUMPS) == None
            else Reading(pkt, at, Target(pkt, here), jumps + 1, if end == 0 then here + 2 else end, done, text)
  {
    hide Meaning, NameEnd, Join;
    MeaningPointer(pkt, here, MAX_JUMPS - jumps);
  }

  lemma ReadingLabel(pkt: seq<byte>, at: nat, here: nat, jumps: nat, end: nat, done: seq<Label>, text: seq<byte>, next: nat)
    requires Reading(pkt, at, here, jumps, end, done, text) && here < |pkt| && 0 < pkt[here] < 0x40
    requires next == here + 1 + pkt[here] <= |pkt|
    ensures var l := pkt[here + 1..next];
            Reading(pkt, at, next, jumps, end, done + [l], if done == [] then l else text + [DOT] + l)
  {
    hide Meaning, NameEnd, Join;
    var l := pkt[here + 1..next];
    MeaningLabel(pkt, here, MAX_JUMPS - jumps);
    PrependTwice(done, [l], Meaning(pkt, next, MAX_JUMPS - jumps));
    JoinSnoc(done, l);
  }

  lemma ReadingStops(pkt: seq<byte>, at: nat, here: nat, jumps: nat, end: nat, done: seq<Label>, text: seq<byte>)
    requires Reading(pkt, at, here, jumps, end, done, text)
    ensures here >= |pkt| ==> Meaning(pkt, at, MAX_JUMPS) == None
    ensures here < |pkt| && 0 < pkt[here] < 0xC0 && (pkt[here] >= 0x40 || here + 1 + pkt[here] > |pkt|) ==>
            Meaning(pkt, at, MAX_JUMPS) == None
    ensures here < |pkt| && pkt[here] == 0 ==>
            Meaning(pkt, at, MAX_JUMPS) == Some(done) && text == Join(done) && NameEnd(pkt, at) == if end == 0 then here + 1 else end
  {
    hide NameEnd, Join;
    if here < |pkt| && !IsPointer(pkt[here]) { MeaningLabel(pkt, here, MAX_JUMPS - jumps); }
    assert done + [] == done;
  }

  /** What has been read is part of whatever the name means. */
  lemma ReadingFits(pkt: seq<byte>, at: nat, here: nat, jumps: nat, end: nat, done: seq<Label>, text: seq<byte>)
    requires Reading(pkt, at, here, jumps, end, done, text)
    ensures var m := Meaning(pkt, at, MAX_JUMPS); m.Some? ==> |text| <= |Join(m.value)|
  {
    hide Meaning, NameEnd, Join;
    var m := Meaning(pkt, here, MAX_JUMPS - jumps);
    if m.Some? { JoinGrows(done, m.value); }
  }

  /** The result promised for a buffer of this size: None when the name has no meaning or does not fit. */
  function NameAt(pkt: seq<byte>, at: nat, cap: nat): Option<Text> {
    match Meaning(pkt, at, MAX_JUMPS)
    case None => None
    case Some(ls) => if |Join(ls)| < cap then Some(Join(ls)) else None
  }

  /** `read_name`: returns the offset past the name, or 0, and leaves terminated text in `out`. */
  method ReadName(pkt: seq<byte>, at: nat, out: array<byte>) returns (end: nat)
    modifies out
    ensures var r := NameAt(pkt, at, out.Length);
            if r.None? then end == 0
            else end == NameEnd(pkt, at) && at < end <= |pkt| && |r.value| < out.Length
                 && out[..|r.value|] == r.value && out[|r.value|] == 0
  {
    hide Meaning, NameEnd, Join, Reading;
    var o: nat, here: nat, jumps: nat := 0, at, 0;
    end := 0;
    if out.Length == 0 { return 0; }
    out[0] := 0;
    ghost var done: seq<Label> := [];
    ReadingStarts(pkt, at);
    while true
      invariant jumps <= MAX_JUMPS && o < out.Length && |done| <= o && (done == [] <==> o == 0)
      invariant Reading(pkt, at, here, jumps, end, done, out[..o])
      decreases MAX_JUMPS - jumps, |pkt| - here
    {
      ReadingStops(pkt, at, here, jumps, end, done, out[..o]);
      if here >= |pkt| { return 0; }
      var size := pkt[here];
      if IsPointer(size) {
        ReadingJumps(pkt, at, here, jumps, end, done, out[..o]);
        if here + 1 >= |pkt| { return 0; }
        jumps := jumps + 1;
        if jumps > MAX_JUMPS { return 0; }
        var target := 256 * (size as int - 0xC0) + pkt[here + 1];
        if end == 0 { end := here + 2; }
        if target >= here { return 0; }
        here := target;
        continue;
      }
      if size == 0 {
        if end == 0 { end := here + 1; }
        break;
      }
      if size >= 0x40 { return 0; }
      if here + 1 + size > |pkt| { return 0; }
      ReadingLabel(pkt, at, here, jumps, end, done, out[..o], here + 1 + size);
      ghost var next := done + [pkt[here + 1..here + 1 + size]];
      ghost var text := if done == [] then pkt[here + 1..here + 1 + size] else out[..o] + [DOT] + pkt[here + 1..here + 1 + size];
      ReadingFits(pkt, at, here + 1 + size, jumps, end, next, text);
      here := here + 1;
      if o != 0 {
        if o + 1 >= out.Length { return 0; }
        out[o] := DOT;
        o := o + 1;
      }
      if o + size >= out.Length { return 0; }
      forall i | 0 <= i < size { out[o + i] := pkt[here + i]; }
      assert out[..o + size] == text;
      o := o + size;
      here := here + size;
      done := next;
    }
    out[o] := 0;
    NameAdvances(pkt, at, MAX_JUMPS);
  }

  // ---------------------------------------------------------------- compression

  predicate Sized(ls: seq<Label>) { forall i :: 0 <= i < |ls| ==> 0 < |ls[i]| < 64 }

  /** Labels in wire form, without what ends the name. */
  function Wire(ls: seq<Label>): seq<byte>
    requires Sized(ls)
  {
    if ls == [] then [] else [|ls[0]|] + ls[0] + Wire(ls[1..])
  }

  ghost predicate Holds(pkt: seq<byte>, at: nat, s: seq<byte>) {
    at + |s| <= |pkt| && pkt[at..at + |s|] == s
  }

  /** A stretch of a stretch. */
  lemma PartOf(pkt: seq<byte>, at: nat, n: nat, from: nat, to: nat)
    requires at + n <= |pkt| && from <= to <= n
    ensures pkt[at..at + n][from..to] == pkt[at + from..at + to]
  {
    var l, r := pkt[at..at + n][from..to], pkt[at + from..at + to];
    assert |l| == |r|;
    forall k | 0 <= k < |l| ensures l[k] == r[k] {
      assert l[k] == pkt[at..at + n][from + k];
    }
  }

  lemma {:induction false} ReadsWire(pkt: seq<byte>, at: nat, ls: seq<Label>, jumps: nat)
    requires Sized(ls) && Holds(pkt, at, Wire(ls))
    ensures Meaning(pkt, at, jumps) == Prepend(ls, Meaning(pkt, at + |Wire(ls)|, jumps))
    ensures NameEnd(pkt, at) == NameEnd(pkt, at + |Wire(ls)|)
    decreases |ls|
  {
    hide Meaning, NameEnd;
    if ls == [] {
      var m := Meaning(pkt, at, jumps);
      if m.Some? { assert [] + m.value == m.value; }
    } else {
      var l, w := ls[0], Wire(ls);
      var next := at + 1 + |l|;
      assert w == [|l|] + l + Wire(ls[1..]);
      var whole := pkt[at..at + |w|];
      assert whole == w;
      assert pkt[at] == whole[0] == |l|;
      PartOf(pkt, at, |w|, 1, 1 + |l|);
      assert w[1..1 + |l|] == l;
      PartOf(pkt, at, |w|, 1 + |l|, |w|);
      assert w[1 + |l|..|w|] == Wire(ls[1..]);
      MeaningLabel(pkt, at, jumps);
      ReadsWire(pkt, next, ls[1..], jumps);
      PrependTwice([l], ls[1..], Meaning(pkt, at + |w|, jumps));
      assert [l] + ls[1..] == ls;
    }
  }

  /** What a name means consists of labels of 1 to 63 bytes. */
  lemma {:induction false} MeaningIsSized(pkt: seq<byte>, at: nat, jumps: nat)
    ensures Meaning(pkt, at, jumps).Some? ==> Sized(Meaning(pkt, at, jumps).value)
    decreases jumps, |pkt| - at
  {
    if at < |pkt| {
      if IsPointer(pkt[at]) {
        if at + 1 < |pkt| && jumps > 0 { MeaningIsSized(pkt, Target(pkt, at), jumps - 1); }
      } else if 0 < pkt[at] < 0x40 && at + 1 + pkt[at] <= |pkt| {
        MeaningIsSized(pkt, at + 1 + pkt[at], jumps);
      }
    }
  }

  /** Allowing more jumps changes no name that already has a meaning. */
  lemma {:induction false} MoreJumps(pkt: seq<byte>, at: nat, few: nat, many: nat)
    requires few <= many && Meaning(pkt, at, few).Some?
    ensures Meaning(pkt, at, many) == Meaning(pkt, at, few)
    decreases few, |pkt| - at
  {
    if IsPointer(pkt[at]) {
      MoreJumps(pkt, Target(pkt, at), few - 1, many - 1);
    } else if pkt[at] != 0 {
      MoreJumps(pkt, at + 1 + pkt[at], few, many);
    }
  }

  /**
   * Labels followed by a pointer to a name read as the same text as the whole name spelled out, wherever
   * that stands, as long as the jumps suffice.
   */
  lemma CompressedIsSpelledOut(
      pkt: seq<byte>, at: nat, front: seq<Label>, back: seq<Label>, target: nat, jumps: nat,
      spelled: seq<byte>, there: nat, cap: nat)
    requires Sized(front) && Holds(pkt, at, Wire(front))
    requires var p := at + |Wire(front)|;
             && p + 1 < |pkt| && target < p && target < 0x4000
             && pkt[p] == 0xC0 + target / 256 && pkt[p + 1] == target % 256
    requires jumps < MAX_JUMPS && Meaning(pkt, target, jumps) == Some(back)
    requires Sized(front + back) && Holds(spelled, there, Wire(front + back) + [0])
    ensures NameAt(pkt, at, cap) == NameAt(spelled, there, cap)
    ensures Meaning(pkt, at, MAX_JUMPS) == Some(front + back) && NameEnd(pkt, at) == at + |Wire(front)| + 2
  {
    hide Meaning, NameEnd, Join, Wire;
    var p := at + |Wire(front)|;
    ReadsWire(pkt, at, front, MAX_JUMPS);
    MeaningPointer(pkt, p, MAX_JUMPS);
    MoreJumps(pkt, target, jumps, MAX_JUMPS - 1);
    ReadsSpelled(spelled, there, front + back, MAX_JUMPS);
  }

  /** The labels `front` are read and at `p` the root follows, or a pointer to an earlier place that means the rest of `ls`. */
  ghost predicate Finishes(pkt: seq<byte>, p: nat, jumps: nat, front: seq<Label>, ls: seq<Label>) {
    && p < |pkt|
    && (|| (pkt[p] == 0 && ls == front)
        || (p + 1 < |pkt| && pkt[p] >= 0xC0 && jumps > 0 &&
            var target := 256 * (pkt[p] as int - 0xC0) + pkt[p + 1];
            target < p && Meaning(pkt, target, jumps - 1).Some? && ls == front + Meaning(pkt, target, jumps - 1).value))
  }

  /**
   * Nothing else has a meaning: labels of 1 to 63 bytes that lie in the packet, then the root, or one of the
   * jumps to an earlier place that has one.
   */
  lemma {:induction false} OnlyNamesMean(pkt: seq<byte>, at: nat, jumps: nat) returns (front: seq<Label>, p: nat)
    requires Meaning(pkt, at, jumps).Some?
    ensures Sized(front) && Holds(pkt, at, Wire(front)) && p == at + |Wire(front)|
    ensures Finishes(pkt, p, jumps, front, Meaning(pkt, at, jumps).value)
    decreases |pkt| - at
  {
    hide Wire, Sized, Meaning, Finishes;
    FirstOfName(pkt, at, jumps);
    var b := pkt[at];
    if IsPointer(b) || b == 0 {
      front, p := [], at;
      EmptyWire(pkt, at);
    } else {
      var l := pkt[at + 1..at + 1 + b];
      var more;
      more, p := OnlyNamesMean(pkt, at + 1 + b, jumps);
      front := [l] + more;
      WireBefore(pkt, at, l, more);
      FinishesBehind(pkt, p, jumps, l, more, Meaning(pkt, at + 1 + b, jumps).value);
    }
  }

  lemma FirstOfName(pkt: seq<byte>, at: nat, jumps: nat)
    requires Meaning(pkt, at, jumps).Some?
    ensures at < |pkt|
    ensures var b, m := pkt[at], Meaning(pkt, at, jumps).value;
            if IsPointer(b) || b == 0 then Finishes(pkt, at, jumps, [], m)
            else b < 64 && at + 1 + b <= |pkt| && Meaning(pkt, at + 1 + b, jumps).Some?
                 && m == [pkt[at + 1..at + 1 + b]] + Meaning(pkt, at + 1 + b, jumps).value
  {
    var m := Meaning(pkt, at, jumps).value;
    assert [] + m == m;
  }

  lemma FinishesBehind(pkt: seq<byte>, p: nat, jumps: nat, l: Label, front: seq<Label>, ls: seq<Label>)
    requires Finishes(pkt, p, jumps, front, ls)
    ensures Finishes(pkt, p, jumps, [l] + front, [l] + ls)
  {
    hide Meaning;
    if pkt[p] != 0 {
      var m := Meaning(pkt, 256 * (pkt[p] as int - 0xC0) + pkt[p + 1], jumps - 1).value;
      assert [l] + (front + m) == [l] + front + m;
    }
  }

  lemma EmptyWire(pkt: seq<byte>, at: nat)
    requires at <= |pkt|
    ensures Wire([]) == [] && Sized([]) && Holds(pkt, at, Wire([]))
  {
    assert pkt[at..at] == [];
  }

  lemma WireBefore(pkt: seq<byte>, at: nat, l: Label, more: seq<Label>)
    requires 1 <= |l| < 64 && at + 1 + |l| <= |pkt| && pkt[at] == |l| && pkt[at + 1..at + 1 + |l|] == l
    requires Sized(more) && Holds(pkt, at + 1 + |l|, Wire(more))
    ensures Sized([l] + more) && Holds(pkt, at, Wire([l] + more)) && |Wire([l] + more)| == 1 + |l| + |Wire(more)|
  {
    var all, w := [l] + more, Wire(more);
    assert all[1..] == more && Wire(all) == [|l|] + l + w;
    var n := 1 + |l| + |w|;
    assert pkt[at..at + n] == [pkt[at]] + pkt[at + 1..at + 1 + |l|] + pkt[at + 1 + |l|..at + n];
  }

  lemma ReadsSpelled(pkt: seq<byte>, at: nat, ls: seq<Label>, jumps: nat)
    requires Sized(ls) && Holds(pkt, at, Wire(ls) + [0])
    ensures Meaning(pkt, at, jumps) == Some(ls) && NameEnd(pkt, at) == at + |Wire(ls)| + 1
  {
    hide Meaning, NameEnd, Wire;
    var w := Wire(ls);
    var p := at + |w|;
    assert pkt[at..p] == (w + [0])[..|w|] == w && pkt[p] == pkt[at..p + 1][|w|] == 0;
    ReadsWire(pkt, at, ls, jumps);
    MeaningLabel(pkt, p, jumps);
    assert ls + [] == ls;
  }

  // ---------------------------------------------------------------- writing

  /** Where the first dot is, or the end. */
  function DotAt(s: Text): (k: nat)
    ensures k <= |s| && DOT !in s[..k] && (k < |s| ==> s[k] == DOT)
  {
    if s == [] || s[0] == DOT then 0 else 1 + DotAt(s[1..])
  }

  function AfterDot(s: Text, k: nat): Text
    requires k <= |s|
  {
    if k < |s| then s[k + 1..] else []
  }

  function Labels(s: Text): seq<Label>
    decreases |s|
  {
    if s == [] then [] else [s[..DotAt(s)]] + Labels(AfterDot(s, DotAt(s)))
  }

  /** The name on the wire, if every label has 1 to 63 bytes and it fits. */
  function Written(s: Text, cap: int): Option<seq<byte>> {
    if Sized(Labels(s)) && |Wire(Labels(s))| + 1 <= cap then Some(Wire(Labels(s)) + [0]) else None
  }

  lemma {:induction false} DotIs(s: Text, k: nat)
    requires k <= |s| && (forall i :: 0 <= i < k ==> s[i] != DOT) && (k < |s| ==> s[k] == DOT)
    ensures DotAt(s) == k
  {
    if k > 0 { DotIs(s[1..], k - 1); }
  }

  /** `strchr`. */
  method FindDot(s: Text, start: nat) returns (k: nat)
    requires start <= |s|
    ensures k == DotAt(s[start..])
  {
    k := 0;
    while start + k < |s| && s[start + k] != DOT
      invariant start + k <= |s| && forall i :: 0 <= i < k ==> s[start..][i] != DOT
    {
      k := k + 1;
    }
    DotIs(s[start..], k);
  }

  lemma LabelsStep(s: Text)
    requires s != []
    ensures DotAt(s) <= |s| && Labels(s) == [s[..DotAt(s)]] + Labels(AfterDot(s, DotAt(s)))
    ensures |AfterDot(s, DotAt(s))| < |s|
  {}

  lemma SizedCons(l: Label, ls: seq<Label>)
    ensures Sized([l] + ls) <==> 0 < |l| < 64 && Sized(ls)
    ensures Sized([l] + ls) ==> Wire([l] + ls) == [|l|] + l + Wire(ls)
  {
    assert ([l] + ls)[1..] == ls;
    if Sized([l] + ls) {
      assert ([l] + ls)[0] == l;
      forall i | 0 <= i < |ls| ensures 0 < |ls[i]| < 64 { assert ([l] + ls)[i + 1] == ls[i]; }
    }
  }

  /** The part of the whole that is still to be written. */
  ghost predicate Writing(name: Text, done: seq<byte>, rest: Text) {
    && (Sized(Labels(name)) <==> Sized(Labels(rest)))
    && (Sized(Labels(name)) ==> Wire(Labels(name)) == done + Wire(Labels(rest)))
  }

  lemma WritingStep(name: Text, done: seq<byte>, rest: Text)
    requires Writing(name, done, rest) && rest != []
    ensures DotAt(rest) <= |rest|
    ensures var l := rest[..DotAt(rest)];
            && (!(0 < |l| < 64) ==> !Sized(Labels(name)))
            && (0 < |l| < 64 ==> Writing(name, done + [|l|] + l, AfterDot(rest, DotAt(rest))))
            && (Sized(Labels(name)) ==> |Wire(Labels(name))| >= |done| + 1 + |l|)
  {
    hide Labels, Wire, DotAt, Sized;
    LabelsStep(rest);
    var l := rest[..DotAt(rest)];
    SizedCons(l, Labels(AfterDot(rest, DotAt(rest))));
    if Sized(Labels(name)) {
      assert done + ([|l|] + l + Wire(Labels(AfterDot(rest, DotAt(rest))))) == done + [|l|] + l + Wire(Labels(AfterDot(rest, DotAt(rest))));
    }
  }

  lemma WritingEnds(name: Text, done: seq<byte>)
    ensures Writing(name, [], name)
    ensures Writing(name, done, []) ==> Sized(Labels(name)) && Wire(Labels(name)) == done
  {
    if Sized(Labels(name)) { assert [] + Wire(Labels(name)) == Wire(Labels(name)); }
    assert Labels([]) == [] && done + [] == done;
  }

  /** `write_name`, at offset `start` of the output. */
  method WriteName(out: array<byte>, start: nat, name: Text) returns (n: nat)
    requires start <= out.Length
    modifies out
    ensures var w := Written(name, out.Length - start);
            if w.None? then n == 0 else n == |w.value| && start + n <= out.Length && out[start..start + n] == w.value
    ensures out[..start] == old(out[..start])
  {
    hide Labels, Wire, DotAt, Sized, Writing;
    var o: nat, p: nat := start, 0;
    WritingEnds(name, []);
    assert name[0..] == name && out[start..start] == [];
    while p < |name|
      invariant start <= o <= out.Length && p <= |name|
      invariant Writing(name, out[start..o], name[p..])
      invariant out[..start] == old(out[..start])
    {
      ghost var rest := name[p..];
      WritingStep(name, out[start..o], rest);
      var k := FindDot(name, p);
      if k == 0 || k > 63 { return 0; }
      if o - start + 1 + k + 1 > out.Length - start { return 0; }
      ghost var done, l := out[start..o], rest[..k];
      out[o] := k;
      o := o + 1;
      forall i | 0 <= i < k { out[o + i] := name[p + i]; }
      assert out[start..o - 1] == done;
      assert out[o..o + k] == l;
      assert out[start..o + k] == done + [k] + l;
      o := o + k;
      p := p + k;
      if p < |name| { p := p + 1; }
      assert name[p..] == AfterDot(rest, k);
    }
    assert name[p..] == [];
    WritingEnds(name, out[start..o]);
    if o - start + 1 > out.Length - start { return 0; }
    ghost var done := out[start..o];
    out[o] := 0;
    assert out[start..o] == done && out[start..o + 1] == done + [0];
    n := o + 1 - start;
  }

  lemma {:induction false} JoinLabels(s: Text)
    requires Sized(Labels(s))
    ensures Join(Labels(s)) == if s != [] && s[|s| - 1] == DOT then s[..|s| - 1] else s
    decreases |s|
  {
    hide Labels, Join, DotAt, Sized;
    if s == [] {
      NoLabels();
      JoinEmpty();
    } else {
      LabelsStep(s);
      var k := DotAt(s);
      var l, rest := s[..k], AfterDot(s, k);
      DotSplits(s);
      SizedCons(l, Labels(rest));
      JoinLabels(rest);
      JoinCons(l, Labels(rest));
      NoLabels();
      if rest != [] { SomeLabels(rest); }
    }
  }

  lemma NoLabels()
    ensures Labels([]) == []
  {}

  lemma SomeLabels(s: Text)
    requires s != []
    ensures Labels(s) != []
  {}

  lemma {:induction false} DotSplits(s: Text)
    requires s != []
    ensures var k := DotAt(s);
            k <= |s| && s == s[..k] + (if k < |s| then [DOT] else []) + AfterDot(s, k)
    ensures var k := DotAt(s); k == |s| ==> s[|s| - 1] != DOT
  {
    hide DotAt;
    DotFacts(s);
    var k := DotAt(s);
    if k == |s| {
      assert s[..k] == s && s[|s| - 1] in s;
    } else {
      assert s == s[..k] + [s[k]] + s[k + 1..];
    }
  }

  lemma {:induction false} DotFacts(s: Text)
    ensures var k := DotAt(s); k <= |s| && DOT !in s[..k] && (k < |s| ==> s[k] == DOT)
  {}

  /** Reading back what was written gives the name, exactly when it does not end in a dot. */
  lemma ReadsBack(name: Text, cap: nat, pkt: seq<byte>, at: nat, textCap: nat)
    requires Written(name, cap).Some? && Holds(pkt, at, Written(name, cap).value) && |name| < textCap
    ensures NameAt(pkt, at, textCap).Some? && NameEnd(pkt, at) == at + |Written(name, cap).value|
    ensures NameAt(pkt, at, textCap) == Some(name) <==> (name == [] || name[|name| - 1] != DOT)
  {
    hide Meaning, NameEnd, Join, Wire, Labels;
    ReadsSpelled(pkt, at, Labels(name), MAX_JUMPS);
    JoinLabels(name);
  }
}
