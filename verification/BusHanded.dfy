/**
 * What a subscriber is handed, and in what order.  The documentation promises each subscriber the events of one
 * publisher in publish order.  That holds for every subscriber but those that coalesce, hold two events or
 * more and want a domain with a snapshot type; for these, it is said here which runs break it.
 */
module BusHanded {
  import opened Basics
  import opened Blob
  import opened BusModel
  import opened BusSteps
  import opened BusSync
  import opened BusOrder

  /** The state a run leads to. */
  function After(k: Kernel, steps: seq<Step>): Kernel
    decreases |steps|
  {
    if steps == [] || !Enabled(k, steps[0]) then k else After(Apply(k, steps[0]), steps[1..])
  }

  lemma {:induction false} RunSplits(k: Kernel, steps: seq<Step>, k': Kernel, n: nat)
    requires Runs(k, steps, k') && n <= |steps|
    ensures Runs(k, steps[..n], After(k, steps[..n])) && Runs(After(k, steps[..n]), steps[n..], k')
    decreases |steps|
  {
    hide Apply, Enabled;
    if n > 0 {
      assert steps[..n][0] == steps[0] && steps[..n][1..] == steps[1..][..n - 1] && steps[n..] == steps[1..][n - 1..];
      RunSplits(Apply(k, steps[0]), steps[1..], k', n - 1);
    } else {
      assert steps[..0] == [] && steps[0..] == steps;
    }
  }

  // ---------------------------------------------------------------- what a step does to one subscriber

  ghost predicate Distinct(h: seq<Event>) {
    forall i, j :: 0 <= i < j < |h| ==> h[i].seqNo != h[j].seqNo
  }

  /** Known already, or numbered later than anything that was. */
  ghost predicate KnownOrLater(k: Kernel, i: nat, e: Event)
    requires i < |k.subs|
  {
    e in k.subs[i].queue || e.seqNo > Bound(k, i)
  }

  /** `t` follows `s`: the receiver has been handed at most the oldest event, nothing old has come in. */
  ghost predicate Follows(k: Kernel, k': Kernel, i: nat)
    requires i < |k.subs|
  {
    && |k'.subs| == |k.subs| &&
    var s, t := k.subs[i], k'.subs[i];
    && t.cfg == s.cfg
    && (t.popped == s.popped || (s.queue != [] && t.popped == s.popped + [s.queue[0]] && t.queue == s.queue[1..]))
    && (forall e :: e in t.queue ==> KnownOrLater(k, i, e))
    && Bound(k', i) >= Bound(k, i)
    && (Distinct(History(s)) ==> Distinct(History(t)))
  }

  lemma BoundGrows(k: Kernel, step: Step, i: nat)
    requires Core(k) && Enabled(k, step)
    ensures Bound(Apply(k, step), i) >= Bound(k, i)
  {
    hide HeapInv, SubsInv, Deliver, AddRef, DropRef, StartAlloc, FinishAlloc, FinishRelease, Outgoing, Enqueue, WellShaped, FreeInRange;
  }

  lemma ElsewhereFollows(k: Kernel, step: Step, i: nat)
    requires Core(k) && Enabled(k, step) && i < |k.subs| && Elsewhere(k, step, i)
    ensures Follows(k, Apply(k, step), i)
  {
    hide Core, Apply, Enabled, Bound, Distinct;
    ElsewhereKeepsHistory(k, step, i);
    BoundGrows(k, step, i);
  }

  lemma PopFollows(k: Kernel, i: nat)
    requires Core(k) && Enabled(k, Pop(i))
    ensures Follows(k, Apply(k, Pop(i)), i)
  {
    hide Core, WellShaped, FreeInRange, Distinct, Bound;
    BoundGrows(k, Pop(i), i);
    PopKeepsHistory(k, i);
  }

  lemma RemoveKeepsDistinct(h: seq<Event>, at: nat)
    requires at < |h| && Distinct(h)
    ensures Distinct(h[..at] + h[at + 1..])
  {
    var h' := h[..at] + h[at + 1..];
    assert forall k :: 0 <= k < |h'| ==> h'[k] == h[if k < at then k else k + 1];
  }

  lemma FlushOneFollows(k: Kernel)
    requires Core(k) && Enabled(k, FlushOne)
    ensures Follows(k, Apply(k, FlushOne), k.lock.i)
  {
    hide Core, WellShaped, FreeInRange, DropRef, Distinct, Bound;
    BoundGrows(k, FlushOne, k.lock.i);
    var s, t := k.subs[k.lock.i], Apply(k, FlushOne).subs[k.lock.i];
    if Distinct(History(s)) { RemoveKeepsDistinct(History(s), |s.popped|); }
    assert History(t) == History(s)[..|s.popped|] + History(s)[|s.popped| + 1..];
  }

  lemma DeliveryFollows(s: Sub, bound: nat, ev: Event)
    requires SubInv(s, bound) && ev.seqNo > bound
    ensures var t := Deliver(s, ev);
            && t.cfg == s.cfg && t.popped == s.popped
            && (forall e :: e in t.queue ==> e in s.queue || e == ev)
            && (Distinct(History(s)) ==> Distinct(History(t)))
  {
    hide Enqueue, FindType, Wanted, OneSnapshotEach, Accounted, IncreasingPerType, Increasing;
    var q, h, p, t := s.queue, History(s), |s.popped|, Deliver(s, ev);
    DeliveredShape(s, ev);
    var at := FindType(q, ev.typ);
    if Distinct(h) {
      if q != [] && t.queue == q[1..] + [ev] {
        RemoveKeepsDistinct(h, p);
        assert History(t) == (h[..p] + h[p + 1..]) + [ev];
      } else if t.queue == q + [ev] {
        assert History(t) == h + [ev];
      } else if at.Some? && at.value < |q| && t.queue == q[at.value := ev] {
        assert History(t) == h[p + at.value := ev];
      }
    }
  }

  lemma PublishOneFollows(k: Kernel)
    requires Core(k) && Enabled(k, PublishOne)
    ensures Follows(k, Apply(k, PublishOne), k.lock.next)
  {
    hide HeapInv, SubInv, Deliver, Distinct, Outgoing, AddRef, WellShaped, FreeInRange;
    BoundGrows(k, PublishOne, k.lock.next);
    var s := k.subs[k.lock.next];
    assert SubInv(s, k.lastSeq - 1);
    if DomainId(k.lock.ev.typ) in s.cfg.domains { DeliveryFollows(s, k.lastSeq - 1, k.lock.ev); }
  }

  lemma StepFollows(k: Kernel, step: Step, i: nat)
    requires Core(k) && Enabled(k, step) && i < |k.subs|
    ensures Follows(k, Apply(k, step), i)
    ensures |Apply(k, step).subs[i].popped| > |k.subs[i].popped| ==> step == Pop(i)
  {
    hide Core, Follows, Apply;
    if Elsewhere(k, step, i) {
      ElsewhereFollows(k, step, i);
      ElsewhereKeepsHistory(k, step, i);
    } else if step.Pop? {
      PopFollows(k, i);
    } else if step.FlushOne? {
      FlushOneFollows(k);
      FlushOneHandsNothing(k);
    } else {
      PublishOneFollows(k);
      PublishOneHandsNothing(k);
    }
  }

  lemma FlushOneHandsNothing(k: Kernel)
    requires Enabled(k, FlushOne)
    ensures |Apply(k, FlushOne).subs| == |k.subs| && Apply(k, FlushOne).subs[k.lock.i].popped == k.subs[k.lock.i].popped
  {
    hide WellShaped, FreeInRange, DropRef;
  }

  lemma PublishOneHandsNothing(k: Kernel)
    requires Enabled(k, PublishOne)
    ensures |Apply(k, PublishOne).subs| == |k.subs|
    ensures Apply(k, PublishOne).subs[k.lock.next].popped == k.subs[k.lock.next].popped
  {
    hide WellShaped, FreeInRange, Outgoing, AddRef, Enqueue;
  }

  // ---------------------------------------------------------------- what a run does to one subscriber

  /** Over a run: what was handed stays, and what is handed later or waits was waiting or came later. */
  ghost predicate Leads(k: Kernel, k': Kernel, i: nat)
    requires i < |k.subs|
  {
    && Core(k') && |k'.subs| == |k.subs| &&
    var s, t := k.subs[i], k'.subs[i];
    && t.cfg == s.cfg && s.popped <= t.popped
    && (forall j :: |s.popped| <= j < |t.popped| ==> KnownOrLater(k, i, t.popped[j]))
    && (Distinct(History(s)) ==> Distinct(History(t)))
  }

  lemma {:induction false} RunLeads(k: Kernel, steps: seq<Step>, k': Kernel, i: nat)
    requires Core(k) && Runs(k, steps, k') && i < |k.subs|
    ensures Leads(k, k', i)
    decreases |steps|
  {
    hide Core, Apply, Enabled, Distinct, Bound;
    if steps != [] {
      var k1 := Apply(k, steps[0]);
      StepKeeps(k, steps[0]);
      StepFollows(k, steps[0], i);
      RunLeads(k1, steps[1..], k', i);
      var s, s1, t := k.subs[i], k1.subs[i], k'.subs[i];
      forall j | |s.popped| <= j < |t.popped| ensures KnownOrLater(k, i, t.popped[j]) {
        if j < |s1.popped| { assert t.popped[j] == s1.popped[j] == s.queue[0]; }
        else { assert KnownOrLater(k1, i, t.popped[j]); }
      }
    }
  }

  /** The step that handed out event `a` of a subscriber. */
  lemma {:induction false} FindPop(k: Kernel, steps: seq<Step>, k': Kernel, i: nat, a: nat) returns (n: nat)
    requires Core(k) && Runs(k, steps, k') && i < |k.subs| && |k'.subs| == |k.subs|
    requires |k.subs[i].popped| <= a < |k'.subs[i].popped|
    ensures n < |steps| && steps[n] == Pop(i)
    ensures var s := After(k, steps[..n]).subs;
            |s| == |k.subs| && |s[i].popped| == a && s[i].queue != [] && s[i].queue[0] == k'.subs[i].popped[a]
    decreases |steps|
  {
    hide Core, Apply, Enabled, Distinct, Bound, KnownOrLater;
    var k1 := Apply(k, steps[0]);
    StepKeeps(k, steps[0]);
    StepFollows(k, steps[0], i);
    RunLeads(k1, steps[1..], k', i);
    if |k1.subs[i].popped| > a {
      n := 0;
      assert steps[..0] == [] && k'.subs[i].popped[a] == k1.subs[i].popped[a];
    } else {
      n := FindPop(k1, steps[1..], k', i, a);
      assert steps[..n + 1][0] == steps[0] && steps[..n + 1][1..] == steps[1..][..n];
      n := n + 1;
    }
  }

  // ---------------------------------------------------------------- out of order, exactly

  /** A receiver is handed an event of a publisher while an older one of that publisher, `f`, waits behind it. */
  predicate HandsAhead(k: Kernel, step: Step, i: nat, mine: Mine, f: Event) {
    step == Pop(i) && i < |k.subs| &&
    var q := k.subs[i].queue;
    q != [] && mine(q[0].seqNo) && f in q[1..] && mine(f.seqNo) && f.seqNo < q[0].seqNo
  }

  /** Step `n` of a run does so. */
  predicate HandedAhead(k: Kernel, steps: seq<Step>, n: nat, i: nat, mine: Mine, f: Event)
    requires n < |steps|
  {
    HandsAhead(After(k, steps[..n]), steps[n], i, mine, f)
  }

  ghost predicate Booted(cfgs: seq<Config>, steps: seq<Step>, k: Kernel, i: nat) {
    (forall j :: 0 <= j < |cfgs| ==> ValidConfig(cfgs[j])) && Runs(Initial(cfgs), steps, k) && i < |cfgs|
  }

  lemma BootLeads(cfgs: seq<Config>, steps: seq<Step>, k: Kernel, i: nat)
    requires Booted(cfgs, steps, k, i)
    ensures i < |cfgs| && Core(k) && |k.subs| == |cfgs| && k.subs[i].cfg == cfgs[i] && Distinct(History(k.subs[i]))
  {
    hide Core, Runs;
    InitialCore(cfgs);
    RunLeads(Initial(cfgs), steps, k, i);
  }

  /** Handing out ahead of an event that is handed out too leaves them out of order. */
  lemma AheadMeansDisorder(cfgs: seq<Config>, steps: seq<Step>, k: Kernel, i: nat, mine: Mine, n: nat, f: Event)
    requires Booted(cfgs, steps, k, i) && n < |steps|
    requires HandedAhead(Initial(cfgs), steps, n, i, mine, f)
    ensures i < |k.subs| && (f in k.subs[i].popped ==> !InOrder(k.subs[i].popped, mine))
  {
    hide Core, Runs, Initial, After, Bound;
    var k0, kn := Initial(cfgs), After(Initial(cfgs), steps[..n]);
    BootLeads(cfgs, steps, k, i);
    RunSplits(k0, steps, k, n);
    BootLeads(cfgs, steps[..n], kn, i);
    var k1 := OneStep(kn, steps[n..], k);
    assert steps[n..][0] == Pop(i);
    PopHands(kn, i);
    StepKeeps(kn, Pop(i));
    RunLeads(k1, steps[n..][1..], k, i);
    var s, p := kn.subs[i], k.subs[i].popped;
    assert forall j :: 0 <= j <= |s.popped| ==> p[j] == History(s)[j];
    if f in p {
      var b :| 0 <= b < |p| && p[b] == f;
      assert p[|s.popped|] == s.queue[0];
      var j :| 0 <= j < |s.queue[1..]| && s.queue[1..][j] == f;
      assert History(s)[|s.popped| + 1 + j] == f;
    }
  }

  lemma OneStep(k: Kernel, steps: seq<Step>, k': Kernel) returns (k1: Kernel)
    requires Runs(k, steps, k') && steps != []
    ensures Enabled(k, steps[0]) && k1 == Apply(k, steps[0]) && Runs(k1, steps[1..], k')
  {
    k1 := Apply(k, steps[0]);
  }

  lemma PopHands(k: Kernel, i: nat)
    requires Enabled(k, Pop(i)) && k.subs[i].queue != []
    ensures var s, t := k.subs[i], Apply(k, Pop(i)).subs;
            |t| == |k.subs| && t[i].popped == s.popped + [s.queue[0]] && t[i].queue == s.queue[1..]
  {
    hide WellShaped, FreeInRange;
  }

  /** Two events handed out of order: when the newer one was, the older one waited behind it. */
  lemma DisorderMeansAhead(cfgs: seq<Config>, steps: seq<Step>, k: Kernel, i: nat, mine: Mine, a: nat, b: nat) returns (n: nat)
    requires Booted(cfgs, steps, k, i) && i < |k.subs| && a < b < |k.subs[i].popped|
    requires var p := k.subs[i].popped; mine(p[a].seqNo) && mine(p[b].seqNo) && p[a].seqNo >= p[b].seqNo
    ensures n < |steps| && HandedAhead(Initial(cfgs), steps, n, i, mine, k.subs[i].popped[b])
  {
    hide Core, Runs, Initial, After, Bound, KnownOrLater;
    var k0, p := Initial(cfgs), k.subs[i].popped;
    BootLeads(cfgs, steps, k, i);
    InitialCore(cfgs);
    NothingHanded(cfgs, i);
    n := FindPop(k0, steps, k, i, a);
    var kn := After(k0, steps[..n]);
    RunSplits(k0, steps, k, n);
    BootLeads(cfgs, steps[..n], kn, i);
    var k1 := OneStep(kn, steps[n..], k);
    PopHands(kn, i);
    StepKeeps(kn, Pop(i));
    RunLeads(k1, steps[n..][1..], k, i);
    BoundGrows(kn, Pop(i), i);
    FrontIsKnown(kn, i);
    assert KnownOrLater(k1, i, p[b]);
    OldWaits(k1, i, p[b]);
    assert History(k.subs[i])[a] == p[a] && History(k.subs[i])[b] == p[b];
  }

  lemma NothingHanded(cfgs: seq<Config>, i: nat)
    requires i < |cfgs|
    ensures |Initial(cfgs).subs| == |cfgs| && Initial(cfgs).subs[i].popped == []
  {}

  lemma FrontIsKnown(k: Kernel, i: nat)
    requires Core(k) && i < |k.subs| && k.subs[i].queue != []
    ensures k.subs[i].queue[0].seqNo <= Bound(k, i)
  {
    hide HeapInv, LockInv, Bound;
    var s := k.subs[i];
    assert SubInv(s, Bound(k, i)) && History(s)[|s.popped|] == s.queue[0];
  }

  lemma OldWaits(k: Kernel, i: nat, e: Event)
    requires i < |k.subs| && KnownOrLater(k, i, e)
    ensures e.seqNo <= Bound(k, i) ==> e in k.subs[i].queue
  {}

  /**
   * The documented promise, run by run: subscriber `i` has been handed a publisher's events in publish order
   * exactly when no pop of the run handed out one of them while an older one that was handed out too still
   * waited behind it.
   */
  lemma HandedInOrderIff(cfgs: seq<Config>, steps: seq<Step>, k: Kernel, i: nat, mine: Mine)
    requires Booted(cfgs, steps, k, i)
    ensures i < |k.subs|
    ensures InOrder(k.subs[i].popped, mine) <==>
            forall n: nat, f: Event :: n < |steps| && f in k.subs[i].popped ==> !HandedAhead(Initial(cfgs), steps, n, i, mine, f)
  {
    hide Booted, HandedAhead;
    BootLeads(cfgs, steps, k, i);
    var p := k.subs[i].popped;
    if InOrder(p, mine) {
      forall n: nat, f: Event | n < |steps| && f in p ensures !HandedAhead(Initial(cfgs), steps, n, i, mine, f) {
        if HandedAhead(Initial(cfgs), steps, n, i, mine, f) { AheadMeansDisorder(cfgs, steps, k, i, mine, n, f); }
      }
    } else {
      var a, b :| 0 <= a < b < |p| && mine(p[a].seqNo) && mine(p[b].seqNo) && p[a].seqNo >= p[b].seqNo;
      var n := DisorderMeansAhead(cfgs, steps, k, i, mine, a, b);
      assert p[b] in p;
    }
  }

  /** Without an overtaking delivery the promise is kept. */
  lemma NoneOvertakesIsEnough(cfgs: seq<Config>, steps: seq<Step>, k: Kernel, i: nat, mine: Mine)
    requires Booted(cfgs, steps, k, i) && NoneOvertakes(Initial(cfgs), steps, i, mine)
    ensures i < |k.subs| && InOrder(k.subs[i].popped, mine)
  {
    hide NoneOvertakes, Runs;
    StandInOrderIff(cfgs, steps, k, i, mine);
    var s := k.subs[i];
    assert forall j :: 0 <= j < |s.popped| ==> (s.popped + s.queue)[j] == s.popped[j];
  }

  // ---------------------------------------------------------------- handing out what waits

  /** Every token and every event taken by one receiver, one after the other. */
  lemma {:induction false} DrainNow(k0: Kernel, steps: seq<Step>, k: Kernel, i: nat) returns (steps': seq<Step>, k': Kernel)
    requires Core(k) && Runs(k0, steps, k) && k.lock.Unlocked? && i < |k.subs| && k.subs[i].tokens >= |k.subs[i].queue|
    ensures Runs(k0, steps', k') && |k'.subs| == |k.subs|
    ensures k'.subs[i].popped == History(k.subs[i]) && k'.subs[i].queue == []
    decreases |k.subs[i].queue|
  {
    hide Core, Runs;
    var s := k.subs[i];
    if s.queue == [] {
      steps', k' := steps, k;
    } else {
      PoolInCore(k);
      var k1 := Apply(k, Take(i));
      StepKeeps(k, Take(i));
      RunSnoc(k0, steps, k, Take(i));
      PoolInCore(k1);
      StepKeeps(k1, Pop(i));
      RunSnoc(k0, steps + [Take(i)], k1, Pop(i));
      PopKeepsHistory(k1, i);
      steps', k' := DrainNow(k0, steps + [Take(i)] + [Pop(i)], Apply(k1, Pop(i)), i);
    }
  }

  lemma PoolInCore(k: Kernel)
    requires Core(k)
    ensures WellShaped(k.heap.pool) && FreeInRange(k.heap.pool)
  {}

  /** Handing out now what waits completes the order exactly if it stands in order now. */
  lemma DrainedInOrderIff(k: Kernel, i: nat, mine: Mine) returns (steps: seq<Step>, k': Kernel)
    requires Inv(k) && k.lock.Unlocked? && i < |k.subs| && k.subs[i].owed == k.subs[i].taken == 0
    ensures Runs(k, steps, k') && |k'.subs| == |k.subs| && k'.subs[i].queue == []
    ensures InOrder(k'.subs[i].popped, mine) <==> InOrder(k.subs[i].popped + k.subs[i].queue, mine)
  {
    hide Core, Runs;
    RunsNowhere(k);
    assert InStep(k.subs[i], Pending(k.lock, i));
    steps, k' := DrainNow(k, [], k, i);
  }

  // ---------------------------------------------------------------- which subscribers are promised too much

  lemma PopAtOne(k0: Kernel, steps: seq<Step>, k: Kernel) returns (steps': seq<Step>, k': Kernel)
    requires Runs(k0, steps, k) && Solo(k) && k.subs[0].tokens > 0 && k.subs[0].queue != []
    ensures steps' == steps + [Take(0), Pop(0)] && Runs(k0, steps', k') && Solo(k')
    ensures var s := k.subs[0];
            k'.subs == [s.(tokens := s.tokens - 1, queue := s.queue[1..], popped := s.popped + [s.queue[0]])]
  {
    hide Runs, WellShaped, FreeInRange;
    var k1;
    steps', k1 := CountAtOne(k0, steps, k, Take(0));
    RunSnoc(k0, steps', k1, Pop(0));
    k' := Apply(k1, Pop(0));
    steps' := steps' + [Pop(0)];
    assert steps + [Take(0)] + [Pop(0)] == steps + [Take(0), Pop(0)];
    var s, t := k.subs[0], k'.subs[0];
    assert forall j :: 0 <= j < |t.queue| ==> t.queue[j] == s.queue[j + 1];
  }

  /** A snapshot, another event and a newer snapshot published, the first two with their wake-ups. */
  lemma ThreePublished(cfg: Config, snapshot: nat, other: nat, payload: int) returns (steps: seq<Step>, k: Kernel)
    requires ValidConfig(cfg) && cfg.coalesce && cfg.depth >= 2
    requires DomainId(snapshot) in cfg.domains && DomainId(other) in cfg.domains
    requires Coalescable(snapshot) && other != snapshot
    ensures Runs(Initial([cfg]), steps, k) && Solo(k) && k.lastSeq == 3
    ensures var s := k.subs[0];
            && s.cfg == cfg && s.popped == [] && s.tokens == 2
            && s.queue == [Event(snapshot, 3, None, payload), Event(other, 2, None, payload)]
  {
    hide Runs, WellShaped, FreeInRange, Enqueue;
    var k0 := Initial([cfg]);
    var a, b, c := Event(snapshot, 1, None, payload), Event(other, 2, None, payload), Event(snapshot, 3, None, payload);
    ThreeDeliveries(cfg, a, b, c);
    BootIsSolo(cfg);
    RunsNowhere(k0);
    steps, k := PublishToOne(k0, [], k0, snapshot, payload);
    steps, k := CountAtOne(k0, steps, k, Give(0));
    steps, k := PublishToOne(k0, steps, k, other, payload);
    steps, k := CountAtOne(k0, steps, k, Give(0));
    steps, k := PublishToOne(k0, steps, k, snapshot, payload);
  }

  /**
   * The promise broken: one publisher publishes a snapshot, something else, and a newer snapshot, and a
   * coalescing subscriber is handed the third event before the second.
   */
  lemma HandedOutOfOrder(cfg: Config, snapshot: nat, other: nat, payload: int) returns (steps: seq<Step>, k: Kernel)
    requires ValidConfig(cfg) && cfg.coalesce && cfg.depth >= 2
    requires DomainId(snapshot) in cfg.domains && DomainId(other) in cfg.domains
    requires Coalescable(snapshot) && other != snapshot
    ensures Runs(Initial([cfg]), steps, k) && k.lock.Unlocked? && |k.subs| == 1
    ensures k.subs[0].popped == [Event(snapshot, 3, None, payload), Event(other, 2, None, payload)]
  {
    hide Runs, WellShaped, FreeInRange, Enqueue;
    steps, k := ThreePublished(cfg, snapshot, other, payload);
    steps, k := PopAtOne(Initial([cfg]), steps, k);
    steps, k := PopAtOne(Initial([cfg]), steps, k);
  }

  lemma ThreeDeliveries(cfg: Config, a: Event, b: Event, c: Event)
    requires cfg.depth >= 2 && cfg.coalesce && Coalescable(a.typ) && c.typ == a.typ && b.typ != a.typ
    ensures Enqueue(cfg, [], a) == Enqueued([a], Queued, None, false)
    ensures Enqueue(cfg, [a], b) == Enqueued([a, b], Queued, None, false)
    ensures Enqueue(cfg, [a, b], c) == Enqueued([c, b], Replaced, Some(a), true)
  {
    assert FindType([a], b.typ) == None;
    assert FindType([a, b], c.typ) == Some(0);
    assert [a, b][0 := c] == [c, b];
  }

  /**
   * An overtaking need not be seen: a second newer snapshot takes the place of the event overtaken, and all
   * that is handed out is in order.
   */
  lemma OvertakenYetInOrder(cfg: Config, first: nat, second: nat, payload: int, mine: Mine)
      returns (steps: seq<Step>, k: Kernel)
    requires ValidConfig(cfg) && cfg.coalesce && cfg.depth >= 2 && first != second
    requires DomainId(first) in cfg.domains && DomainId(second) in cfg.domains
    requires Coalescable(first) && Coalescable(second) && mine(2) && mine(3)
    ensures Runs(Initial([cfg]), steps, k) && !NoneOvertakes(Initial([cfg]), steps, 0, mine)
    ensures k.lock.Unlocked? && |k.subs| == 1 && k.subs[0].queue == []
    ensures k.subs[0].popped == [Event(first, 3, None, payload), Event(second, 4, None, payload)]
    ensures InOrder(k.subs[0].popped, _ => true)
  {
    hide Runs, WellShaped, FreeInRange, Enqueue, NoneOvertakes, Initial;
    var k0 := Initial([cfg]);
    var b, c, d := Event(second, 2, None, payload), Event(first, 3, None, payload), Event(second, 4, None, payload);
    FourthDelivery(cfg, c, b, d);
    steps, k := ThreePublished(cfg, first, second, payload);
    OutOfOrderOvertook(cfg, steps, k, mine);
    steps, k := PublishToOne(k0, steps, k, second, payload);
    steps, k := PopAtOne(k0, steps, k);
    steps, k := PopAtOne(k0, steps, k);
  }

  /** Where a newer event waits in front of an older one, a delivery has overtaken. */
  lemma OutOfOrderOvertook(cfg: Config, steps: seq<Step>, k: Kernel, mine: Mine)
    requires ValidConfig(cfg) && Runs(Initial([cfg]), steps, k) && |k.subs| == 1
    requires var q := k.subs[0].queue;
             k.subs[0].popped == [] && |q| == 2 && q[0].seqNo > q[1].seqNo && mine(q[0].seqNo) && mine(q[1].seqNo)
    ensures forall more: seq<Step> :: steps <= more ==> !NoneOvertakes(Initial([cfg]), more, 0, mine)
  {
    hide Runs, NoneOvertakes;
    var s := k.subs[0];
    StandInOrderIff([cfg], steps, k, 0, mine);
    assert s.popped + s.queue == s.queue;
    forall more: seq<Step> | steps <= more ensures !NoneOvertakes(Initial([cfg]), more, 0, mine) {
      assert more[..|steps|] == steps;
      if NoneOvertakes(Initial([cfg]), more, 0, mine) { NoneOvertakesPrefix(Initial([cfg]), more, 0, mine, |steps|); }
    }
  }

  lemma FourthDelivery(cfg: Config, c: Event, b: Event, d: Event)
    requires cfg.depth >= 2 && cfg.coalesce && Coalescable(b.typ) && d.typ == b.typ && c.typ != b.typ
    ensures Enqueue(cfg, [c, b], d) == Enqueued([c, d], Replaced, Some(b), true)
  {
    assert [c, b][1..] == [b] && FindType([b], d.typ) == Some(0);
    assert FindType([c, b], d.typ) == Some(1);
    assert [c, b][1 := d] == [c, d];
  }

  lemma {:induction false} NoneOvertakesPrefix(k: Kernel, steps: seq<Step>, i: nat, mine: Mine, n: nat)
    requires n <= |steps| && NoneOvertakes(k, steps, i, mine)
    ensures NoneOvertakes(k, steps[..n], i, mine)
    decreases |steps|
  {
    hide Apply, Enabled, Overtakes;
    if n > 0 {
      assert steps[..n][0] == steps[0] && steps[..n][1..] == steps[1..][..n - 1];
      NoneOvertakesPrefix(Apply(k, steps[0]), steps[1..], i, mine, n - 1);
    }
  }

  /** Whoever published what, every publisher's events have been handed out in publish order. */
  ghost predicate HandedInOrder(k: Kernel, i: nat) {
    i < |k.subs| && forall mine: Mine :: InOrder(k.subs[i].popped, mine)
  }

  /** The promise of the documentation, for every run of every system with such a subscriber in it. */
  ghost predicate PromiseKept(cfg: Config) {
    forall cfgs: seq<Config>, steps: seq<Step>, k: Kernel, i: nat ::
      Booted(cfgs, steps, k, i) && cfgs[i] == cfg ==> HandedInOrder(k, i)
  }

  /** A domain that is asked for has a type of which newer events replace older ones. */
  ghost predicate WantsSnapshots(cfg: Config) {
    exists typ :: Coalescable(typ) && DomainId(typ) in cfg.domains
  }

  lemma OvertakingNeeds(s: Sub, ev: Event, mine: Mine)
    requires s.cfg.depth > 0 && |s.queue| <= s.cfg.depth && Overtaking(s, ev, mine)
    ensures s.cfg.coalesce && s.cfg.depth >= 2 && Coalescable(ev.typ)
  {}

  lemma {:induction false} NobodyOvertakes(k: Kernel, steps: seq<Step>, k': Kernel, i: nat, mine: Mine)
    requires Core(k) && Runs(k, steps, k') && i < |k.subs|
    requires var cfg := k.subs[i].cfg; !(cfg.coalesce && cfg.depth >= 2 && WantsSnapshots(cfg))
    ensures NoneOvertakes(k, steps, i, mine)
    decreases |steps|
  {
    hide Core, Apply, Enabled, WantsSnapshots, Coalescable;
    if steps != [] {
      if Overtakes(k, steps[0], i, mine) { OvertakesNeeds(k, steps[0], i, mine); }
      StepKeeps(k, steps[0]);
      StepFollows(k, steps[0], i);
      NobodyOvertakes(Apply(k, steps[0]), steps[1..], k', i, mine);
    }
  }

  lemma OvertakesNeeds(k: Kernel, step: Step, i: nat, mine: Mine)
    requires Core(k) && Enabled(k, step) && i < |k.subs| && Overtakes(k, step, i, mine)
    ensures var cfg := k.subs[i].cfg; cfg.coalesce && cfg.depth >= 2 && WantsSnapshots(cfg)
  {
    hide HeapInv, LockInv, Overtaking, Coalescable;
    assert SubInv(k.subs[i], Bound(k, i));
    OvertakingNeeds(k.subs[i], k.lock.ev, mine);
  }

  /**
   * Subscriber by subscriber: publish order is kept in every run exactly for those that do not coalesce, hold
   * a single event, or want no domain with a snapshot type.
   */
  lemma PromiseKeptIff(cfg: Config)
    requires ValidConfig(cfg)
    ensures PromiseKept(cfg) <==> !(cfg.coalesce && cfg.depth >= 2 && WantsSnapshots(cfg))
  {
    hide PromiseKept;
    if cfg.coalesce && cfg.depth >= 2 && WantsSnapshots(cfg) {
      var snapshot :| Coalescable(snapshot) && DomainId(snapshot) in cfg.domains;
      PromiseBroken(cfg, snapshot);
    } else {
      OthersKeep(cfg);
    }
  }

  lemma OthersKeep(cfg: Config)
    requires !(cfg.coalesce && cfg.depth >= 2 && WantsSnapshots(cfg))
    ensures PromiseKept(cfg)
  {
    hide InOrder, Runs, WantsSnapshots;
    forall cfgs: seq<Config>, steps: seq<Step>, k: Kernel, i: nat | Booted(cfgs, steps, k, i) && cfgs[i] == cfg
      ensures HandedInOrder(k, i)
    {
      BootLeads(cfgs, steps, k, i);
      forall mine: Mine ensures InOrder(k.subs[i].popped, mine) { BootedKeeps(cfgs, steps, k, i, mine); }
    }
  }

  lemma BootedKeeps(cfgs: seq<Config>, steps: seq<Step>, k: Kernel, i: nat, mine: Mine)
    requires Booted(cfgs, steps, k, i)
    requires var cfg := cfgs[i]; !(cfg.coalesce && cfg.depth >= 2 && WantsSnapshots(cfg))
    ensures i < |k.subs| && InOrder(k.subs[i].popped, mine)
  {
    hide Core, Runs, NoneOvertakes, InOrder, WantsSnapshots;
    InitialCore(cfgs);
    NobodyOvertakes(Initial(cfgs), steps, k, i, mine);
    NoneOvertakesIsEnough(cfgs, steps, k, i, mine);
  }

  lemma PromiseBroken(cfg: Config, snapshot: nat)
    requires ValidConfig(cfg) && cfg.coalesce && cfg.depth >= 2 && Coalescable(snapshot) && DomainId(snapshot) in cfg.domains
    ensures !PromiseKept(cfg)
  {
    hide Runs, Initial;
    assert DomainId(snapshot + 1) == DomainId(snapshot);
    var steps, k := HandedOutOfOrder(cfg, snapshot, snapshot + 1, 0);
    var p := k.subs[0].popped;
    var mine: Mine := _ => true;
    assert Booted([cfg], steps, k, 0);
    assert p[0].seqNo > p[1].seqNo && !InOrder(p, mine);
  }
}
