/**
 * The order of what a subscriber has received and what waits for it, taken together.  A publisher's events stand
 * there in publish order exactly as long as no enqueue overwrites a snapshot that others of them have queued
 * up behind.  What of that is really handed out is the subject of `BusHanded`.
 */
module BusOrder {
  import opened Basics
  import opened Blob
  import opened BusModel
  import opened BusSteps
  import opened BusSync

  /** Which events are a given publisher's, told by their sequence numbers. */
  type Mine = nat -> bool

  /** That publisher's events stand in publish order. */
  ghost predicate InOrder(h: seq<Event>, mine: Mine) {
    forall i, j :: 0 <= i < j < |h| && mine(h[i].seqNo) && mine(h[j].seqNo) ==> h[i].seqNo < h[j].seqNo
  }

  /** `ev` takes the place of a queued snapshot and so overtakes what its own publisher has queued up behind. */
  predicate Overtaking(s: Sub, ev: Event, mine: Mine)
    requires s.cfg.depth > 0
  {
    Enqueue(s.cfg, s.queue, ev).coalesced && mine(ev.seqNo)
    && exists k :: FindType(s.queue, ev.typ).value < k < |s.queue| && mine(s.queue[k].seqNo)
  }

  /** One delivery keeps a publisher's events in order exactly when it overtakes none of them. */
  lemma DeliverKeepsSequence(s: Sub, bound: nat, ev: Event, mine: Mine)
    requires SubInv(s, bound) && ev.seqNo > bound && InOrder(History(s), mine)
    ensures InOrder(History(Deliver(s, ev)), mine) <==> !Overtaking(s, ev, mine)
  {
    hide Enqueue, Deliver, Wanted, OneSnapshotEach, Accounted, IncreasingPerType, Increasing, InOrder, FindType;
    var q, h, p := s.queue, History(s), |s.popped|;
    var t := Deliver(s, ev);
    DeliveredShape(s, ev);
    if Enqueue(s.cfg, q, ev).coalesced {
      CoalesceInOrder(s.popped, q, FindType(q, ev.typ).value, ev, mine);
    } else if t.queue == q + [ev] {
      assert History(t) == h + [ev];
      AppendInOrder(h, ev, mine);
    } else if t.queue != q {
      assert History(t) == h[..p] + h[p + 1..] + [ev];
      RemoveInOrder(h, p, mine);
      AppendInOrder(h[..p] + h[p + 1..], ev, mine);
    }
  }

  lemma DeliveredShape(s: Sub, ev: Event)
    requires s.cfg.depth > 0
    ensures var t, at := Deliver(s, ev), FindType(s.queue, ev.typ);
            && t.popped == s.popped
            && if Enqueue(s.cfg, s.queue, ev).coalesced then at.Some? && at.value < |s.queue| && t.queue == s.queue[at.value := ev]
               else t.queue == s.queue || t.queue == s.queue + [ev] || (s.queue != [] && t.queue == s.queue[1..] + [ev])
  {}

  lemma CoalesceInOrder(popped: seq<Event>, q: seq<Event>, at: nat, ev: Event, mine: Mine)
    requires InOrder(popped + q, mine) && at < |q|
    requires forall k :: 0 <= k < |popped + q| ==> (popped + q)[k].seqNo < ev.seqNo
    ensures InOrder(popped + q[at := ev], mine) <==>
            !(mine(ev.seqNo) && exists k :: at < k < |q| && mine(q[k].seqNo))
  {
    hide InOrder;
    var h, p := popped + q, |popped|;
    assert popped + q[at := ev] == h[p + at := ev];
    ReplaceInOrder(h, p + at, ev, mine);
    assert forall k :: 0 <= k < |q| ==> q[k] == h[p + k];
    assert forall k :: p <= k < |h| ==> h[k] == q[k - p];
  }

  lemma AppendInOrder(h: seq<Event>, ev: Event, mine: Mine)
    requires InOrder(h, mine) && forall k :: 0 <= k < |h| ==> h[k].seqNo < ev.seqNo
    ensures InOrder(h + [ev], mine)
  {}

  lemma RemoveInOrder(h: seq<Event>, at: nat, mine: Mine)
    requires InOrder(h, mine) && at < |h|
    ensures InOrder(h[..at] + h[at + 1..], mine)
  {
    var h' := h[..at] + h[at + 1..];
    assert forall k :: 0 <= k < |h'| ==> h'[k] == h[if k < at then k else k + 1];
  }

  lemma ReplaceInOrder(h: seq<Event>, at: nat, ev: Event, mine: Mine)
    requires InOrder(h, mine) && at < |h| && forall k :: 0 <= k < |h| ==> h[k].seqNo < ev.seqNo
    ensures InOrder(h[at := ev], mine) <==> !(mine(ev.seqNo) && exists k :: at < k < |h| && mine(h[k].seqNo))
  {
    var h' := h[at := ev];
    if k :| at < k < |h| && mine(h[k].seqNo) {
      assert h'[k] == h[k] && h'[at].seqNo > h'[k].seqNo;
    } else {
      assert forall k :: at < k < |h'| ==> h'[k] == h[k];
    }
  }

  predicate Overtakes(k: Kernel, step: Step, i: nat, mine: Mine)
    requires Enabled(k, step) && i < |k.subs|
  {
    step == PublishOne && k.lock.next == i
    && DomainId(k.lock.ev.typ) in k.subs[i].cfg.domains && Overtaking(k.subs[i], k.lock.ev, mine)
  }

  /** The step does not touch the queue of subscriber `i`. */
  predicate Elsewhere(k: Kernel, step: Step, i: nat)
    requires Enabled(k, step)
  {
    match step
    case PublishOne => k.lock.next != i
    case Pop(j) => j != i
    case FlushOne => k.lock.i != i
    case _ => true
  }

  lemma ElsewhereKeepsHistory(k: Kernel, step: Step, i: nat)
    requires Enabled(k, step) && i < |k.subs| && Elsewhere(k, step, i)
    ensures |Apply(k, step).subs| == |k.subs|
    ensures var s, t := k.subs[i], Apply(k, step).subs[i];
            t.cfg == s.cfg && t.popped == s.popped && t.queue == s.queue && History(t) == History(s)
  {
    hide Deliver, AddRef, DropRef, StartAlloc, FinishAlloc, FinishRelease, Outgoing, Enqueue;
  }

  lemma PopKeepsHistory(k: Kernel, i: nat)
    requires Enabled(k, Pop(i))
    ensures |Apply(k, Pop(i)).subs| == |k.subs| && History(Apply(k, Pop(i)).subs[i]) == History(k.subs[i])
  {
    hide WellShaped, FreeInRange;
  }

  lemma FlushOneKeepsSequence(k: Kernel, mine: Mine)
    requires Enabled(k, FlushOne) && InOrder(History(k.subs[k.lock.i]), mine)
    ensures |Apply(k, FlushOne).subs| == |k.subs| && InOrder(History(Apply(k, FlushOne).subs[k.lock.i]), mine)
  {
    hide WellShaped, FreeInRange, DropRef, InOrder;
    var s, t := k.subs[k.lock.i], Apply(k, FlushOne).subs[k.lock.i];
    RemoveInOrder(History(s), |s.popped|, mine);
    assert History(t) == History(s)[..|s.popped|] + History(s)[|s.popped| + 1..];
  }

  lemma PublishOneKeepsSequence(k: Kernel, mine: Mine)
    requires Core(k) && Enabled(k, PublishOne) && InOrder(History(k.subs[k.lock.next]), mine)
    ensures |Apply(k, PublishOne).subs| == |k.subs|
    ensures InOrder(History(Apply(k, PublishOne).subs[k.lock.next]), mine) <==> !Overtakes(k, PublishOne, k.lock.next, mine)
  {
    hide HeapInv, SubInv, InOrder, Deliver, Overtaking, Outgoing, AddRef, WellShaped, FreeInRange;
    var s := k.subs[k.lock.next];
    assert SubInv(s, k.lastSeq - 1);
    if DomainId(k.lock.ev.typ) in s.cfg.domains { DeliverKeepsSequence(s, k.lastSeq - 1, k.lock.ev, mine); }
  }

  lemma StepKeepsSequence(k: Kernel, step: Step, i: nat, mine: Mine)
    requires Core(k) && Enabled(k, step) && i < |k.subs| && InOrder(History(k.subs[i]), mine)
    ensures i < |Apply(k, step).subs|
    ensures InOrder(History(Apply(k, step).subs[i]), mine) <==> !Overtakes(k, step, i, mine)
  {
    hide Core, InOrder, History, Apply, Overtaking;
    if Elsewhere(k, step, i) { ElsewhereKeepsHistory(k, step, i); }
    else if step.Pop? { PopKeepsHistory(k, i); }
    else if step.FlushOne? { FlushOneKeepsSequence(k, mine); }
    else { PublishOneKeepsSequence(k, mine); }
  }

  /** In every state of a run, the publisher's events stand in order in what subscriber `i` was and will be handed. */
  ghost predicate InOrderThroughout(k: Kernel, steps: seq<Step>, i: nat, mine: Mine)
    decreases |steps|
  {
    && i < |k.subs| && InOrder(History(k.subs[i]), mine)
    && (steps != [] ==> Enabled(k, steps[0]) && InOrderThroughout(Apply(k, steps[0]), steps[1..], i, mine))
  }

  predicate NoneOvertakes(k: Kernel, steps: seq<Step>, i: nat, mine: Mine)
    decreases |steps|
  {
    steps != [] ==>
      && Enabled(k, steps[0]) && i < |k.subs| && !Overtakes(k, steps[0], i, mine)
      && NoneOvertakes(Apply(k, steps[0]), steps[1..], i, mine)
  }

  lemma {:induction false} SequenceAlong(k: Kernel, steps: seq<Step>, k': Kernel, i: nat, mine: Mine)
    requires Core(k) && Runs(k, steps, k') && i < |k.subs| && InOrder(History(k.subs[i]), mine)
    ensures InOrderThroughout(k, steps, i, mine) <==> NoneOvertakes(k, steps, i, mine)
    ensures NoneOvertakes(k, steps, i, mine) ==> i < |k'.subs| && InOrder(History(k'.subs[i]), mine)
    decreases |steps|
  {
    hide Core, InOrder, History, Apply, Enabled, Overtakes;
    if steps != [] {
      var k1 := Apply(k, steps[0]);
      StepKeepsSequence(k, steps[0], i, mine);
      StepKeeps(k, steps[0]);
      if !Overtakes(k, steps[0], i, mine) { SequenceAlong(k1, steps[1..], k', i, mine); }
      else { assert !InOrderThroughout(k1, steps[1..], i, mine); }
    }
  }

  /**
   * From boot, in any interleaving: a publisher's events stand in publish order at every moment in what
   * subscriber `i` has received and what waits for it exactly when none of that publisher's deliveries to it
   * overwrites a snapshot that others of its events have queued up behind.
   */
  lemma StandInOrderIff(cfgs: seq<Config>, steps: seq<Step>, k: Kernel, i: nat, mine: Mine)
    requires forall j :: 0 <= j < |cfgs| ==> ValidConfig(cfgs[j])
    requires Runs(Initial(cfgs), steps, k) && i < |cfgs|
    ensures InOrderThroughout(Initial(cfgs), steps, i, mine) <==> NoneOvertakes(Initial(cfgs), steps, i, mine)
    ensures NoneOvertakes(Initial(cfgs), steps, i, mine) ==>
              i < |k.subs| && InOrder(k.subs[i].popped + k.subs[i].queue, mine)
  {
    hide Core, Runs, NoneOvertakes, InOrderThroughout;
    InitialCore(cfgs);
    assert History(Initial(cfgs).subs[i]) == [];
    SequenceAlong(Initial(cfgs), steps, k, i, mine);
  }
}
