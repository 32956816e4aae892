/** Releases, flushes and deliveries as runs of the step system, in the order the code makes the steps. */
module BusRuns {
  import opened Basics
  import opened Blob
  import opened BusModel
  import opened BusSteps
  import opened BusSync
  import opened EventBus
  import BP = BlobPool

  /** A heap with nothing half done. */
  function Still(p: Pool): Heap { Heap(p, multiset{}, multiset{}, true) }

  lemma {:induction false} RunsOn(k: Kernel, steps: seq<Step>, k1: Kernel, more: seq<Step>, k2: Kernel)
    requires Runs(k, steps, k1) && Runs(k1, more, k2)
    ensures Runs(k, steps + more, k2)
    decreases |steps|
  {
    hide Apply, Enabled;
    if steps == [] {
      assert steps + more == more;
    } else {
      assert (steps + more)[1..] == steps[1..] + more;
      RunsOn(Apply(k, steps[0]), steps[1..], k1, more, k2);
    }
  }

  /** A decrement is followed by the push it calls for, if it does: together, a release of the pool. */
  lemma SettleIsRun(k0: Kernel, steps: seq<Step>, k: Kernel, p: Pool, r: Option<Block>) returns (steps': seq<Step>)
    requires Core(k) && Runs(k0, steps, k)
    requires WellShaped(p) && (r.Some? ==> Refs(p, r.value) > 0) && k.heap == DropRef(Still(p), r)
    ensures var k' := k.(heap := Still(BP.Released(p, r))); Core(k') && Runs(k0, steps', k')
  {
    hide Core, Runs, SetRefs, PushFree;
    steps' := steps;
    if r.Some? && Refs(p, r.value) == 1 {
      var step := FreePush(r.value);
      CorePool(k);
      StepKeeps(k, step);
      RunSnoc(k0, steps, k, step);
      steps' := steps + [step];
      CorePool(Apply(k, step));
      assert multiset{r.value} - multiset{r.value} == multiset{};
      assert Apply(k, step) == k.(heap := Still(BP.Released(p, r)));
    } else {
      assert k.(heap := Still(BP.Released(p, r))) == k;
    }
  }

  lemma CorePool(k: Kernel)
    requires Core(k)
    ensures WellShaped(k.heap.pool) && FreeInRange(k.heap.pool) && k.heap.ok
  {}

  /** Nothing a ring holds is uncounted. */
  lemma RingIsCovered(k: Kernel, i: nat)
    requires Core(k) && i < |k.subs| && Gone(k.lock) == None
    ensures WellShaped(k.heap.pool) && FreeInRange(k.heap.pool)
    ensures Covers(k.heap.pool, k.subs[i].queue, Loan(k.lock)) && Covers(k.heap.pool, k.subs[i].queue, None)
  {
    forall b: Block ensures Refs(k.heap.pool, b) >= Held(k.subs[i].queue, b) + Holds(Loan(k.lock), b) {
      HeldByAllCovers(k.subs, i, b);
      assert Refs(k.heap.pool, b) == Owners(k)(b);
    }
  }

  // ---------------------------------------------------------------- a flush nobody races

  /** A subscriber whose ring has been emptied, its semaphore not yet. */
  function Emptied(s: Sub): Sub { s.(queue := [], flushed := s.flushed + |s.queue|) }

  /** A subscriber with ring and semaphore emptied. */
  function Flushed(s: Sub): Sub { Emptied(s).(tokens := 0) }

  function AfterEmptying(k: Kernel, i: nat): Kernel
    requires i < |k.subs| && WellShaped(k.heap.pool)
  {
    k.(heap := Still(ReleasedAll(k.heap.pool, k.subs[i].queue)), subs := k.subs[i := Emptied(k.subs[i])])
  }

  lemma OneFlushed(k0: Kernel, steps: seq<Step>, k: Kernel, i: nat) returns (steps': seq<Step>, k': Kernel)
    requires Core(k) && Runs(k0, steps, k) && k.lock == Flushing(i) && k.heap == Still(k.heap.pool)
    requires i < |k.subs| && k.subs[i].queue != []
    ensures Core(k') && Runs(k0, steps', k') && WellShaped(k.heap.pool)
    ensures var s := k.subs[i];
            k' == k.(heap := Still(BP.Released(k.heap.pool, s.queue[0].blob)),
                     subs := k.subs[i := s.(queue := s.queue[1..], flushed := s.flushed + 1)])
  {
    hide Core, Runs, Covers, DropRef, BP.Released, WellShaped, FreeInRange;
    RingIsCovered(k, i);
    StillHeld(k.heap.pool, k.subs[i].queue, 0, None);
    StepKeeps(k, FlushOne);
    RunSnoc(k0, steps, k, FlushOne);
    var k1 := Apply(k, FlushOne);
    steps' := SettleIsRun(k0, steps + [FlushOne], k1, k.heap.pool, k.subs[i].queue[0].blob);
    k' := k1.(heap := Still(BP.Released(k.heap.pool, k.subs[i].queue[0].blob)));
  }

  lemma {:induction false} EmptyingIsRun(k0: Kernel, steps: seq<Step>, k: Kernel, i: nat) returns (steps': seq<Step>)
    requires Core(k) && Runs(k0, steps, k) && k.lock == Flushing(i) && i < |k.subs| && k.heap == Still(k.heap.pool)
    ensures WellShaped(k.heap.pool) && Core(AfterEmptying(k, i)) && Runs(k0, steps', AfterEmptying(k, i))
    decreases |k.subs[i].queue|
  {
    hide Core, Runs, WellShaped, BP.Released;
    CorePool(k);
    var s := k.subs[i];
    if s.queue == [] {
      steps' := steps;
      assert k.subs[i := Emptied(s)] == k.subs;
      assert AfterEmptying(k, i) == k;
    } else {
      var k1;
      steps', k1 := OneFlushed(k0, steps, k, i);
      steps' := EmptyingIsRun(k0, steps', k1, i);
      assert AfterEmptying(k1, i) == AfterEmptying(k, i);
    }
  }

  /** The takes of a flush, until one finds the semaphore empty. */
  lemma {:induction false} DrainIsRun(k0: Kernel, steps: seq<Step>, k: Kernel, i: nat) returns (steps': seq<Step>)
    requires Core(k) && Runs(k0, steps, k) && i < |k.subs| && k.subs[i].draining > 0
    ensures var k' := k.(subs := k.subs[i := k.subs[i].(tokens := 0, draining := k.subs[i].draining - 1)]);
            Core(k') && Runs(k0, steps', k')
    decreases k.subs[i].tokens
  {
    hide Core, Runs, WellShaped, FreeInRange;
    var s := k.subs[i];
    CorePool(k);
    var step := if s.tokens == 0 then DrainEnd(i) else Drain(i);
    StepKeeps(k, step);
    RunSnoc(k0, steps, k, step);
    steps' := steps + [step];
    var k1 := Apply(k, step);
    if s.tokens > 0 {
      steps' := DrainIsRun(k0, steps', k1, i);
      var t := s.(tokens := 0, draining := s.draining - 1);
      assert k1.subs[i := t] == k.subs[i := t];
    }
  }

  function AfterFlush(k: Kernel, i: nat): Kernel
    requires i < |k.subs| && WellShaped(k.heap.pool)
  {
    k.(heap := Still(ReleasedAll(k.heap.pool, k.subs[i].queue)), subs := k.subs[i := Flushed(k.subs[i])])
  }

  lemma FlushIsRun(k: Kernel, i: nat) returns (steps: seq<Step>)
    requires Inv(k) && i < |k.subs| && k.lock.Unlocked? && k.subs[i].owed == k.subs[i].taken == 0
    requires k.heap == Still(k.heap.pool)
    ensures WellShaped(k.heap.pool) && Inv(AfterFlush(k, i)) && Runs(k, steps, AfterFlush(k, i))
  {
    hide Core, Runs, WellShaped, FreeInRange, ReleasedAll;
    CorePool(k);
    RunsNowhere(k);
    StepKeeps(k, FlushBegin(i));
    RunSnoc(k, [], k, FlushBegin(i));
    var k1 := Apply(k, FlushBegin(i));
    steps := EmptyingIsRun(k, [] + [FlushBegin(i)], k1, i);
    var k2 := AfterEmptying(k1, i);
    CorePool(k2);
    StepKeeps(k2, FlushEnd);
    RunSnoc(k, steps, k2, FlushEnd);
    var k3 := Apply(k2, FlushEnd);
    steps := DrainIsRun(k, steps + [FlushEnd], k3, i);
    assert k3.subs[i := Flushed(k.subs[i])] == k.subs[i := Flushed(k.subs[i])];
  }

  // ---------------------------------------------------------------- a delivery

  /** The state once subscriber `k.lock.next` has been passed and what that freed has been pushed. */
  function AfterOne(k: Kernel): Kernel
    requires WellShaped(k.heap.pool) && k.lock.Publishing? && k.lock.next < |k.subs| && k.subs[k.lock.next].cfg.depth > 0
  {
    var i, ev := k.lock.next, k.lock.ev;
    var s := k.subs[i];
    var pool := if DomainId(ev.typ) in s.cfg.domains then AfterEnqueue(k.heap.pool, s.cfg, s.queue, ev) else k.heap.pool;
    k.(heap := Still(pool), subs := k.subs[i := Passed(s, ev)],
       lock := Publishing(ev, i + 1, if Signalled(s, ev) then k.lock.signals + [i] else k.lock.signals, None))
  }

  /** A subscriber's share of the locked pass. */
  function Passed(s: Sub, ev: Event): Sub
    requires s.cfg.depth > 0
  {
    if DomainId(ev.typ) in s.cfg.domains then Deliver(s, ev) else s
  }

  predicate Signalled(s: Sub, ev: Event)
    requires s.cfg.depth > 0
  {
    DomainId(ev.typ) in s.cfg.domains && Enqueue(s.cfg, s.queue, ev).verdict.Queued?
  }

  predicate Refused(s: Sub, ev: Event)
    requires s.cfg.depth > 0
  {
    DomainId(ev.typ) in s.cfg.domains && Enqueue(s.cfg, s.queue, ev).verdict.Dropped?
  }

  /** An event is refused exactly if the subscriber asked for it and does not have it queued after its pass. */
  lemma RefusedIff(s: Sub, bound: nat, ev: Event)
    requires SubInv(s, bound) && ev.seqNo > bound
    ensures Refused(s, ev) <==> DomainId(ev.typ) in s.cfg.domains && ev !in Passed(s, ev).queue
  {
    var q := s.queue;
    assert forall k :: 0 <= k < |q| ==> q[k] == History(s)[|s.popped| + k];
    if DomainId(ev.typ) in s.cfg.domains {
      var e := Enqueue(s.cfg, q, ev);
      if e.coalesced {
        assert e.queue[FindType(q, ev.typ).value] == ev;
      } else if !e.verdict.Dropped? {
        assert e.queue[|e.queue| - 1] == ev;
      }
    }
  }

  /** The release that makes room, if one is called for, with its push. */
  lemma VacatedIsRun(k0: Kernel, steps: seq<Step>, k: Kernel) returns (steps': seq<Step>, k': Kernel)
    requires Inv(k) && Runs(k0, steps, k) && k.heap == Still(k.heap.pool) && AtSubscriber(k) && k.lock.gone == None
    ensures WellShaped(k.heap.pool) && Inv(k') && Runs(k0, steps', k')
    ensures k' == k.(heap := Still(BP.Released(k.heap.pool, Outgoing(k))), lock := k.lock.(gone := Outgoing(k)))
  {
    hide Core, Runs, WellShaped, FreeInRange, Outgoing, BP.Released, SetRefs;
    CorePool(k);
    steps', k' := steps, k;
    ReleasedNothing(k.heap.pool);
    if Outgoing(k).Some? {
      OutgoingIsCounted(k);
      CalmKeeps(k, PublishVacate);
      RunSnoc(k0, steps, k, PublishVacate);
      k' := Apply(k, PublishVacate);
      steps' := SettleIsRun(k0, steps + [PublishVacate], k', k.heap.pool, Outgoing(k));
      k' := k'.(heap := Still(BP.Released(k.heap.pool, Outgoing(k))));
    } else {
      assert k.(lock := k.lock.(gone := None)) == k;
    }
  }

  lemma ReleasedNothing(p: Pool)
    requires WellShaped(p)
    ensures BP.Released(p, None) == p
  {}

  lemma OutgoingIsCounted(k: Kernel)
    requires Core(k) && AtSubscriber(k) && k.lock.gone == None && Outgoing(k).Some?
    ensures WellShaped(k.heap.pool) && Refs(k.heap.pool, Outgoing(k).value) > 0
  {
    hide LockInv, SubsInv;
    OutgoingIsHeld(k, Outgoing(k).value);
    assert Owners(k)(Outgoing(k).value) > 0;
  }

  lemma PassedIsRun(k0: Kernel, steps: seq<Step>, k: Kernel) returns (steps': seq<Step>)
    requires Inv(k) && Runs(k0, steps, k) && k.heap == Still(k.heap.pool)
    requires k.lock.Publishing? && k.lock.next < |k.subs| && k.lock.gone == None
    ensures WellShaped(k.heap.pool) && k.subs[k.lock.next].cfg.depth > 0
    ensures Inv(AfterOne(k)) && Runs(k0, steps', AfterOne(k))
  {
    hide Core, Calm, Runs, Outgoing, Deliver, Enqueue, BP.Released;
    Depths(k);
    var k1;
    steps', k1 := VacatedIsRun(k0, steps, k);
    SameOutgoing(k, k1);
    Depths(k1);
    CalmKeeps(k1, PublishOne);
    RunSnoc(k0, steps', k1, PublishOne);
    steps' := steps' + [PublishOne];
    PassedState(k, k1);
  }

  lemma SameOutgoing(k: Kernel, k': Kernel)
    requires AtSubscriber(k) && k'.subs == k.subs && k'.lock.Publishing? && k'.lock.ev == k.lock.ev && k'.lock.next == k.lock.next
    ensures Outgoing(k') == Outgoing(k)
  {}

  lemma PassedState(k: Kernel, k1: Kernel)
    requires Core(k1) && AtSubscriber(k) && WellShaped(k.heap.pool)
    requires k1 == k.(heap := Still(BP.Released(k.heap.pool, Outgoing(k))), lock := k.lock.(gone := Outgoing(k)))
    requires k.lock.gone == None && Enabled(k1, PublishOne)
    requires k.heap == Still(k.heap.pool)
    ensures ApplyPublishOne(k1) == AfterOne(k)
  {
    hide Core, Deliver, Enqueue, Leaves, AddRef, BP.Released, BP.Retained, WellShaped, FreeInRange;
    var s, ev := k.subs[k.lock.next], k.lock.ev;
    ReleasedNothing(k.heap.pool);
    if DomainId(ev.typ) in s.cfg.domains {
      PublisherCounted(k1);
      AddedIsRetained(k1.heap.pool, Enters(s.cfg, s.queue, ev));
    } else {
      assert k.(lock := k.lock.(gone := None)) == k;
    }
  }

  lemma PublisherCounted(k: Kernel)
    requires Core(k) && k.lock.Publishing?
    ensures WellShaped(k.heap.pool) && (k.lock.ev.blob.Some? ==> Refs(k.heap.pool, k.lock.ev.blob.value) > 0)
  {
    hide LockInv, SubsInv, RingReferences;
    if k.lock.ev.blob.Some? { assert Owners(k)(k.lock.ev.blob.value) > 0; }
  }

  lemma AddedIsRetained(p: Pool, r: Option<Block>)
    requires WellShaped(p) && (r.Some? ==> Refs(p, r.value) > 0)
    ensures AddRef(Still(p), r) == Still(BP.Retained(p, r))
  {}

  lemma Depths(k: Kernel)
    requires Inv(k)
    ensures WellShaped(k.heap.pool) && FreeInRange(k.heap.pool)
    ensures forall j :: 0 <= j < |k.subs| ==> k.subs[j].cfg.depth > 0
  {
    forall j | 0 <= j < |k.subs| ensures k.subs[j].cfg.depth > 0 { assert SubInv(k.subs[j], Bound(k, j)); }
  }
}
