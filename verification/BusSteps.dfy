/** Every interleaving of the bus and the pool: states, steps, and what all reachable states share. */
module BusSteps {
  import opened Basics
  import opened Blob
  import opened BusModel

  /**
   * The bus lock: free; held by the publisher of `ev`, which has passed the subscribers below `next`, has
   * released `gone`, the block of the slot it is about to vacate, and will signal those in `signals` once it
   * has let go; or held by a flush of subscriber `i`.
   */
  datatype Lock = Unlocked | Publishing(ev: Event, next: nat, signals: seq<nat>, gone: Option<Block>) | Flushing(i: nat)

  /** `clients` counts, block by block, the references that code outside the bus has to release. */
  datatype Kernel = Kernel(heap: Heap, clients: multiset<Block>, lock: Lock, subs: seq<Sub>, lastSeq: nat)

  /**
   * Of the steps under the lock, `PublishVacate` is the release of a displaced reference, `PublishOne` what is
   * then written to the ring and retained; `FlushOne` is a release with the move of the tail that follows it,
   * which nobody can tell apart, a ring being touched under the lock only.  The push a release may call for
   * is `FreePush`.
   */
  datatype Step =
    | AllocPop(c: nat)
    | AllocStore(b: Block)
    | ClientRetain(b: Block)
    | ClientRelease(b: Block)
    | FreePush(b: Block)
    | PublishBegin(typ: nat, blob: Option<Block>, payload: int)
    | PublishVacate
    | PublishOne
    | PublishEnd
    | Give(i: nat)
    | Take(i: nat)
    | Pop(i: nat)
    | FlushBegin(i: nat)
    | FlushOne
    | FlushEnd
    | Drain(i: nat)
    | DrainEnd(i: nat)

  /** The reference that the publish in progress takes from the next subscriber's ring. */
  function Outgoing(k: Kernel): Option<Block>
    requires k.lock.Publishing? && k.lock.next < |k.subs| && k.subs[k.lock.next].cfg.depth > 0
  {
    var s := k.subs[k.lock.next];
    if DomainId(k.lock.ev.typ) in s.cfg.domains then Leaves(s.cfg, s.queue, k.lock.ev) else None
  }

  predicate AtSubscriber(k: Kernel) {
    k.lock.Publishing? && k.lock.next < |k.subs| && k.subs[k.lock.next].cfg.depth > 0
  }

  /** When a step can happen.  A client uses a block only while it owns a reference to it. */
  predicate Enabled(k: Kernel, step: Step) {
    WellShaped(k.heap.pool) && FreeInRange(k.heap.pool) &&
    match step
    case AllocPop(c) => c < CLASS_COUNT && k.heap.pool.classes[c].free != []
    case AllocStore(b) => b in k.heap.allocating
    case ClientRetain(b) => b in k.clients
    case ClientRelease(b) => b in k.clients
    case FreePush(b) => b in k.heap.freeing
    case PublishBegin(_, blob, _) => k.lock.Unlocked? && (blob.Some? ==> blob.value in k.clients)
    case PublishVacate => AtSubscriber(k) && k.lock.gone == None && Outgoing(k).Some?
    case PublishOne => AtSubscriber(k) && k.lock.gone == Outgoing(k)
    case PublishEnd => k.lock.Publishing? && k.lock.next == |k.subs|
    case Give(i) => i < |k.subs| && k.subs[i].owed > 0
    case Take(i) => i < |k.subs| && k.subs[i].tokens > 0
    case Pop(i) => i < |k.subs| && k.subs[i].taken > 0 && k.lock.Unlocked?
    case FlushBegin(i) => i < |k.subs| && k.lock.Unlocked?
    case FlushOne => k.lock.Flushing? && k.lock.i < |k.subs| && k.subs[k.lock.i].queue != []
    case FlushEnd => k.lock.Flushing? && k.lock.i < |k.subs| && k.subs[k.lock.i].queue == []
    case Drain(i) => i < |k.subs| && k.subs[i].draining > 0 && k.subs[i].tokens > 0
    case DrainEnd(i) => i < |k.subs| && k.subs[i].draining > 0 && k.subs[i].tokens == 0
  }

  /** The reference an event carries passes between its clients and the publish in progress. */
  function Lend(clients: multiset<Block>, r: Option<Block>): multiset<Block> {
    if r.Some? then clients - multiset{r.value} else clients
  }

  function Return(clients: multiset<Block>, r: Option<Block>): multiset<Block> {
    if r.Some? then clients + multiset{r.value} else clients
  }

  function AddOwed(subs: seq<Sub>, signals: seq<nat>): seq<Sub> {
    seq(|subs|, i requires 0 <= i < |subs| => subs[i].(owed := subs[i].owed + multiset(signals)[i]))
  }

  function Min(a: nat, b: nat): nat { if a < b then a else b }

  function Apply(k: Kernel, step: Step): Kernel
    requires Enabled(k, step)
  {
    match step
    case AllocPop(c) => k.(heap := StartAlloc(k.heap, c))
    case AllocStore(b) => k.(heap := FinishAlloc(k.heap, b), clients := k.clients + multiset{b})
    case ClientRetain(b) => k.(heap := AddRef(k.heap, Some(b)), clients := k.clients + multiset{b})
    case ClientRelease(b) => k.(heap := DropRef(k.heap, Some(b)), clients := k.clients - multiset{b})
    case FreePush(b) => k.(heap := FinishRelease(k.heap, b))
    case PublishBegin(typ, blob, payload) =>
      k.(lock := Publishing(Event(typ, k.lastSeq + 1, blob, payload), 0, [], None),
         lastSeq := k.lastSeq + 1, clients := Lend(k.clients, blob))
    case PublishVacate => k.(heap := DropRef(k.heap, Outgoing(k)), lock := k.lock.(gone := Outgoing(k)))
    case PublishOne => ApplyPublishOne(k)
    case PublishEnd =>
      k.(lock := Unlocked, subs := AddOwed(k.subs, k.lock.signals), clients := Return(k.clients, k.lock.ev.blob))
    case FlushBegin(i) => k.(lock := Flushing(i))
    case FlushOne =>
      var s := k.subs[k.lock.i];
      k.(heap := DropRef(k.heap, s.queue[0].blob),
         subs := k.subs[k.lock.i := s.(queue := s.queue[1..], flushed := s.flushed + 1)])
    case FlushEnd =>
      var s := k.subs[k.lock.i];
      k.(lock := Unlocked, subs := k.subs[k.lock.i := s.(draining := s.draining + 1)])
    case Pop(i) =>
      var s := k.subs[i];
      if s.queue == [] then k.(subs := k.subs[i := s.(taken := s.taken - 1)])
      else k.(subs := k.subs[i := Popped(s)], clients := Return(k.clients, s.queue[0].blob))
    case _ => k.(subs := k.subs[step.i := Counted(k.subs[step.i], step)])
  }

  /** A receiver's locked pop. */
  function Popped(s: Sub): Sub
    requires s.queue != [] && s.taken > 0
  {
    s.(taken := s.taken - 1, queue := s.queue[1..], popped := s.popped + [s.queue[0]])
  }

  /** The steps that only count: on the semaphore, which saturates at the depth, and by those who use it. */
  function Counted(s: Sub, step: Step): Sub
    requires step.Give? ==> s.owed > 0
    requires step.Take? || step.Drain? ==> s.tokens > 0
    requires step.Drain? || step.DrainEnd? ==> s.draining > 0
  {
    match step
    case Give(_) => s.(owed := s.owed - 1, tokens := Min(s.tokens + 1, s.cfg.depth))
    case Take(_) => s.(tokens := s.tokens - 1, taken := s.taken + 1)
    case Drain(_) => s.(tokens := s.tokens - 1)
    case DrainEnd(_) => s.(draining := s.draining - 1)
    case _ => s
  }

  predicate IsCount(step: Step) { step.Give? || step.Take? || step.Drain? || step.DrainEnd? }

  /** One subscriber's share of the locked pass of `nev_bus_publish`, what it gave up being released. */
  function ApplyPublishOne(k: Kernel): Kernel
    requires Enabled(k, PublishOne)
  {
    var i, ev := k.lock.next, k.lock.ev;
    var s := k.subs[i];
    if DomainId(ev.typ) !in s.cfg.domains then k.(lock := k.lock.(next := i + 1))
    else
      var e := Enqueue(s.cfg, s.queue, ev);
      var signals := if e.verdict.Queued? then k.lock.signals + [i] else k.lock.signals;
      k.(heap := AddRef(k.heap, Enters(s.cfg, s.queue, ev)), subs := k.subs[i := Deliver(s, ev)],
         lock := Publishing(ev, i + 1, signals, None))
  }

  // ---------------------------------------------------------------- the invariant

  /** The reference the publish in progress keeps its event's block alive with. */
  function Loan(lock: Lock): Option<Block> {
    if lock.Publishing? then lock.ev.blob else None
  }

  /** The reference already released of a slot the ring still names. */
  function Gone(lock: Lock): Option<Block> {
    if lock.Publishing? then lock.gone else None
  }

  /** References held by ring slots: those that name `b`, but for the slot being vacated. */
  function RingReferences(k: Kernel, b: Block): nat {
    var held := HeldByAll(k.subs, b);
    if held >= Holds(Gone(k.lock), b) then held - Holds(Gone(k.lock), b) else 0
  }

  /** References to `b`: held by clients, by ring slots, and by the publish in progress. */
  function References(k: Kernel, b: Block): nat {
    k.clients[b] + RingReferences(k, b) + Holds(Loan(k.lock), b)
  }

  function Owners(k: Kernel): Block -> nat {
    (b: Block) => References(k, b)
  }

  function Pending(lock: Lock, i: nat): nat {
    if lock.Publishing? then multiset(lock.signals)[i] else 0
  }

  /** Subscribers the publish in progress has not reached know only earlier sequence numbers. */
  function Bound(k: Kernel, i: nat): nat {
    if k.lock.Publishing? && k.lock.next <= i && k.lastSeq > 0 then k.lastSeq - 1 else k.lastSeq
  }

  ghost predicate LockInv(k: Kernel) {
    && (k.lock.Flushing? ==> k.lock.i < |k.subs|)
    && (k.lock.Publishing? ==>
         && k.lock.ev.seqNo == k.lastSeq && k.lastSeq > 0
         && k.lock.next <= |k.subs|
         && (forall j :: 0 <= j < |k.lock.signals| ==> k.lock.signals[j] < k.lock.next)
         && (k.lock.gone.Some? ==> AtSubscriber(k) && k.lock.gone == Outgoing(k)))
  }

  ghost predicate SubsInv(k: Kernel) {
    forall i :: 0 <= i < |k.subs| ==> SubInv(k.subs[i], Bound(k, i))
  }

  /** What every interleaving keeps, racing flushes included. */
  ghost predicate Core(k: Kernel) {
    HeapInv(k.heap, Owners(k)) && LockInv(k) && SubsInv(k)
  }

  function Initial(cfgs: seq<Config>): Kernel {
    Kernel(Heap(InitialPool(), multiset{}, multiset{}, true), multiset{}, Unlocked,
           seq(|cfgs|, i requires 0 <= i < |cfgs| => NewSub(cfgs[i])), 0)
  }

  predicate ValidConfig(cfg: Config) { 1 <= cfg.depth <= MAX_DEPTH }

  lemma {:induction false} NewSubsHoldNothing(subs: seq<Sub>, b: Block)
    requires forall i :: 0 <= i < |subs| ==> subs[i].queue == []
    ensures HeldByAll(subs, b) == 0
  {
    if subs != [] { NewSubsHoldNothing(subs[1..], b); }
  }

  lemma InitialCore(cfgs: seq<Config>)
    requires forall i :: 0 <= i < |cfgs| ==> ValidConfig(cfgs[i])
    ensures Core(Initial(cfgs))
  {
    InitialHeapInv(Initial(cfgs));
    InitialSubsInv(Initial(cfgs));
  }

  lemma InitialSubsInv(k: Kernel)
    requires k.lock.Unlocked? && k.lastSeq == 0
    requires forall i :: 0 <= i < |k.subs| ==> ValidConfig(k.subs[i].cfg) && k.subs[i] == NewSub(k.subs[i].cfg)
    ensures LockInv(k) && SubsInv(k)
  {
    forall i | 0 <= i < |k.subs| ensures SubInv(k.subs[i], Bound(k, i)) {
      assert History(k.subs[i]) == [];
    }
  }

  lemma InitialHeapInv(k: Kernel)
    requires k.heap == Heap(InitialPool(), multiset{}, multiset{}, true)
    requires k.clients == multiset{} && k.lock.Unlocked?
    requires forall i :: 0 <= i < |k.subs| ==> k.subs[i].queue == []
    ensures HeapInv(k.heap, Owners(k))
  {
    forall b: Block ensures Owners(k)(b) == 0 && FreeEntries(k.heap.pool, b) == 1 {
      NewSubsHoldNothing(k.subs, b);
      InitialPoolFree(b);
    }
  }

  // ---------------------------------------------------------------- what each step keeps

  lemma SameOwners(k: Kernel, owners: Block -> nat)
    requires HeapInv(k.heap, owners) && forall b :: Owners(k)(b) == owners(b)
    ensures HeapInv(k.heap, Owners(k))
  {}

  /** Lock, rings and numbers stay as they are: so does what is said of them. */
  lemma SubsUntouched(k: Kernel, k': Kernel)
    requires LockInv(k) && SubsInv(k)
    requires k'.subs == k.subs && k'.lock == k.lock && k'.lastSeq == k.lastSeq
    ensures LockInv(k') && SubsInv(k')
  {
    assert k.lock.Publishing? && k.lock.gone.Some? ==> AtSubscriber(k') && Outgoing(k') == Outgoing(k);
    forall i | 0 <= i < |k'.subs| ensures SubInv(k'.subs[i], Bound(k', i)) {
      assert SubInv(k.subs[i], Bound(k, i));
    }
  }

  /** The pool changes, with or without the clients' references, and the rest does not. */
  lemma PoolStepKeeps(k: Kernel, step: Step)
    requires Core(k) && Enabled(k, step)
    requires step.AllocPop? || step.AllocStore? || step.ClientRetain? || step.ClientRelease? || step.FreePush?
    ensures Core(Apply(k, step))
  {
    hide HeapInv, SubsInv, LockInv, HeldByAll, StartAlloc, FinishAlloc, AddRef, DropRef, FinishRelease;
    var k' := Apply(k, step);
    SubsUntouched(k, k');
    match step
    case AllocPop(c) => StartAllocKeeps(k.heap, Owners(k), c); SameReferences(k, k');
    case AllocStore(b) => OneMoreReference(k, k', b); FinishAllocKeeps(k.heap, Owners(k), b, Owners(k'));
    case ClientRetain(b) =>
      OneMoreReference(k, k', b);
      assert Owners(k)(b) > 0;
      AddRefKeeps(k.heap, Owners(k), Some(b), Owners(k'));
    case ClientRelease(b) => OneMoreReference(k', k, b); DropRefKeeps(k.heap, Owners(k), Some(b), Owners(k'));
    case FreePush(b) => FinishReleaseKeeps(k.heap, Owners(k), b); SameReferences(k, k');
    case _ =>
  }

  lemma SameReferences(k: Kernel, k': Kernel)
    requires HeapInv(k'.heap, Owners(k))
    requires forall b: Block :: References(k', b) == References(k, b)
    ensures HeapInv(k'.heap, Owners(k'))
  {
    SameOwners(k', Owners(k));
  }

  lemma OneMoreReference(k: Kernel, k': Kernel, b: Block)
    requires k'.subs == k.subs && k'.lock == k.lock && k'.clients[b] == k.clients[b] + 1
    requires forall x :: x != b ==> k'.clients[x] == k.clients[x]
    ensures forall x: Block :: Owners(k')(x) == Owners(k)(x) + Holds(Some(b), x)
  {}

  /** Queues stay as they are, and what clients and publisher hold together does too. */
  lemma SameQueues(k: Kernel, k': Kernel)
    requires HeapInv(k.heap, Owners(k)) && k'.heap == k.heap && Gone(k'.lock) == Gone(k.lock)
    requires |k'.subs| == |k.subs| && forall i :: 0 <= i < |k.subs| ==> k'.subs[i].queue == k.subs[i].queue
    requires forall b: Block :: k'.clients[b] + Holds(Loan(k'.lock), b) == k.clients[b] + Holds(Loan(k.lock), b)
    ensures HeapInv(k'.heap, Owners(k'))
  {
    hide HeapInv;
    forall b: Block ensures References(k', b) == References(k, b) {
      HeldByAllSameQueues(k.subs, k'.subs, b);
    }
    SameReferences(k, k');
  }

  /** Only the lock, the publisher's reference and what is owed change: a publish begins or ends. */
  lemma PublishEdgeKeeps(k: Kernel, step: Step)
    requires Core(k) && Enabled(k, step)
    requires step.PublishBegin? || step.PublishEnd?
    ensures Core(Apply(k, step))
  {
    hide HeapInv, Outgoing, Leaves, SubInv;
    var k' := Apply(k, step);
    assert |k'.subs| == |k.subs| && forall i :: 0 <= i < |k.subs| ==> k'.subs[i].queue == k.subs[i].queue;
    SameQueues(k, k');
    forall i | 0 <= i < |k'.subs| ensures SubInv(k'.subs[i], Bound(k', i)) {
      assert SubInv(k.subs[i], Bound(k, i));
      OwingKeeps(k.subs[i], k'.subs[i].owed, Bound(k, i));
    }
  }

  lemma OwingKeeps(s: Sub, n: nat, bound: nat)
    requires SubInv(s, bound)
    ensures SubInv(s.(owed := n), bound)
  {
    assert History(s.(owed := n)) == History(s);
  }

  lemma HeldLeaves(cfg: Config, q: seq<Event>, ev: Event, b: Block)
    requires cfg.depth > 0
    ensures Holds(Leaves(cfg, q, ev), b) <= Held(q, b)
  {
    var e := Enqueue(cfg, q, ev);
    if e.coalesced { HeldUpdate(q, FindType(q, ev.typ).value, ev.(blob := None), b); }
  }

  lemma {:induction false} HeldByAllCovers(subs: seq<Sub>, i: nat, b: Block)
    requires i < |subs|
    ensures Held(subs[i].queue, b) <= HeldByAll(subs, b)
  {
    if i > 0 { HeldByAllCovers(subs[1..], i - 1, b); }
  }

  /** The ring a publish is at does hold the reference it gives up. */
  lemma OutgoingIsHeld(k: Kernel, b: Block)
    requires AtSubscriber(k)
    ensures Holds(Outgoing(k), b) <= HeldByAll(k.subs, b)
  {
    hide Leaves, Held, HeldByAll;
    var s := k.subs[k.lock.next];
    HeldLeaves(s.cfg, s.queue, k.lock.ev, b);
    HeldByAllCovers(k.subs, k.lock.next, b);
  }

  lemma VacateKeeps(k: Kernel)
    requires Core(k) && Enabled(k, PublishVacate)
    ensures Core(Apply(k, PublishVacate))
  {
    hide HeapInv, SubInv, Leaves, HeldByAll, DropRef;
    var k' := Apply(k, PublishVacate);
    forall b: Block ensures Owners(k')(b) + Holds(Outgoing(k), b) == Owners(k)(b) {
      OutgoingIsHeld(k, b);
    }
    DropRefKeeps(k.heap, Owners(k), Outgoing(k), Owners(k'));
    forall i | 0 <= i < |k'.subs| ensures SubInv(k'.subs[i], Bound(k', i)) {
      assert SubInv(k.subs[i], Bound(k, i));
    }
  }

  lemma PublishOneHeap(k: Kernel)
    requires Core(k) && Enabled(k, PublishOne)
    ensures HeapInv(ApplyPublishOne(k).heap, Owners(ApplyPublishOne(k)))
  {
    hide HeapInv, SubInv, Leaves, HeldByAll, Held, AddRef;
    var i, ev := k.lock.next, k.lock.ev;
    var s := k.subs[i];
    var k' := ApplyPublishOne(k);
    if DomainId(ev.typ) !in s.cfg.domains {
      SameQueues(k, k');
    } else {
      var into := Enters(s.cfg, s.queue, ev);
      forall b: Block
        ensures Owners(k')(b) == Owners(k)(b) + Holds(into, b)
        ensures into == Some(b) ==> Owners(k)(b) > 0
      {
        OutgoingIsHeld(k, b);
        DeliveredQueue(s, ev);
        HeldByAllUpdate(k.subs, i, Deliver(s, ev), b);
        EnqueueHeld(s.cfg, s.queue, ev, b);
      }
      AddRefKeeps(k.heap, Owners(k), into, Owners(k'));
    }
  }

  lemma DeliveredQueue(s: Sub, ev: Event)
    requires s.cfg.depth > 0
    ensures Deliver(s, ev).queue == Enqueue(s.cfg, s.queue, ev).queue
  {}

  lemma PublishOneSubs(k: Kernel)
    requires Core(k) && Enabled(k, PublishOne)
    ensures LockInv(ApplyPublishOne(k)) && SubsInv(ApplyPublishOne(k))
  {
    hide HeapInv, SubInv, Leaves, Deliver;
    var i, ev := k.lock.next, k.lock.ev;
    var k' := ApplyPublishOne(k);
    assert SubInv(k.subs[i], k.lastSeq - 1);
    if DomainId(ev.typ) in k.subs[i].cfg.domains { DeliverKeeps(k.subs[i], k.lastSeq - 1, ev); }
    else { SubInvGrows(k.subs[i], k.lastSeq - 1, k.lastSeq); }
    forall j | 0 <= j < |k'.subs| ensures SubInv(k'.subs[j], Bound(k', j)) {
      assert SubInv(k.subs[j], Bound(k, j));
    }
  }

  lemma SubInvGrows(s: Sub, bound: nat, more: nat)
    requires SubInv(s, bound) && bound <= more
    ensures SubInv(s, more)
  {}

  /** One subscriber changes; the lock does not concern it. */
  lemma OneSubChanges(k: Kernel, i: nat, s: Sub, k': Kernel)
    requires LockInv(k) && SubsInv(k) && i < |k.subs| && SubInv(s, Bound(k, i))
    requires k'.subs == k.subs[i := s] && k'.lastSeq == k.lastSeq
    requires k'.lock == k.lock || (k.lock.Flushing? && k'.lock.Unlocked?)
    requires k.lock.Publishing? ==> s.cfg == k.subs[i].cfg && s.queue == k.subs[i].queue
    ensures LockInv(k') && SubsInv(k')
  {
    hide Leaves, SubInv;
    forall j | 0 <= j < |k'.subs| ensures SubInv(k'.subs[j], Bound(k', j)) {
      assert SubInv(k.subs[j], Bound(k, j));
    }
    if k.lock.Publishing? && k.lock.gone.Some? { assert Outgoing(k') == Outgoing(k); }
  }

  lemma CountKeeps(k: Kernel, step: Step)
    requires Core(k) && Enabled(k, step) && IsCount(step)
    ensures Core(Apply(k, step))
  {
    hide HeapInv, LockInv, Min;
    var i := step.i;
    var s := Counted(k.subs[i], step);
    var k' := k.(subs := k.subs[i := s]);
    assert History(s) == History(k.subs[i]) && SubInv(k.subs[i], Bound(k, i));
    OneSubChanges(k, i, s, k');
    SameQueues(k, k');
    assert Apply(k, step) == k';
  }

  lemma PopStepKeeps(k: Kernel, i: nat)
    requires Core(k) && Enabled(k, Pop(i))
    ensures Core(Apply(k, Pop(i)))
  {
    hide HeapInv, LockInv, HeldByAll;
    var s := k.subs[i];
    assert SubInv(s, Bound(k, i));
    var k' := Apply(k, Pop(i));
    if s.queue == [] {
      assert History(k'.subs[i]) == History(s);
      OneSubChanges(k, i, k'.subs[i], k');
      SameQueues(k, k');
    } else {
      PopKeeps(s, Bound(k, i));
      assert History(Popped(s)) == History(s.(queue := s.queue[1..], popped := s.popped + [s.queue[0]]));
      OneSubChanges(k, i, Popped(s), k');
      forall b: Block ensures References(k', b) == References(k, b) {
        HeldByAllUpdate(k.subs, i, Popped(s), b);
        HeldFirst(s.queue, b);
      }
      SameReferences(k, k');
    }
  }

  lemma HeldFirst(q: seq<Event>, b: Block)
    requires q != []
    ensures Held(q, b) == Holds(q[0].blob, b) + Held(q[1..], b)
  {}

  lemma FlushOneKeeps(k: Kernel)
    requires Core(k) && Enabled(k, FlushOne)
    ensures Core(Apply(k, FlushOne))
  {
    hide HeapInv, HeldByAll, DropRef, SubInv;
    var i := k.lock.i;
    var s := k.subs[i];
    var t := s.(queue := s.queue[1..], flushed := s.flushed + 1);
    var k' := Apply(k, FlushOne);
    assert SubInv(s, Bound(k, i));
    FlushKeeps(s, Bound(k, i));
    OneSubChanges(k, i, t, k');
    forall b: Block ensures Owners(k')(b) + Holds(s.queue[0].blob, b) == Owners(k)(b) {
      HeldByAllUpdate(k.subs, i, t, b);
      HeldFirst(s.queue, b);
    }
    DropRefKeeps(k.heap, Owners(k), s.queue[0].blob, Owners(k'));
  }

  lemma FlushEdgeKeeps(k: Kernel, step: Step)
    requires Core(k) && Enabled(k, step) && (step.FlushBegin? || step.FlushEnd?)
    ensures Core(Apply(k, step))
  {
    hide HeapInv;
    var k' := Apply(k, step);
    SameQueues(k, k');
    if step.FlushEnd? {
      var i := k.lock.i;
      assert SubInv(k.subs[i], Bound(k, i)) && History(k'.subs[i]) == History(k.subs[i]);
      OneSubChanges(k, i, k'.subs[i], k');
    } else {
      forall j | 0 <= j < |k'.subs| ensures SubInv(k'.subs[j], Bound(k', j)) {
        assert SubInv(k.subs[j], Bound(k, j));
      }
    }
  }

  /** Every step of every client keeps it. */
  lemma StepKeeps(k: Kernel, step: Step)
    requires Core(k) && Enabled(k, step)
    ensures Core(Apply(k, step))
  {
    hide Core, Enabled, Apply;
    match step
    case PublishBegin(_, _, _) => PublishEdgeKeeps(k, step);
    case PublishEnd => PublishEdgeKeeps(k, step);
    case PublishVacate => VacateKeeps(k);
    case PublishOne => PublishOneKeeps(k);
    case Pop(i) => PopStepKeeps(k, i);
    case FlushBegin(_) => FlushEdgeKeeps(k, step);
    case FlushEnd => FlushEdgeKeeps(k, step);
    case FlushOne => FlushOneKeeps(k);
    case Give(_) => CountKeeps(k, step);
    case Take(_) => CountKeeps(k, step);
    case Drain(_) => CountKeeps(k, step);
    case DrainEnd(_) => CountKeeps(k, step);
    case _ => PoolStepKeeps(k, step);
  }

  lemma PublishOneKeeps(k: Kernel)
    requires Core(k) && Enabled(k, PublishOne)
    ensures Core(Apply(k, PublishOne))
  {
    hide HeapInv, LockInv, SubsInv, ApplyPublishOne;
    PublishOneHeap(k);
    PublishOneSubs(k);
  }

  // ---------------------------------------------------------------- whole runs

  /** `steps` leads from `k` to `k'`, each step possible when its turn comes. */
  predicate Runs(k: Kernel, steps: seq<Step>, k': Kernel)
    decreases |steps|
  {
    if steps == [] then k' == k
    else Enabled(k, steps[0]) && Runs(Apply(k, steps[0]), steps[1..], k')
  }

  lemma RunsNowhere(k: Kernel)
    ensures Runs(k, [], k)
  {}

  lemma {:induction false} RunSnoc(k: Kernel, steps: seq<Step>, k': Kernel, step: Step)
    requires Runs(k, steps, k') && Enabled(k', step)
    ensures Runs(k, steps + [step], Apply(k', step))
    decreases |steps|
  {
    hide Apply, Enabled;
    if steps != [] {
      assert (steps + [step])[1..] == steps[1..] + [step];
      RunSnoc(Apply(k, steps[0]), steps[1..], k', step);
    }
  }

  /** `k` can be reached from boot, with some subscriptions, by some interleaving of any clients' steps. */
  ghost predicate Reachable(k: Kernel) {
    exists cfgs: seq<Config>, steps: seq<Step> ::
      (forall i :: 0 <= i < |cfgs| ==> ValidConfig(cfgs[i])) && Runs(Initial(cfgs), steps, k)
  }

  lemma {:induction false} RunKeeps(k: Kernel, steps: seq<Step>, k': Kernel)
    requires Core(k) && Runs(k, steps, k')
    ensures Core(k')
    decreases |steps|
  {
    hide Core, Apply, Enabled;
    if steps != [] {
      StepKeeps(k, steps[0]);
      RunKeeps(Apply(k, steps[0]), steps[1..], k');
    }
  }

  lemma ReachableCore(k: Kernel)
    requires Reachable(k)
    ensures Core(k)
  {
    hide Core, Runs, Initial;
    var cfgs: seq<Config>, steps: seq<Step> :|
      (forall i :: 0 <= i < |cfgs| ==> ValidConfig(cfgs[i])) && Runs(Initial(cfgs), steps, k);
    InitialCore(cfgs);
    RunKeeps(Initial(cfgs), steps, k);
  }

  /**
   * In every reachable state a block's count is the number of references to it, it waits on its free
   * list exactly once iff there is none and no release or allocation of it is half done, and no
   * assertion of the pool has fired.
   */
  lemma CountsAreReferences(k: Kernel, b: Block)
    requires Reachable(k)
    ensures WellShaped(k.heap.pool) && k.heap.ok
    ensures Refs(k.heap.pool, b) == References(k, b)
    ensures FreeEntries(k.heap.pool, b) <= 1
    ensures FreeEntries(k.heap.pool, b) == 1 <==>
            References(k, b) == 0 && b !in k.heap.freeing && b !in k.heap.allocating
  {
    ReachableCore(k);
    assert Owners(k)(b) == References(k, b);
    assert FreeEntries(k.heap.pool, b) + k.heap.freeing[b] + k.heap.allocating[b] == if Owners(k)(b) == 0 then 1 else 0;
  }

  /** The slot a publish is vacating is one that names the block: no reference is counted away twice. */
  lemma VacatedSlotIsHeld(k: Kernel, b: Block)
    requires Reachable(k)
    ensures RingReferences(k, b) + Holds(Gone(k.lock), b) == HeldByAll(k.subs, b)
  {
    hide HeapInv, SubsInv, HeldByAll, Leaves;
    ReachableCore(k);
    if Gone(k.lock).Some? { OutgoingIsHeld(k, b); }
  }

  /** Replacing or evicting events never frees the block of the event being published. */
  lemma PublishedBlockStaysAlive(k: Kernel, step: Step)
    requires Reachable(k) && Loan(k.lock).Some? && Enabled(k, step) && (step.PublishVacate? || step.PublishOne?)
    ensures var b := Loan(k.lock).value;
            var k' := Apply(k, step);
            && WellShaped(k'.heap.pool) && Refs(k'.heap.pool, b) > 0
            && b !in k'.heap.freeing
  {
    hide LockInv, SubsInv, RingReferences;
    ReachableCore(k);
    StepKeeps(k, step);
    var k' := Apply(k, step);
    var b := Loan(k.lock).value;
    assert Loan(k'.lock) == Some(b);
    assert Owners(k')(b) == References(k', b) > 0;
    assert FreeEntries(k'.heap.pool, b) + k'.heap.freeing[b] + k'.heap.allocating[b] == 0;
  }

  /** A new block belongs to nobody yet, and shares no byte with a block anybody holds. */
  lemma AllocationIsFresh(k: Kernel, c: nat, b: Block)
    requires Reachable(k) && Enabled(k, AllocPop(c))
    ensures var taken := TopFree(k.heap.pool, c);
            && ClassOf(taken) == c && References(k, taken) == 0
            && (References(k, b) > 0 && ClassOf(b) == c ==>
                 BlockEnd(taken) <= BlockStart(b) || BlockEnd(b) <= BlockStart(taken))
  {
    hide LockInv, SubsInv, RingReferences, BlockStart, BlockEnd;
    ReachableCore(k);
    StartAllocKeeps(k.heap, Owners(k), c);
    var taken := TopFree(k.heap.pool, c);
    assert Owners(k)(taken) == References(k, taken);
    if References(k, b) > 0 && ClassOf(b) == c { BlocksDisjoint(taken, b); }
  }

  lemma ReachableSub(k: Kernel, i: nat)
    requires Reachable(k) && i < |k.subs|
    ensures SubInv(k.subs[i], Bound(k, i))
  {
    hide HeapInv, LockInv, SubInv;
    ReachableCore(k);
  }

  /**
   * What a subscriber has been handed, in every reachable state: only domains it asked for, sequence
   * numbers that rise for each type (for all types together unless it coalesces), one queued snapshot
   * of a type, and counters that account for every event.
   */
  lemma DeliveryIsOrderedAndCounted(k: Kernel, i: nat)
    requires Reachable(k) && i < |k.subs|
    ensures var s := k.subs[i];
            && |s.queue| <= s.cfg.depth
            && Wanted(s.popped + s.queue, s.cfg.domains)
            && IncreasingPerType(s.popped + s.queue)
            && (!s.cfg.coalesce ==> Increasing(s.popped + s.queue))
            && (s.cfg.coalesce ==> OneSnapshotEach(s.queue))
            && s.received == s.coalesced + (if s.cfg.policy == DropOldest then s.dropped else 0)
                             + |s.popped| + s.flushed + |s.queue|
  {
    ReachableSub(k, i);
  }

  /** Once the rings are empty, clients have released what they held and no step is half done, all is free. */
  lemma TeardownFreesEverything(k: Kernel)
    requires Reachable(k)
    requires k.lock.Unlocked? && k.clients == multiset{}
    requires k.heap.freeing == multiset{} && k.heap.allocating == multiset{}
    requires forall i :: 0 <= i < |k.subs| ==> k.subs[i].queue == []
    ensures AllFree(k.heap.pool)
  {
    ReachableCore(k);
    QuietIsFree(k);
  }

  lemma QuietIsFree(k: Kernel)
    requires Core(k) && k.lock.Unlocked? && k.clients == multiset{}
    requires k.heap.freeing == multiset{} && k.heap.allocating == multiset{}
    requires forall i :: 0 <= i < |k.subs| ==> k.subs[i].queue == []
    ensures AllFree(k.heap.pool)
  {
    forall b: Block ensures Owners(k)(b) == 0 { NewSubsHoldNothing(k.subs, b); }
    NothingOwnedMeansAllFree(k.heap, Owners(k));
  }
}
