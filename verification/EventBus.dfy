/** `nev_bus.c` in place: ring buffers under the lock, and the calls that use them. */
module EventBus {
  import opened Basics
  import opened Blob
  import opened BusModel
  import BusSteps
  import BP = BlobPool

  /** Ring position `k` places after `tail`. */
  function Slot(tail: nat, k: nat, depth: nat): nat
    requires depth > 0
  {
    (tail + k) % depth
  }

  lemma SlotNear(tail: nat, k: nat, depth: nat)
    requires tail < depth && k <= depth
    ensures Slot(tail, k, depth) == if tail + k < depth then tail + k else tail + k - depth
  {
    if tail + k < depth { ModUnique(tail + k, depth, 0, tail + k); }
    else { ModUnique(tail + k, depth, 1, tail + k - depth); }
  }

  lemma ModUnique(a: nat, d: nat, q: nat, r: nat)
    requires a == q * d + r && r < d
    ensures a % d == r
  {
    var q' := a / d;
    assert a == q' * d + a % d;
    Multiples(q' - q, d);
    assert (q' - q) * d == r - a % d;
  }

  lemma Multiples(k: int, d: nat)
    ensures k >= 1 ==> k * d >= d
    ensures k <= -1 ==> k * d + d <= 0
  {}

  /** The `count` events of a ring that starts at `tail`, oldest first. */
  function View(cells: seq<Event>, tail: nat, count: nat, depth: nat): (q: seq<Event>)
    requires 0 < depth <= |cells|
    ensures |q| == count
  {
    seq(count, k requires 0 <= k < count => cells[Slot(tail, k, depth)])
  }

  class Subscriber {
    const cfg: Config
    const ring: array<Event>
    var head: nat
    var tail: nat
    var count: nat
    var highWater: nat
    var received: nat
    var dropped: nat
    var coalesced: nat
    var lastDroppedType: nat
    /** The counting semaphore; it saturates at the depth. */
    var sem: nat

    ghost var popped: seq<Event>
    ghost var flushed: nat

    ghost predicate Valid()
      reads this, ring
    {
      && 1 <= cfg.depth <= MAX_DEPTH == ring.Length
      && tail < cfg.depth && count <= cfg.depth
      && head == Slot(tail, count, cfg.depth)
    }

    ghost function Queue(): (q: seq<Event>)
      requires Valid()
      reads this, ring
      ensures |q| == count
    {
      View(ring[..], tail, count, cfg.depth)
    }

    /** The subscriber as the step system sees it, no publisher or receiver being between two steps. */
    ghost function Value(): Sub
      requires Valid()
      reads this, ring
    {
      Sub(cfg, Queue(), popped, flushed, received, dropped, coalesced, sem, 0, 0, 0)
    }

    constructor (cfg: Config, blank: Event)
      requires BusSteps.ValidConfig(cfg)
      ensures Valid() && fresh(ring) && this.cfg == cfg && Value() == NewSub(cfg)
    {
      this.cfg := cfg;
      ring := new Event[MAX_DEPTH](i => blank);
      head, tail, count, highWater := 0, 0, 0, 0;
      received, dropped, coalesced, lastDroppedType := 0, 0, 0, 0;
      sem := 0;
      popped, flushed := [], 0;
    }

    /** Removes the oldest event from the ring; what eviction, receive and flush have in common. */
    method Advance() returns (e: Event)
      requires Valid() && count > 0
      modifies this`tail, this`count
      ensures Valid() && [e] + Queue() == old(Queue())
    {
      ghost var q := Queue();
      SlotNear(tail, 0, cfg.depth);
      SlotNear(tail, 1, cfg.depth);
      e := ring[tail];
      forall k | 0 < k <= count
        ensures Slot(Slot(tail, 1, cfg.depth), k - 1, cfg.depth) == Slot(tail, k, cfg.depth)
      {
        SlotNear(tail, k, cfg.depth);
        SlotNear(Slot(tail, 1, cfg.depth), k - 1, cfg.depth);
      }
      tail := (tail + 1) % cfg.depth;
      count := count - 1;
      assert [e] + Queue() == q;
    }

    /** Writes an event behind the newest. */
    method Append(ev: Event)
      requires Valid() && count < cfg.depth
      modifies this`head, this`count, ring
      ensures Valid() && Queue() == old(Queue()) + [ev]
    {
      ghost var q := Queue();
      forall k | 0 <= k <= count
        ensures Slot(tail, k, cfg.depth) < cfg.depth
        ensures k < count ==> Slot(tail, k, cfg.depth) != head
      {
        SlotNear(tail, k, cfg.depth);
        SlotNear(tail, count, cfg.depth);
      }
      SlotNear(tail, count, cfg.depth);
      SlotNear(head, 1, cfg.depth);
      SlotNear(tail, count + 1, cfg.depth);
      ring[head] := ev;
      head := (head + 1) % cfg.depth;
      count := count + 1;
      assert Queue() == q + [ev];
    }

    /** The search of `enqueue` for a queued event of the type. */
    method Find(typ: nat) returns (r: Option<nat>)
      requires Valid()
      ensures r == FindType(Queue(), typ)
    {
      var k := 0;
      while k < count
        invariant 0 <= k <= count
        invariant forall j :: 0 <= j < k ==> Queue()[j].typ != typ
      {
        if ring[(tail + k) % cfg.depth].typ == typ {
          assert Queue()[k].typ == typ;
          return Some(k);
        }
        k := k + 1;
      }
      r := None;
    }

    /** Overwrites the `k`th queued event where it stands. */
    method Overwrite(k: nat, ev: Event)
      requires Valid() && k < count
      modifies ring
      ensures Valid() && Queue() == old(Queue())[k := ev]
    {
      ghost var q := Queue();
      forall j | 0 <= j < count ensures Slot(tail, j, cfg.depth) == Slot(tail, k, cfg.depth) <==> j == k {
        SlotNear(tail, j, cfg.depth);
        SlotNear(tail, k, cfg.depth);
      }
      ring[(tail + k) % cfg.depth] := ev;
      assert Queue() == q[k := ev];
    }

    /** Overwrites the `k`th queued event, and with it a reference of the ring. */
    method Replace(k: nat, ev: Event, pool: BP.BlobPool)
      requires Valid() && pool.Valid() && this !in pool.Repr && ring !in pool.Repr
      requires k < count && Covers(pool.Value(), Queue(), ev.blob)
      modifies ring, pool.Repr
      ensures Valid() && pool.Valid() && Queue() == old(Queue())[k := ev]
      ensures pool.Value() == BP.Retained(BP.Released(old(pool.Value()), old(Queue())[k].blob), ev.blob)
    {
      ghost var q := Queue();
      GiveUp(ring[(tail + k) % cfg.depth], q, k, ev, pool);
      Overwrite(k, ev);
      TakeUp(ev, pool);
    }

    /** Makes room in a full ring: the evicted event's reference dies with it. */
    method Evict(ev: Event, pool: BP.BlobPool)
      requires Valid() && pool.Valid() && this !in pool.Repr && ring !in pool.Repr
      requires 0 < count && Covers(pool.Value(), Queue(), ev.blob)
      modifies this, pool.Repr
      ensures Valid() && pool.Valid()
      ensures var s := old(Value()); Value() == s.(queue := s.queue[1..], dropped := s.dropped + 1)
      ensures pool.Value() == BP.Released(old(pool.Value()), old(Queue())[0].blob)
      ensures ev.blob.Some? ==> Refs(pool.Value(), ev.blob.value) > 0
    {
      hide BP.Settled, Covers, BP.Released;
      ghost var q := Queue();
      var oldest := Advance();
      assert oldest == q[0] && Queue() == q[1..];
      lastDroppedType, dropped := oldest.typ, dropped + 1;
      GiveUp(oldest, q, 0, ev, pool);
    }

    /** The end of `enqueue`: the event is written, counted, and its block retained. */
    method Insert(ev: Event, pool: BP.BlobPool)
      requires Valid() && pool.Valid() && this !in pool.Repr && ring !in pool.Repr
      requires count < cfg.depth && (ev.blob.Some? ==> Refs(pool.Value(), ev.blob.value) > 0)
      modifies this, ring, pool.Repr
      ensures Valid() && pool.Valid()
      ensures Value() == old(Value()).(queue := old(Queue()) + [ev], received := old(received) + 1)
      ensures pool.Value() == BP.Retained(old(pool.Value()), ev.blob)
    {
      Append(ev);
      if count > highWater { highWater := count; }
      received := received + 1;
      TakeUp(ev, pool);
    }

    /** `enqueue` when nothing is coalesced: evict if the policy says so, then append. */
    method Deposit(ev: Event, pool: BP.BlobPool) returns (verdict: Verdict)
      requires Valid() && pool.Valid() && this !in pool.Repr && ring !in pool.Repr
      requires Covers(pool.Value(), Queue(), ev.blob)
      requires !(cfg.coalesce && Coalescable(ev.typ) && FindType(Queue(), ev.typ).Some?)
      modifies this, ring, pool.Repr
      ensures Valid() && pool.Valid()
      ensures Value() == Deliver(old(Value()), ev)
      ensures verdict == BusModel.Enqueue(cfg, old(Queue()), ev).verdict
      ensures pool.Value() == AfterEnqueue(old(pool.Value()), cfg, old(Queue()), ev)
    {
      hide BP.Settled, Covers, Deliver, BusModel.Enqueue, AfterEnqueue, View, BP.Retained, BP.Released;
      PublisherHolds(pool.Value(), Queue(), ev.blob);
      DepositCases(Value(), ev, pool.Value());
      if count == cfg.depth {
        if cfg.policy == DropNewest {
          dropped, lastDroppedType := dropped + 1, ev.typ;
          return Dropped;
        }
        Evict(ev, pool);
        verdict := Replaced;
      } else {
        verdict := Queued;
      }
      Insert(ev, pool);
    }

    /** `enqueue`; the pool keeps a reference for every slot it is asked to give up. */
    method Enqueue(ev: Event, pool: BP.BlobPool) returns (verdict: Verdict)
      requires Valid() && pool.Valid() && this !in pool.Repr && ring !in pool.Repr
      requires Covers(pool.Value(), Queue(), ev.blob)
      modifies this, ring, pool.Repr
      ensures Valid() && pool.Valid()
      ensures Value() == Deliver(old(Value()), ev)
      ensures verdict == BusModel.Enqueue(cfg, old(Queue()), ev).verdict
      ensures pool.Value() == AfterEnqueue(old(pool.Value()), cfg, old(Queue()), ev)
    {
      hide BP.Settled, Covers, View, BP.Retained, BP.Released;
      if cfg.coalesce && Coalescable(ev.typ) {
        var at := Find(ev.typ);
        if at.Some? {
          Replace(at.value, ev, pool);
          coalesced, received := coalesced + 1, received + 1;
          return Replaced;
        }
      }
      verdict := Deposit(ev, pool);
    }

    /** Releases the reference of an event that stood at `k` in a ring holding `q`. */
    static method GiveUp(e: Event, ghost q: seq<Event>, ghost k: nat, ghost ev: Event, pool: BP.BlobPool)
      requires pool.Valid() && k < |q| && e == q[k] && Covers(pool.Value(), q, ev.blob)
      modifies pool.Repr
      ensures pool.Valid() && pool.Value() == BP.Released(old(pool.Value()), e.blob)
      ensures ev.blob.Some? ==> Refs(pool.Value(), ev.blob.value) > 0
    {
      StillHeld(pool.Value(), q, k, ev.blob);
      if e.blob.Some? {
        HandlesNameBlocks(e.blob.value, HandleOf(e.blob.value));
        pool.Release(HandleOf(e.blob.value));
      }
    }

    static method TakeUp(ev: Event, pool: BP.BlobPool)
      requires pool.Valid() && (ev.blob.Some? ==> Refs(pool.Value(), ev.blob.value) > 0)
      modifies pool.Repr
      ensures pool.Valid() && pool.Value() == BP.Retained(old(pool.Value()), ev.blob)
    {
      if ev.blob.Some? {
        HandlesNameBlocks(ev.blob.value, HandleOf(ev.blob.value));
        pool.Retain(HandleOf(ev.blob.value));
      }
    }

    method Give()
      requires Valid()
      modifies this`sem
      ensures Valid() && Value() == old(Value()).(tokens := BusSteps.Min(old(sem) + 1, cfg.depth))
    {
      sem := BusSteps.Min(sem + 1, cfg.depth);
    }

    /** `nev_bus_recv` with nobody else about: the take and the pop that follows it. */
    method Recv() returns (got: Option<Event>)
      requires Valid()
      modifies this
      ensures Valid()
      ensures old(sem) == 0 ==> got == None && Value() == old(Value())
      ensures old(sem) > 0 && old(Queue()) == [] ==>
                got == None && Value() == old(Value()).(tokens := old(sem) - 1)
      ensures old(sem) > 0 && old(Queue()) != [] ==>
                var s := old(Value());
                && got == Some(s.queue[0])
                && Value() == s.(tokens := s.tokens - 1, queue := s.queue[1..], popped := s.popped + [s.queue[0]])
    {
      ghost var s := Value();
      got := None;
      if sem > 0 {
        sem := sem - 1;
        if count > 0 {
          var e := Advance();
          got := Some(e);
          popped := popped + [e];
          assert Queue() == s.queue[1..];
        }
      }
    }

    /** The locked loop of `nev_bus_flush`. */
    method Empty(pool: BP.BlobPool)
      requires Valid() && pool.Valid() && this !in pool.Repr && ring !in pool.Repr
      requires Covers(pool.Value(), Queue(), None)
      modifies this`tail, this`count, pool.Repr
      ensures count == 0 && tail < cfg.depth && pool.Valid()
      ensures pool.Value() == ReleasedAll(old(pool.Value()), old(Queue()))
    {
      ghost var q0, p0 := Queue(), pool.Value();
      while count > 0
        invariant Valid() && pool.Valid() && Covers(pool.Value(), Queue(), None)
        invariant ReleasedAll(pool.Value(), Queue()) == ReleasedAll(p0, q0)
      {
        ghost var q, p := Queue(), pool.Value();
        var e := Advance();
        assert e == q[0] && Queue() == q[1..];
        CoversRest(p, q);
        GiveUp(e, q, 0, e.(blob := None), pool);
      }
    }

    /** The takes of `nev_bus_flush`, outside the lock. */
    method Drain()
      requires Valid()
      modifies this`sem
      ensures Valid() && sem == 0
    {
      while sem > 0 {
        sem := sem - 1;
      }
    }

    /** `nev_bus_flush`: every queued reference is released, and the semaphore drained. */
    method Flush(pool: BP.BlobPool)
      requires Valid() && pool.Valid() && this !in pool.Repr && ring !in pool.Repr
      requires Covers(pool.Value(), Queue(), None)
      modifies this, pool.Repr
      ensures Valid() && pool.Valid()
      ensures var s := old(Value());
              Value() == s.(queue := [], flushed := s.flushed + |s.queue|, tokens := 0)
      ensures pool.Value() == ReleasedAll(old(pool.Value()), old(Queue()))
    {
      hide Covers, ReleasedAll, BP.Settled, BP.BlobPool.Formed, BP.BlobPool.Value;
      ghost var s := Value();
      Empty(pool);
      flushed := flushed + |s.queue|;
      head, tail := 0, 0;
      SlotNear(0, 0, cfg.depth);
      assert Queue() == [];
      Drain();
    }
  }

  // ---------------------------------------------------------------- references, one call at a time

  /** The pool counts at least the references of a ring and the one a publisher brings. */
  ghost predicate Covers(p: Pool, q: seq<Event>, r: Option<Block>)
    requires WellShaped(p)
  {
    forall b: Block :: Refs(p, b) >= Held(q, b) + Holds(r, b)
  }

  lemma {:induction false} HeldAt(q: seq<Event>, k: nat, b: Block)
    requires k < |q|
    ensures Held(q, b) >= Holds(q[k].blob, b)
  {
    if k > 0 { HeldAt(q[1..], k - 1, b); }
  }

  lemma ReleasedRefs(p: Pool, r: Option<Block>, b: Block)
    requires WellShaped(p)
    ensures r.Some? && Refs(p, r.value) > 0 ==> Refs(BP.Released(p, r), b) == Refs(p, b) - Holds(r, b)
    ensures r.None? ==> BP.Released(p, r) == p
  {}

  lemma PublisherHolds(p: Pool, q: seq<Event>, r: Option<Block>)
    requires WellShaped(p) && Covers(p, q, r)
    ensures r.Some? ==> Refs(p, r.value) > 0
  {
    if r.Some? { assert Refs(p, r.value) >= Held(q, r.value) + Holds(r, r.value); }
  }

  /** Giving up slot `k` releases a counted reference, and not the publisher's. */
  lemma StillHeld(p: Pool, q: seq<Event>, k: nat, r: Option<Block>)
    requires WellShaped(p) && k < |q| && Covers(p, q, r)
    ensures q[k].blob.Some? ==> Refs(p, q[k].blob.value) > 0
    ensures r.Some? ==> Refs(BP.Released(p, q[k].blob), r.value) > 0
  {
    if q[k].blob.Some? { HeldAt(q, k, q[k].blob.value); }
    if r.Some? {
      HeldAt(q, k, r.value);
      ReleasedRefs(p, q[k].blob, r.value);
    }
  }

  /** What the locked part of a delivery leaves of the pool. */
  function AfterEnqueue(p: Pool, cfg: Config, q: seq<Event>, ev: Event): (p': Pool)
    requires WellShaped(p) && cfg.depth > 0
    ensures WellShaped(p')
  {
    BP.Retained(BP.Released(p, Leaves(cfg, q, ev)), Enters(cfg, q, ev))
  }

  /** The three ways a delivery ends when nothing is coalesced. */
  lemma DepositCases(s: Sub, ev: Event, p: Pool)
    requires s.cfg.depth > 0 && WellShaped(p)
    requires !(s.cfg.coalesce && Coalescable(ev.typ) && FindType(s.queue, ev.typ).Some?)
    ensures |s.queue| != s.cfg.depth ==>
              && Enqueue(s.cfg, s.queue, ev).verdict == Queued
              && Deliver(s, ev) == s.(queue := s.queue + [ev], received := s.received + 1)
              && AfterEnqueue(p, s.cfg, s.queue, ev) == BP.Retained(p, ev.blob)
    ensures |s.queue| == s.cfg.depth && s.cfg.policy == DropNewest ==>
              && Enqueue(s.cfg, s.queue, ev).verdict == Dropped
              && Deliver(s, ev) == s.(dropped := s.dropped + 1)
              && AfterEnqueue(p, s.cfg, s.queue, ev) == p
    ensures |s.queue| == s.cfg.depth && s.cfg.policy == DropOldest ==>
              && Enqueue(s.cfg, s.queue, ev).verdict == Replaced
              && Deliver(s, ev) == s.(queue := s.queue[1..] + [ev], received := s.received + 1, dropped := s.dropped + 1)
              && AfterEnqueue(p, s.cfg, s.queue, ev) == BP.Retained(BP.Released(p, s.queue[0].blob), ev.blob)
  {}

  function ReleasedAll(p: Pool, q: seq<Event>): Pool
    requires WellShaped(p)
    decreases |q|
  {
    if q == [] then p else ReleasedAll(BP.Released(p, q[0].blob), q[1..])
  }

  lemma CoversRest(p: Pool, q: seq<Event>)
    requires WellShaped(p) && q != [] && Covers(p, q, None)
    ensures Covers(BP.Released(p, q[0].blob), q[1..], None)
  {
    StillHeld(p, q, 0, None);
    forall b: Block ensures Refs(BP.Released(p, q[0].blob), b) >= Held(q[1..], b) {
      assert Refs(p, b) >= Held(q, b);
      ReleasedRefs(p, q[0].blob, b);
    }
  }
}
