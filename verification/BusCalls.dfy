/** The bus as callers use it: each call, made alone, is one run of the step system. */
module BusCalls {
  import opened Basics
  import opened Blob
  import opened BusModel
  import opened BusSteps
  import opened EventBus
  import opened BusSync
  import opened BusRuns
  import BP = BlobPool

  /** What a publish means to one subscriber: the delivery, and a semaphore that again counts the queue. */
  function AfterPublish(s: Sub, ev: Event): Sub
    requires s.cfg.depth > 0
  {
    Filled(Passed(s, ev), |Passed(s, ev).queue|)
  }

  /** What `enqueue` needs of the pool follows from the invariant. */
  lemma CoveredByInv(k: Kernel, i: nat)
    requires Inv(k) && i < |k.subs| && Gone(k.lock) == None
    ensures WellShaped(k.heap.pool)
    ensures Covers(k.heap.pool, k.subs[i].queue, Loan(k.lock)) && Covers(k.heap.pool, k.subs[i].queue, None)
  {
    hide HeapInv, Covers;
    RingIsCovered(k, i);
  }

  function Given(s: Sub): Sub
    requires s.owed > 0
  {
    s.(owed := s.owed - 1, tokens := s.tokens + 1)
  }

  lemma GiveIsRun(k0: Kernel, steps: seq<Step>, k: Kernel, i: nat)
    requires Inv(k) && Runs(k0, steps, k) && i < |k.subs| && k.subs[i].owed > 0
    ensures k.subs[i].tokens < k.subs[i].cfg.depth
    ensures var k' := k.(subs := k.subs[i := Given(k.subs[i])]);
            Inv(k') && Runs(k0, steps + [Give(i)], k')
  {
    GiveShape(k, i);
    CalmKeeps(k, Give(i));
    RunSnoc(k0, steps, k, Give(i));
  }

  lemma GiveShape(k: Kernel, i: nat)
    requires Inv(k) && i < |k.subs| && k.subs[i].owed > 0
    ensures Enabled(k, Give(i)) && k.subs[i].tokens < k.subs[i].cfg.depth
    ensures Apply(k, Give(i)) == k.(subs := k.subs[i := Given(k.subs[i])])
  {
    Depths(k);
    assert SubInv(k.subs[i], Bound(k, i)) && InStep(k.subs[i], Pending(k.lock, i));
  }

  const MAX_SUBS := 16

  /** One more subscriber with nothing queued changes nothing for anybody else. */
  lemma NewcomerKeeps(k: Kernel, k': Kernel, cfg: Config)
    requires Inv(k) && k.lock.Unlocked? && ValidConfig(cfg)
    requires k' == k.(subs := k.subs + [NewSub(cfg)])
    ensures Inv(k')
  {
    forall b: Block ensures References(k', b) == References(k, b) { HeldBySnoc(k.subs, NewSub(cfg), b); }
    SameOwners(k', Owners(k));
    NewcomerSubs(k, k', cfg);
    assert InStep(NewSub(cfg), 0);
  }

  lemma NewcomerSubs(k: Kernel, k': Kernel, cfg: Config)
    requires SubsInv(k) && k.lock.Unlocked? && ValidConfig(cfg)
    requires k' == k.(subs := k.subs + [NewSub(cfg)])
    ensures SubsInv(k')
  {
    assert History(NewSub(cfg)) == [];
    forall i | 0 <= i < |k'.subs|
      ensures SubInv(k'.subs[i], Bound(k', i))
    {
      if i < |k.subs| { assert SubInv(k.subs[i], Bound(k, i)); }
    }
  }

  lemma {:induction false} HeldBySnoc(subs: seq<Sub>, s: Sub, b: Block)
    ensures HeldByAll(subs + [s], b) == HeldByAll(subs, b) + Held(s.queue, b)
  {
    if subs != [] {
      assert (subs + [s])[1..] == subs[1..] + [s];
      HeldBySnoc(subs[1..], s, b);
    }
  }

  class Bus {
    const pool: BP.BlobPool
    /** The slots in use. */
    var subs: seq<Subscriber>
    var lastSeq: nat
    var ready: bool
    /** References that code outside the bus has to release. */
    ghost var clients: multiset<Block>

    ghost function Repr(): set<object>
      reads this
    {
      {this} + pool.Repr + (set s: Subscriber | s in subs :: s) + (set s: Subscriber | s in subs :: s.ring)
    }

    ghost predicate Separate()
      reads this
    {
      && this !in pool.Repr
      && (forall i :: 0 <= i < |subs| ==> subs[i] !in pool.Repr && subs[i].ring !in pool.Repr)
      && (forall i, j :: 0 <= i < j < |subs| ==> subs[i] != subs[j] && subs[i].ring != subs[j].ring)
    }

    ghost predicate Formed()
      reads this, Repr()
    {
      && Separate() && pool.Valid()
      && forall i :: 0 <= i < |subs| ==> subs[i] in Repr() && subs[i].ring in Repr() && subs[i].Valid()
    }

    ghost function Values(): (v: seq<Sub>)
      requires Formed()
      reads this, Repr()
      ensures |v| == |subs|
    {
      seq(|subs|, i requires 0 <= i < |subs| && Formed() reads this, Repr() => subs[i].Value())
    }

    /** The state of the step system this bus is in between calls. */
    ghost function State(): Kernel
      requires Formed()
      reads this, Repr()
    {
      Kernel(Still(pool.Value()), clients, Unlocked, Values(), lastSeq)
    }

    ghost predicate Valid()
      reads this, Repr()
    {
      Formed() && Inv(State()) && (ready || subs == [])
    }

    constructor (pool: BP.BlobPool)
      requires pool.Valid() && pool.Value() == InitialPool()
      ensures Valid() && this.pool == pool && subs == [] && ready
      ensures State() == Initial([])
    {
      this.pool := pool;
      subs, lastSeq, clients, ready := [], 0, multiset{}, true;
      new;
      hide Inv, InitialPool, BP.Settled, BP.BlobPool.Value, BP.BlobPool.Formed;
      assert Values() == [];
      BareState(pool.Value());
    }

    /** `nev_bus_subscribe`: a bus shut down, bad configurations and a full table are refused. */
    method Subscribe(cfg: Config, blank: Event) returns (ok: bool)
      requires Valid()
      modifies this`subs
      ensures Valid()
      ensures ok <==> ready && 1 <= cfg.depth <= MAX_DEPTH && cfg.domains != {} && |old(subs)| < MAX_SUBS
      ensures if ok then Values() == old(Values()) + [NewSub(cfg)] else subs == old(subs)
    {
      hide Inv, BP.Settled;
      ghost var k := State();
      ok := ready && 1 <= cfg.depth <= MAX_DEPTH && cfg.domains != {} && |subs| < MAX_SUBS;
      if ok {
        var s := new Subscriber(cfg, blank);
        assert Formed();
        assert Values() == k.subs;
        Attach(s);
      }
    }

    /** A new subscriber takes the next free slot. */
    method Attach(s: Subscriber)
      requires Valid() && ready && s.Valid() && s.Value() == NewSub(s.cfg)
      requires s !in Repr() && s.ring !in Repr()
      modifies this`subs
      ensures Valid() && Values() == old(Values()) + [NewSub(s.cfg)]
    {
      hide Inv, Bus.Formed, BP.Settled, Subscriber.Valid, Subscriber.Queue, BP.BlobPool.Value, BP.BlobPool.Formed;
      ghost var k := State();
      AddSlot(s);
      NewcomerKeeps(k, State(), s.cfg);
    }

    method AddSlot(s: Subscriber)
      requires Formed() && s.Valid() && s !in Repr() && s.ring !in Repr()
      modifies this`subs
      ensures Formed() && Values() == old(Values()) + [s.Value()] && pool.Value() == old(pool.Value())
      ensures ValidConfig(s.cfg)
    {
      hide BP.Settled, Subscriber.Queue, BP.BlobPool.Value, BP.BlobPool.Formed;
      ghost var v := Values();
      subs := subs + [s];
      assert Values() == v + [s.Value()];
    }

    /** `enqueue` on subscriber `i`, as the bus sees it. */
    method EnqueueAt(i: nat, ev: Event) returns (verdict: Verdict)
      requires Formed() && i < |subs| && Covers(pool.Value(), Values()[i].queue, ev.blob)
      modifies subs[i], subs[i].ring, pool.Repr
      ensures Formed() && old(Values())[i].cfg.depth > 0
      ensures var s := old(Values())[i];
              && Values() == old(Values())[i := Deliver(s, ev)]
              && verdict == Enqueue(s.cfg, s.queue, ev).verdict
              && pool.Value() == AfterEnqueue(old(pool.Value()), s.cfg, s.queue, ev)
    {
      hide BP.Settled, AfterEnqueue, Covers, Deliver, Enqueue, Subscriber.Queue, BP.BlobPool.Value, BP.BlobPool.Formed;
      ghost var v := Values();
      assert v[i] == subs[i].Value();
      verdict := subs[i].Enqueue(ev, pool);
      assert forall j :: 0 <= j < |subs| && j != i ==> subs[j].Value() == v[j];
    }

    /** Subscriber `i`'s turn in the locked pass. */
    method PassOne(i: nat, ev: Event, ghost k: Kernel) returns (signal: bool, refused: bool)
      requires Formed() && i < |subs| && Inv(k)
      requires k.heap == Still(pool.Value()) && k.subs == Values() && k.lock.Publishing? && k.lock.ev == ev && k.lock.next == i
      requires k.lock.gone == None
      modifies subs[i], subs[i].ring, pool.Repr
      ensures Formed()
      ensures k.subs[i].cfg.depth > 0 && Values() == k.subs[i := Passed(k.subs[i], ev)]
      ensures Still(pool.Value()) == AfterOne(k).heap
      ensures signal == Signalled(k.subs[i], ev) && refused == Refused(k.subs[i], ev)
    {
      hide Inv, Bus.Formed, BP.Settled, AfterEnqueue, Covers, Deliver, Enqueue;
      hide Subscriber.Valid, Subscriber.Queue, BP.BlobPool.Value, BP.BlobPool.Formed;
      Depths(k);
      signal, refused := false, false;
      ValueAt(i);
      if DomainId(ev.typ) in subs[i].cfg.domains {
        CoveredByInv(k, i);
        var verdict := EnqueueAt(i, ev);
        signal, refused := verdict.Queued?, verdict.Dropped?;
      } else {
        assert k.subs[i := k.subs[i]] == k.subs;
      }
    }

    lemma ValueAt(i: nat)
      requires Formed() && i < |subs|
      ensures Values()[i].cfg == subs[i].cfg
    {
      assert Values()[i] == subs[i].Value();
    }

    /** The publish of `ev`, begun in `k1`, has passed `i` subscribers and come to `k`. */
    ghost predicate At(p: Pass, i: nat, toSignal: seq<nat>, ok: bool)
      reads this, Repr()
    {
      && Formed() && i <= |subs|
      && Inv(p.k) && Runs(p.k0, p.steps, p.k)
      && p.k == p.k1.(heap := Still(pool.Value()), subs := Values(), lock := Publishing(p.ev, i, toSignal, None))
      && Progress(p.k1.subs, p.k.subs, p.ev, i, toSignal, ok)
    }

    /** One round of the locked pass. */
    method PassNext(ghost p: Pass, ev: Event, i: nat, toSignal: seq<nat>, ok: bool)
        returns (toSignal': seq<nat>, ok': bool, ghost p': Pass)
      requires i < |subs| && ev == p.ev && At(p, i, toSignal, ok)
      modifies subs[i], subs[i].ring, pool.Repr
      ensures At(p', i + 1, toSignal', ok') && p' == p.(steps := p'.steps, k := p'.k)
    {
      hide Inv, Runs, Progress, BP.Settled, AfterEnqueue, Deliver, Enqueue;
      Depths(p.k);
      ghost var steps := PassedIsRun(p.k0, p.steps, p.k);
      p' := p.(steps := steps, k := AfterOne(p.k));
      ProgressStep(p.k1.subs, p.k.subs, ev, i, toSignal, ok);
      var signal, refused := PassOne(i, ev, p.k);
      toSignal' := if signal then toSignal + [i] else toSignal;
      ok' := ok && !refused;
    }

    /** The locked pass of `nev_bus_publish` over all subscribers. */
    method PassAll(ghost p: Pass, ev: Event) returns (toSignal: seq<nat>, ok: bool, ghost p': Pass)
      requires ev == p.ev && At(p, 0, [], true)
      modifies Repr() - {this}
      ensures At(p', |subs|, toSignal, ok) && p' == p.(steps := p'.steps, k := p'.k)
    {
      hide Inv, Runs, Progress, Still, BP.Settled, Subscriber.Queue, Subscriber.Valid, BP.BlobPool.Value, BP.BlobPool.Formed;
      p', toSignal, ok := p, [], true;
      var i := 0;
      while i < |subs|
        invariant i <= |subs| && At(p', i, toSignal, ok)
        invariant p' == p.(steps := p'.steps, k := p'.k)
      {
        toSignal, ok, p' := PassNext(p', ev, i, toSignal, ok);
        i := i + 1;
      }
    }

    /** The lock let go, the first `j` of the owed gives of a publish have been made. */
    ghost predicate Giving(p: Pass, j: nat, toSignal: seq<nat>, passed: seq<Sub>)
      reads this, Repr()
    {
      && Formed() && j <= |toSignal| && Inv(p.k) && Runs(p.k0, p.steps, p.k)
      && p.k.(subs := Values()) == State() && Owes(p.k.subs, Values(), passed, toSignal, j)
    }

    /** One give, to subscriber `i`. */
    method GiveTo(i: nat)
      requires Formed() && i < |subs| && Values()[i].tokens < Values()[i].cfg.depth
      modifies subs[i]
      ensures Formed() && Values() == old(Values())[i := old(Values())[i].(tokens := old(Values())[i].tokens + 1)]
    {
      hide BP.Settled, Subscriber.Queue, BP.BlobPool.Value;
      ghost var v := Values();
      assert v[i] == subs[i].Value();
      subs[i].Give();
      assert forall j :: 0 <= j < |subs| && j != i ==> subs[j].Value() == v[j];
    }

    method GiveNext(ghost p: Pass, j: nat, toSignal: seq<nat>, ghost passed: seq<Sub>) returns (ghost p': Pass)
      requires j < |toSignal| && toSignal[j] < |subs| && Giving(p, j, toSignal, passed)
      modifies subs[toSignal[j]]
      ensures Giving(p', j + 1, toSignal, passed) && p' == p.(steps := p'.steps, k := p'.k)
    {
      hide Inv, Runs, Owes, Given, BP.Settled, Subscriber.Valid, Subscriber.Queue, BP.BlobPool.Value, BP.BlobPool.Formed;
      var i := toSignal[j];
      OwedStep(p.k.subs, Values(), passed, toSignal, j);
      GiveIsRun(p.k0, p.steps, p.k, i);
      p' := p.(steps := p.steps + [Give(i)], k := p.k.(subs := p.k.subs[i := Given(p.k.subs[i])]));
      GiveTo(i);
    }

    /** The gives of a publish, outside the lock. */
    method GiveAll(ghost p: Pass, toSignal: seq<nat>, ghost passed: seq<Sub>) returns (ghost p': Pass)
      requires Giving(p, 0, toSignal, passed)
      modifies subs
      ensures Giving(p', |toSignal|, toSignal, passed) && p' == p.(steps := p'.steps, k := p'.k)
    {
      hide Inv, Runs, BP.Settled, Subscriber.Valid, Subscriber.Queue, BP.BlobPool.Value, BP.BlobPool.Formed, Owing, Filled;
      p' := p;
      var j := 0;
      while j < |toSignal|
        invariant j <= |toSignal| && Giving(p', j, toSignal, passed) && p' == p.(steps := p'.steps, k := p'.k)
      {
        p' := GiveNext(p', j, toSignal, passed);
        j := j + 1;
      }
    }

    /** The part of `nev_bus_publish` inside the lock. */
    method PublishLocked(typ: nat, blob: Option<Block>, payload: int)
        returns (toSignal: seq<nat>, ok: bool, ghost p: Pass)
      requires Valid() && (blob.Some? ==> blob.value in clients)
      modifies Repr()
      ensures subs == old(subs) && clients == old(clients) && lastSeq == old(lastSeq) + 1 && ready == old(ready)
      ensures Formed() && Giving(p, 0, toSignal, Values()) && p.k0 == old(State())
      ensures Progress(old(Values()), Values(), Event(typ, lastSeq, blob, payload), |subs|, toSignal, ok)
    {
      hide Inv, Runs, Progress, BP.Settled, Subscriber.Queue, BP.BlobPool.Value, Owing, Filled;
      ghost var k0 := State();
      p := BeginIsRun(k0, typ, blob, payload);
      lastSeq := lastSeq + 1;
      var ev := Event(typ, lastSeq, blob, payload);
      assert Values() == k0.subs;
      toSignal, ok, p := PassAll(p, ev);
      p := EndIsRun(p, toSignal, ok);
      OwedAtFirst(p.k.subs, Values(), toSignal);
      assert p.k.(subs := Values()) == State();
    }

    /**
     * `nev_bus_publish` with nobody else about: a run of the step system that delivers to every subscriber
     * of the domain, and tells whether some subscriber refused the event.
     */
    method Publish(typ: nat, blob: Option<Block>, payload: int) returns (r: Published, ghost steps: seq<Step>)
      requires Valid() && (blob.Some? ==> blob.value in clients)
      modifies Repr()
      ensures subs == old(subs) && clients == old(clients) && ready == old(ready)
      ensures Valid() && Runs(old(State()), steps, State())
      ensures r == NotReady <==> !ready
      ensures !ready ==> State() == old(State())
      ensures ready ==> lastSeq == old(lastSeq) + 1
                        && Delivered(old(Values()), Values(), Event(typ, lastSeq, blob, payload), r == Accepted)
      ensures ready ==> (r == Accepted <==> Arrived(Values(), Event(typ, lastSeq, blob, payload)))
    {
      hide Inv, Runs, Progress, Delivered, Owes;
      hide BP.Settled, Subscriber.Valid, Subscriber.Queue, BP.BlobPool.Value, BP.BlobPool.Formed;
      if !ready {
        r, steps := NotReady, [];
        RunsNowhere(State());
        return;
      }
      ghost var before := Values();
      var toSignal, ok;
      ghost var p;
      toSignal, ok, p := PublishLocked(typ, blob, payload);
      r := if ok then Accepted else SomeDropped;
      ghost var passed := Values();
      p := GiveAll(p, toSignal, passed);
      AllGiven(p.k.subs, Values(), passed, toSignal);
      PublishDelivers(before, passed, p.k, Event(typ, lastSeq, blob, payload), toSignal, ok);
      DeliveredMeansArrived(old(State()), Values(), Event(typ, lastSeq, blob, payload), ok);
      steps := p.steps;
    }

    method ReceiveFrom(i: nat) returns (got: Option<Event>)
      requires Formed() && i < |subs| && Values()[i].tokens == |Values()[i].queue|
      modifies subs[i]
      ensures Formed() && pool.Value() == old(pool.Value())
      ensures var s := old(Values())[i];
              got == (if s.queue == [] then None else Some(s.queue[0])) && Values() == old(Values())[i := Received(s)]
    {
      hide BP.Settled, Subscriber.Queue, BP.BlobPool.Value;
      ghost var v := Values();
      assert v[i] == subs[i].Value();
      got := subs[i].Recv();
      assert forall j :: 0 <= j < |subs| && j != i ==> subs[j].Value() == v[j];
    }

    /** The reference that goes with a received event passes to the receiver. */
    ghost method HandOver(got: Option<Event>)
      requires Formed()
      modifies this`clients
      ensures Formed() && Values() == old(Values()) && pool.Value() == old(pool.Value())
      ensures clients == if got.Some? then Return(old(clients), got.value.blob) else old(clients)
    {
      hide BP.Settled, Subscriber.Queue, Subscriber.Valid, BP.BlobPool.Value, BP.BlobPool.Formed;
      if got.Some? { clients := Return(clients, got.value.blob); }
    }

    /**
     * `nev_bus_recv` with nobody else about: an event whenever one is queued, and with it the reference the
     * receiver has to release.
     */
    method Receive(i: nat) returns (got: Option<Event>, ghost steps: seq<Step>)
      requires Valid() && i < |subs|
      modifies Repr()
      ensures subs == old(subs) && ready == old(ready) && Valid() && Runs(old(State()), steps, State())
      ensures got.Some? <==> old(Values())[i].queue != []
      ensures got.Some? ==> got.value == old(Values())[i].queue[0] && clients == Return(old(clients), got.value.blob)
      ensures got.None? ==> State() == old(State())
    {
      hide Inv, Runs, BP.Settled, Subscriber.Queue, Subscriber.Valid, BP.BlobPool.Value, BP.BlobPool.Formed;
      ghost var k0 := State();
      steps := ReceiveIsRun(k0, i);
      got := ReceiveFrom(i);
      HandOver(got);
      assert State() == AfterReceive(k0, i);
    }

    method FlushFrom(i: nat)
      requires Formed() && i < |subs| && Covers(pool.Value(), Values()[i].queue, None)
      modifies subs[i], pool.Repr
      ensures subs == old(subs) && Formed()
      ensures Values() == old(Values())[i := Flushed(old(Values())[i])]
      ensures pool.Value() == ReleasedAll(old(pool.Value()), old(Values())[i].queue)
    {
      hide BP.Settled, Subscriber.Queue, BP.BlobPool.Value, BP.BlobPool.Formed, Covers, ReleasedAll;
      ghost var v := Values();
      assert v[i] == subs[i].Value();
      subs[i].Flush(pool);
      assert forall j :: 0 <= j < |subs| && j != i ==> subs[j].Value() == v[j];
    }

    /** `nev_bus_flush` with nobody else about: the queue goes, and with it every reference it held. */
    method Flush(i: nat) returns (ghost steps: seq<Step>)
      requires Valid() && i < |subs|
      modifies Repr()
      ensures subs == old(subs) && clients == old(clients) && lastSeq == old(lastSeq) && ready == old(ready)
      ensures Valid() && Runs(old(State()), steps, State())
      ensures Values() == old(Values())[i := Flushed(old(Values())[i])]
    {
      hide Inv, Runs, BP.Settled, Subscriber.Queue, Subscriber.Valid, BP.BlobPool.Value, BP.BlobPool.Formed;
      ghost var k0 := State();
      steps := FlushIsRun(k0, i);
      CoveredByInv(k0, i);
      FlushFrom(i);
      assert State() == AfterFlush(k0, i);
    }

    /** The loop of `nev_bus_deinit`, before any slot is given up. */
    method FlushAll() returns (ghost steps: seq<Step>)
      requires Valid()
      modifies Repr()
      ensures subs == old(subs) && clients == old(clients) && lastSeq == old(lastSeq) && ready == old(ready)
      ensures Valid() && Runs(old(State()), steps, State())
      ensures forall i :: 0 <= i < |subs| ==> Values()[i].queue == []
    {
      hide Inv, Runs, BP.Settled, Subscriber.Queue, Subscriber.Valid, BP.BlobPool.Value, BP.BlobPool.Formed;
      ghost var k0 := State();
      steps := [];
      RunsNowhere(k0);
      var i := 0;
      while i < |subs|
        invariant i <= |subs| && subs == old(subs) && clients == old(clients) && lastSeq == old(lastSeq) && ready == old(ready)
        invariant Valid() && Runs(k0, steps, State())
        invariant forall j :: 0 <= j < i ==> Values()[j].queue == []
      {
        ghost var k := State();
        ghost var more := Flush(i);
        RunsOn(k0, steps, k, more, State());
        steps := steps + more;
        i := i + 1;
      }
    }

    /**
     * `nev_bus_deinit`: every subscriber is flushed and every slot given up, until `Init`.  References held
     * outside the bus stay counted; when there are none the whole pool is free.
     */
    method Deinit() returns (ghost steps: seq<Step>, ghost k: Kernel)
      requires Valid()
      modifies Repr()
      ensures Valid() && !ready && subs == [] && clients == old(clients)
      ensures Runs(old(State()), steps, k) && (forall i :: 0 <= i < |k.subs| ==> k.subs[i].queue == [])
      ensures State() == k.(subs := [])
      ensures clients == multiset{} ==> AllFree(pool.Value())
    {
      hide Inv, Runs, BP.Settled, Subscriber.Queue, Subscriber.Valid, BP.BlobPool.Value, BP.BlobPool.Formed;
      steps, k := [], State();
      RunsNowhere(k);
      if ready {
        steps := FlushAll();
        k := State();
        GiveUpSlots();
      }
      if clients == multiset{} { BareIsFree(State()); }
    }

    method GiveUpSlots()
      requires Valid() && forall i :: 0 <= i < |subs| ==> Values()[i].queue == []
      modifies this`subs, this`ready
      ensures Valid() && !ready && subs == [] && State() == old(State()).(subs := [])
    {
      hide Inv, BP.Settled, Subscriber.Queue, Subscriber.Valid, BP.BlobPool.Value, BP.BlobPool.Formed;
      SlotsGivenUp(State());
      subs, ready := [], false;
      assert Values() == [];
    }

    /** `nev_bus_init`, which does nothing to a bus that is up. */
    method Init()
      requires Valid()
      modifies this`lastSeq, this`ready
      ensures Valid() && ready
      ensures old(ready) ==> State() == old(State())
      ensures !old(ready) ==> subs == [] && State() == old(State()).(lastSeq := 0)
    {
      hide HeapInv, BP.Settled, BP.BlobPool.Value, BP.BlobPool.Formed;
      if !ready {
        ghost var k := State();
        lastSeq, ready := 0, true;
        Renumbered(k, State());
      }
    }
  }

  lemma BareState(p: Pool)
    requires p == InitialPool()
    ensures Kernel(Still(p), multiset{}, Unlocked, [], 0) == Initial([]) && Inv(Initial([]))
  {
    hide Core;
    InitialCore([]);
  }

  /** What a publish reports. */
  datatype Published = Accepted | SomeDropped | NotReady

  /** Subscribers with empty rings can go without anybody's reference going with them. */
  lemma SlotsGivenUp(k: Kernel)
    requires Inv(k) && k.lock.Unlocked? && forall i :: 0 <= i < |k.subs| ==> k.subs[i].queue == []
    ensures Inv(k.(subs := []))
  {
    var k' := k.(subs := []);
    forall b: Block ensures References(k', b) == References(k, b) { NewSubsHoldNothing(k.subs, b); }
    SameOwners(k', Owners(k));
  }

  lemma Renumbered(k: Kernel, k': Kernel)
    requires Inv(k) && k.lock.Unlocked? && k.subs == [] && k' == k.(lastSeq := k'.lastSeq)
    ensures Inv(k')
  {
    SameOwners(k', Owners(k));
  }

  lemma BareIsFree(k: Kernel)
    requires Inv(k) && k.lock.Unlocked? && k.subs == [] && k.clients == multiset{} && k.heap == Still(k.heap.pool)
    ensures AllFree(k.heap.pool)
  {
    QuietIsFree(k);
  }

  /** A subscriber one of whose events, if it has any, has been received. */
  function Received(s: Sub): Sub {
    if s.queue == [] || s.tokens == 0 then s
    else s.(tokens := s.tokens - 1, queue := s.queue[1..], popped := s.popped + [s.queue[0]])
  }

  function AfterReceive(k: Kernel, i: nat): Kernel
    requires i < |k.subs|
  {
    var s := k.subs[i];
    k.(subs := k.subs[i := Received(s)],
       clients := if s.queue == [] || s.tokens == 0 then k.clients else Return(k.clients, s.queue[0].blob))
  }

  lemma ReceiveIsRun(k: Kernel, i: nat) returns (steps: seq<Step>)
    requires Inv(k) && i < |k.subs| && k.lock.Unlocked? && k.subs[i].owed == k.subs[i].taken == 0
    ensures k.subs[i].tokens == |k.subs[i].queue|
    ensures Inv(AfterReceive(k, i)) && Runs(k, steps, AfterReceive(k, i))
  {
    assert InStep(k.subs[i], Pending(k.lock, i));
    steps := [];
    assert k.subs[i].queue == [] ==> AfterReceive(k, i) == k;
    if k.subs[i].queue != [] {
      TakePopIsRun(k, i);
      steps := [Take(i), Pop(i)];
    }
  }

  lemma TakePopIsRun(k: Kernel, i: nat)
    requires Inv(k) && i < |k.subs| && k.lock.Unlocked? && k.subs[i].taken == 0
    requires k.subs[i].tokens > 0 && k.subs[i].queue != []
    ensures Inv(AfterReceive(k, i)) && Runs(k, [Take(i), Pop(i)], AfterReceive(k, i))
  {
    hide Inv, Runs, Apply, AfterReceive, FreeInRange, WellShaped;
    Depths(k);
    TakePopShape(k, i);
    CalmKeeps(k, Take(i));
    var k1 := Apply(k, Take(i));
    CalmKeeps(k1, Pop(i));
    RunsNowhere(k);
    RunSnoc(k, [], k, Take(i));
    RunSnoc(k, [] + [Take(i)], k1, Pop(i));
    assert [] + [Take(i)] + [Pop(i)] == [Take(i), Pop(i)];
  }

  lemma TakePopShape(k: Kernel, i: nat)
    requires Enabled(k, Take(i)) && k.lock.Unlocked? && k.subs[i].taken == 0 && k.subs[i].queue != []
    ensures var k1 := Apply(k, Take(i));
            Enabled(k1, Pop(i)) && Apply(k1, Pop(i)) == AfterReceive(k, i)
  {
    hide FreeInRange, WellShaped;
    var s, k1 := k.subs[i], Apply(k, Take(i));
    assert k1.subs[i := Received(s)] == k.subs[i := Received(s)];
  }

  lemma OwedAtFirst(w: seq<Sub>, v: seq<Sub>, toSignal: seq<nat>)
    requires w == AddOwed(v, toSignal) && forall i :: 0 <= i < |v| ==> v[i].owed == 0
    requires forall j :: 0 <= j < |toSignal| ==> toSignal[j] < |v|
    ensures Owes(w, v, v, toSignal, 0)
  {
    assert toSignal[0..] == toSignal;
  }

  /** What a publish does to all subscribers, and when it reports success. */
  ghost predicate Delivered(before: seq<Sub>, after: seq<Sub>, ev: Event, ok: bool) {
    && |before| == |after| && (forall i :: 0 <= i < |before| ==> before[i].cfg.depth > 0)
    && (forall i :: 0 <= i < |before| ==> after[i] == AfterPublish(before[i], ev))
    && (ok <==> forall i :: 0 <= i < |before| ==> !Refused(before[i], ev))
  }

  /** Every subscriber that asked for the event's domain has it in its ring. */
  predicate Arrived(subs: seq<Sub>, ev: Event) {
    forall i :: 0 <= i < |subs| && DomainId(ev.typ) in subs[i].cfg.domains ==> ev in subs[i].queue
  }

  lemma DeliveredMeansArrived(k: Kernel, after: seq<Sub>, ev: Event, ok: bool)
    requires Inv(k) && k.lock.Unlocked? && ev.seqNo == k.lastSeq + 1 && Delivered(k.subs, after, ev, ok)
    ensures ok <==> Arrived(after, ev)
  {
    hide HeapInv, LockInv, Calm, SubInv, Refused, Passed, Enqueue, Deliver;
    forall i | 0 <= i < |after|
      ensures !Refused(k.subs[i], ev) <==> (DomainId(ev.typ) in after[i].cfg.domains ==> ev in after[i].queue)
    {
      assert SubInv(k.subs[i], Bound(k, i));
      RefusedIff(k.subs[i], k.lastSeq, ev);
      PassedConfig(k.subs[i], ev);
      assert after[i] == AfterPublish(k.subs[i], ev);
    }
  }

  lemma PassedConfig(s: Sub, ev: Event)
    requires s.cfg.depth > 0
    ensures Passed(s, ev).cfg == s.cfg
  {}

  lemma AllGiven(w: seq<Sub>, v: seq<Sub>, passed: seq<Sub>, toSignal: seq<nat>)
    requires Owes(w, v, passed, toSignal, |toSignal|) && forall i :: 0 <= i < |v| ==> v[i].owed == 0
    ensures w == v
  {
    assert toSignal[|toSignal|..] == [];
    forall i | 0 <= i < |v| ensures w[i] == v[i] {}
  }

  lemma PublishDelivers(before: seq<Sub>, passed: seq<Sub>, k: Kernel, ev: Event, toSignal: seq<nat>, ok: bool)
    requires Progress(before, passed, ev, |before|, toSignal, ok)
    requires Inv(k) && k.lock.Unlocked? && Owes(k.subs, k.subs, passed, toSignal, |toSignal|)
    requires forall i :: 0 <= i < |passed| ==> k.subs[i].owed == k.subs[i].taken == 0
    ensures Delivered(before, k.subs, ev, ok)
  {
    hide Core;
    forall i | 0 <= i < |before| ensures k.subs[i] == AfterPublish(before[i], ev) {
      assert InStep(k.subs[i], Pending(k.lock, i));
    }
  }

  /** A subscriber with its semaphore at `n`. */
  function Filled(s: Sub, n: nat): Sub { s.(tokens := n) }

  /** A subscriber with `n` gives still to come to it. */
  function Owing(s: Sub, n: nat): Sub { s.(owed := n) }

  /** The gives from the `j`th on are owed, and apart from its semaphore nobody differs from `passed`. */
  ghost predicate Owes(w: seq<Sub>, v: seq<Sub>, passed: seq<Sub>, toSignal: seq<nat>, j: nat) {
    && |w| == |v| == |passed| && j <= |toSignal|
    && (forall i :: 0 <= i < |toSignal| ==> toSignal[i] < |v|)
    && (forall i :: 0 <= i < |v| ==> w[i] == Owing(v[i], multiset(toSignal[j..])[i]))
    && (forall i :: 0 <= i < |v| ==> v[i] == Filled(passed[i], v[i].tokens))
  }

  lemma OwedStep(w: seq<Sub>, v: seq<Sub>, passed: seq<Sub>, toSignal: seq<nat>, j: nat)
    requires j < |toSignal| && Owes(w, v, passed, toSignal, j)
    ensures toSignal[j] < |v| == |w|
    ensures var t := toSignal[j];
            && w[t].owed > 0 && w[t].tokens == v[t].tokens && w[t].cfg == v[t].cfg
            && Owes(w[t := Given(w[t])], v[t := v[t].(tokens := v[t].tokens + 1)], passed, toSignal, j + 1)
  {
    var t := toSignal[j];
    CountsOfRest(toSignal, j);
    assert w[t] == Owing(v[t], multiset(toSignal[j..])[t]) && v[t] == Filled(passed[t], v[t].tokens);
    var w', v' := w[t := Given(w[t])], v[t := v[t].(tokens := v[t].tokens + 1)];
    forall i | 0 <= i < |v| ensures w'[i] == Owing(v'[i], multiset(toSignal[j + 1..])[i]) && v'[i] == Filled(passed[i], v'[i].tokens) {
      assert w[i] == Owing(v[i], multiset(toSignal[j..])[i]) && v[i] == Filled(passed[i], v[i].tokens);
    }
  }

  lemma CountsOfRest(toSignal: seq<nat>, j: nat)
    requires j < |toSignal|
    ensures forall i :: multiset(toSignal[j..])[i] == multiset(toSignal[j + 1..])[i] + (if i == toSignal[j] then 1 else 0)
  {
    assert toSignal[j..] == [toSignal[j]] + toSignal[j + 1..];
  }

  lemma SignalsKnown(k: Kernel)
    requires Inv(k) && k.lock.Publishing?
    ensures forall j :: 0 <= j < |k.lock.signals| ==> k.lock.signals[j] < |k.subs|
  {
    hide HeapInv, SubsInv;
  }

  /** A pass over all subscribers done, the lock is let go and the wake-ups are owed. */
  lemma EndIsRun(p: Pass, toSignal: seq<nat>, ok: bool) returns (p': Pass)
    requires Inv(p.k) && Runs(p.k0, p.steps, p.k)
    requires p.k.lock == Publishing(p.ev, |p.k.subs|, toSignal, None)
    requires Progress(p.k1.subs, p.k.subs, p.ev, |p.k.subs|, toSignal, ok)
    ensures Inv(p'.k) && Runs(p.k0, p'.steps, p'.k) && p' == p.(steps := p'.steps, k := p'.k)
    ensures p'.k == p.k.(lock := Unlocked, subs := AddOwed(p.k.subs, toSignal), clients := Return(p.k.clients, p.ev.blob))
    ensures forall j :: 0 <= j < |toSignal| ==> toSignal[j] < |p.k.subs|
  {
    hide Inv, FreeInRange, WellShaped, Runs, Passed, Signalled, Refused;
    Depths(p.k);
    SignalsKnown(p.k);
    CalmKeeps(p.k, PublishEnd);
    RunSnoc(p.k0, p.steps, p.k, PublishEnd);
    p' := p.(steps := p.steps + [PublishEnd], k := Apply(p.k, PublishEnd));
  }

  lemma BeginIsRun(k0: Kernel, typ: nat, blob: Option<Block>, payload: int) returns (p: Pass)
    requires Inv(k0) && k0.lock.Unlocked? && (blob.Some? ==> blob.value in k0.clients)
    ensures Inv(p.k) && Runs(k0, p.steps, p.k) && p.k0 == k0 && p.k1 == p.k && p.ev == Event(typ, k0.lastSeq + 1, blob, payload)
    ensures p.k == k0.(lock := Publishing(p.ev, 0, [], None), lastSeq := k0.lastSeq + 1, clients := Lend(k0.clients, blob))
    ensures Progress(k0.subs, k0.subs, p.ev, 0, [], true)
  {
    hide Inv, FreeInRange, WellShaped;
    Depths(k0);
    var step := PublishBegin(typ, blob, payload);
    CalmKeeps(k0, step);
    var k := Apply(k0, step);
    assert Runs(k, [], k);
    p := Pass(Event(typ, k0.lastSeq + 1, blob, payload), k0, k, [step], k);
  }

  /** The bookkeeping of a publish: the state before the call, the state it began in, and the run so far. */
  datatype Pass = Pass(ev: Event, k0: Kernel, k1: Kernel, steps: seq<Step>, k: Kernel)

  /** How far a publish has come: who has been passed, who is to be woken, whether anybody refused. */
  ghost predicate Progress(before: seq<Sub>, now: seq<Sub>, ev: Event, i: nat, toSignal: seq<nat>, ok: bool) {
    && |before| == |now| && i <= |now|
    && (forall j :: 0 <= j < |before| ==> before[j].cfg.depth > 0)
    && (forall j :: 0 <= j < |now| ==> now[j] == if j < i then Passed(before[j], ev) else before[j])
    && (forall j :: 0 <= j < |now| ==> multiset(toSignal)[j] == if j < i && Signalled(before[j], ev) then 1 else 0)
    && (ok <==> forall j :: 0 <= j < i ==> !Refused(before[j], ev))
  }

  lemma ProgressStep(before: seq<Sub>, now: seq<Sub>, ev: Event, i: nat, toSignal: seq<nat>, ok: bool)
    requires Progress(before, now, ev, i, toSignal, ok) && i < |now|
    ensures now[i] == before[i]
    ensures Progress(before, now[i := Passed(now[i], ev)], ev, i + 1,
                     if Signalled(now[i], ev) then toSignal + [i] else toSignal, ok && !Refused(now[i], ev))
  {}
}
