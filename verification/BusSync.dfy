/** Ring and semaphore of a subscriber: when they agree, and what a flush does to the agreement. */
module BusSync {
  import opened Basics
  import opened Blob
  import opened BusModel
  import opened BusSteps

  /** Every queued event has its wake-up: in the semaphore, still owed, or with a receiver about to pop. */
  predicate InStep(s: Sub, pending: nat) {
    |s.queue| == s.tokens + s.owed + s.taken + pending
  }

  /** A subscriber in step, or one whose flush, the only one, has nobody between two steps beside it. */
  predicate SyncSub(s: Sub, pending: nat, flushing: bool) {
    if s.draining == 0 && !flushing then InStep(s, pending)
    else
      && s.owed == s.taken == pending == 0
      && s.draining == (if flushing then 0 else 1)
      && (flushing || s.queue == [])
  }

  ghost predicate Sync(k: Kernel) {
    forall i :: 0 <= i < |k.subs| ==> SyncSub(k.subs[i], Pending(k.lock, i), k.lock == Flushing(i))
  }

  /**
   * A step that does not race a flush: a flush begins only where nobody is between two steps and no other
   * flush is on, and until it is over nobody receives there or delivers to the emptied ring.
   */
  predicate Unraced(k: Kernel, step: Step)
    requires Enabled(k, step)
  {
    match step
    case FlushBegin(i) => k.subs[i].owed == k.subs[i].taken == k.subs[i].draining == 0
    case Take(i) => k.subs[i].draining == 0 && k.lock != Flushing(i)
    case PublishOne =>
      var s := k.subs[k.lock.next];
      DomainId(k.lock.ev.typ) in s.cfg.domains ==> s.draining == 0
    case _ => true
  }

  lemma InitialSync(cfgs: seq<Config>)
    ensures Sync(Initial(cfgs))
  {}

  lemma SyncAt(k: Kernel, i: nat)
    requires Core(k) && Sync(k) && i < |k.subs|
    ensures SyncSub(k.subs[i], Pending(k.lock, i), k.lock == Flushing(i))
    ensures |k.subs[i].queue| <= k.subs[i].cfg.depth
  {
    assert SubInv(k.subs[i], Bound(k, i));
  }

  /** Lock and signals unchanged as far as subscribers other than `i` see, they stay as they were. */
  lemma SyncOneSub(k: Kernel, k': Kernel, i: nat)
    requires Sync(k) && i < |k.subs| && |k'.subs| == |k.subs|
    requires forall j :: 0 <= j < |k.subs| && j != i ==>
               k'.subs[j] == k.subs[j] && Pending(k'.lock, j) == Pending(k.lock, j)
               && (k'.lock == Flushing(j) <==> k.lock == Flushing(j))
    requires SyncSub(k'.subs[i], Pending(k'.lock, i), k'.lock == Flushing(i))
    ensures Sync(k')
  {}

  lemma SyncCount(k: Kernel, step: Step)
    requires Core(k) && Sync(k) && Enabled(k, step) && Unraced(k, step) && IsCount(step)
    ensures Sync(Apply(k, step))
  {
    hide Core, Sync;
    SyncAt(k, step.i);
    SyncOneSub(k, Apply(k, step), step.i);
  }

  lemma DeliveredLength(s: Sub, ev: Event)
    requires s.cfg.depth > 0
    ensures |Deliver(s, ev).queue| == |s.queue| + (if Enqueue(s.cfg, s.queue, ev).verdict.Queued? then 1 else 0)
  {}

  lemma SyncPublishOne(k: Kernel)
    requires Core(k) && Sync(k) && Enabled(k, PublishOne) && Unraced(k, PublishOne)
    ensures Sync(Apply(k, PublishOne))
  {
    hide Core, Sync, Enqueue, Leaves, Enters, AddRef;
    var i := k.lock.next;
    var s := k.subs[i];
    SyncAt(k, i);
    DeliveredLength(s, k.lock.ev);
    SyncOneSub(k, Apply(k, PublishOne), i);
  }

  lemma SyncPop(k: Kernel, i: nat)
    requires Core(k) && Sync(k) && Enabled(k, Pop(i))
    ensures k.subs[i].queue != [] && Sync(Apply(k, Pop(i)))
  {
    hide Core, Sync;
    SyncAt(k, i);
    SyncOneSub(k, Apply(k, Pop(i)), i);
  }

  lemma SyncFlush(k: Kernel, step: Step)
    requires Core(k) && Sync(k) && Enabled(k, step) && Unraced(k, step)
    requires step.FlushBegin? || step.FlushOne? || step.FlushEnd?
    ensures Sync(Apply(k, step))
  {
    hide Core, Sync, DropRef;
    var i := if step.FlushBegin? then step.i else k.lock.i;
    SyncAt(k, i);
    SyncOneSub(k, Apply(k, step), i);
  }

  lemma SyncPublishEdge(k: Kernel, step: Step)
    requires Core(k) && Sync(k) && Enabled(k, step)
    requires step.PublishBegin? || step.PublishVacate? || step.PublishEnd?
    ensures Sync(Apply(k, step))
  {
    hide Core, DropRef, Outgoing;
    var k' := Apply(k, step);
    forall i | 0 <= i < |k'.subs| ensures SyncSub(k'.subs[i], Pending(k'.lock, i), k'.lock == Flushing(i)) {
      assert SyncSub(k.subs[i], Pending(k.lock, i), k.lock == Flushing(i));
    }
  }

  lemma SyncKeeps(k: Kernel, step: Step)
    requires Core(k) && Sync(k) && Enabled(k, step) && Unraced(k, step)
    ensures Sync(Apply(k, step))
  {
    hide Core, Enabled;
    match step
    case PublishBegin(_, _, _) => SyncPublishEdge(k, step);
    case PublishVacate => SyncPublishEdge(k, step);
    case PublishEnd => SyncPublishEdge(k, step);
    case PublishOne => SyncPublishOne(k);
    case Pop(i) => SyncPop(k, i);
    case FlushBegin(_) => SyncFlush(k, step);
    case FlushEnd => SyncFlush(k, step);
    case FlushOne => SyncFlush(k, step);
    case Give(_) => SyncCount(k, step);
    case Take(_) => SyncCount(k, step);
    case Drain(_) => SyncCount(k, step);
    case DrainEnd(_) => SyncCount(k, step);
    case _ =>
      assert Apply(k, step).subs == k.subs && Apply(k, step).lock == k.lock;
  }

  /** A run in which no step races a flush. */
  predicate UnracedRun(k: Kernel, steps: seq<Step>, k': Kernel)
    decreases |steps|
  {
    if steps == [] then k' == k
    else Enabled(k, steps[0]) && Unraced(k, steps[0]) && UnracedRun(Apply(k, steps[0]), steps[1..], k')
  }

  lemma {:induction false} UnracedKeeps(k: Kernel, steps: seq<Step>, k': Kernel)
    requires Core(k) && Sync(k) && UnracedRun(k, steps, k')
    ensures Core(k') && Sync(k')
    decreases |steps|
  {
    hide Core, Sync, Apply, Enabled, Unraced;
    if steps != [] {
      StepKeeps(k, steps[0]);
      SyncKeeps(k, steps[0]);
      UnracedKeeps(Apply(k, steps[0]), steps[1..], k');
    }
  }

  /**
   * In a run that races no flush, wherever no flush is on, every queued event has its wake-up: a receiver
   * that took a token finds an event, and a give finds room in the semaphore.
   */
  lemma QueueAndSemaphoreInStep(cfgs: seq<Config>, steps: seq<Step>, k: Kernel, i: nat)
    requires forall j :: 0 <= j < |cfgs| ==> ValidConfig(cfgs[j])
    requires UnracedRun(Initial(cfgs), steps, k) && i < |k.subs|
    ensures var s := k.subs[i];
            && (s.draining == 0 && k.lock != Flushing(i) ==> |s.queue| == s.tokens + s.owed + s.taken + Pending(k.lock, i))
            && (s.taken > 0 ==> s.queue != [])
            && (s.owed > 0 ==> s.tokens < s.cfg.depth)
  {
    hide Core, Sync, UnracedRun, Initial;
    InitialCore(cfgs);
    InitialSync(cfgs);
    UnracedKeeps(Initial(cfgs), steps, k);
    SyncAt(k, i);
  }

  /** No flush is on and everybody is in step. */
  ghost predicate Calm(k: Kernel) {
    !k.lock.Flushing? && forall i :: 0 <= i < |k.subs| ==> k.subs[i].draining == 0 && InStep(k.subs[i], Pending(k.lock, i))
  }

  ghost predicate Inv(k: Kernel) { Core(k) && Calm(k) }

  /** Steps other than a flush's keep it. */
  lemma CalmKeeps(k: Kernel, step: Step)
    requires Inv(k) && Enabled(k, step)
    requires !step.FlushBegin? && !step.FlushOne? && !step.FlushEnd? && !step.Drain? && !step.DrainEnd?
    ensures Inv(Apply(k, step))
  {
    hide Core, Deliver, AddRef, DropRef, StartAlloc, FinishAlloc, FinishRelease, Outgoing, Enqueue, WellShaped, FreeInRange;
    var k' := Apply(k, step);
    StepKeeps(k, step);
    SyncKeeps(k, step);
    DrainingKept(k, step);
    forall i | 0 <= i < |k'.subs| ensures k'.subs[i].draining == 0 && InStep(k'.subs[i], Pending(k'.lock, i)) {
      assert SyncSub(k'.subs[i], Pending(k'.lock, i), k'.lock == Flushing(i));
    }
  }

  lemma DrainingKept(k: Kernel, step: Step)
    requires Enabled(k, step) && !k.lock.Flushing?
    requires !step.FlushBegin? && !step.FlushOne? && !step.FlushEnd? && !step.Drain? && !step.DrainEnd?
    ensures var k' := Apply(k, step);
            !k'.lock.Flushing? && |k'.subs| == |k.subs|
            && forall i :: 0 <= i < |k.subs| ==> k'.subs[i].draining == k.subs[i].draining
  {
    hide AddRef, DropRef, StartAlloc, FinishAlloc, FinishRelease, Outgoing, Enqueue, WellShaped, FreeInRange;
  }

  // ---------------------------------------------------------------- when a flush ends in step

  /** Queued events less the wake-ups still to come for them; in step, it is what the semaphore holds. */
  function Balance(k: Kernel, i: nat): int
    requires i < |k.subs|
  {
    var s := k.subs[i];
    |s.queue| - s.owed - s.taken - Pending(k.lock, i)
  }

  /** How many receivers of subscriber `i` took a token in vain: they found the ring empty. */
  function EmptyPops(k: Kernel, steps: seq<Step>, i: nat): nat
    decreases |steps|
  {
    if steps == [] || !Enabled(k, steps[0]) then 0
    else (if steps[0] == Pop(i) && k.subs[i].queue == [] then 1 else 0) + EmptyPops(Apply(k, steps[0]), steps[1..], i)
  }

  /** How often a run gives to subscriber `i`, and how often somebody takes from it. */
  function Gives(steps: seq<Step>, i: nat): nat { multiset(steps)[Give(i)] }

  function Takes(steps: seq<Step>, i: nat): nat { multiset(steps)[Take(i)] }

  /** A step that leaves lock and subscriber `i` alone leaves its balance alone. */
  lemma BalanceUntouched(k: Kernel, k': Kernel, i: nat)
    requires i < |k.subs| && |k'.subs| == |k.subs| && k'.subs[i] == k.subs[i] && Pending(k'.lock, i) == Pending(k.lock, i)
    ensures Balance(k', i) == Balance(k, i)
  {}

  lemma BalancePublish(k: Kernel, step: Step, i: nat)
    requires Enabled(k, step) && i < |k.subs| && (step.PublishOne? || step.PublishEnd?)
    ensures var k' := Apply(k, step); |k'.subs| == |k.subs| && k'.lock != Flushing(i) && Balance(k', i) == Balance(k, i)
  {
    hide AddRef, Outgoing, Enters, Enqueue, WellShaped, FreeInRange;
    if step.PublishOne? { DeliveredLength(k.subs[k.lock.next], k.lock.ev); }
  }

  lemma BalanceAtLock(k: Kernel, step: Step, i: nat)
    requires Enabled(k, step) && i < |k.subs| && step != FlushBegin(i) && k.lock != Flushing(i)
    requires step.PublishBegin? || step.PublishVacate? || step.FlushBegin? || step.FlushOne? || step.FlushEnd?
    ensures var k' := Apply(k, step); |k'.subs| == |k.subs| && k'.lock != Flushing(i) && Balance(k', i) == Balance(k, i)
  {
    hide DropRef, Outgoing, WellShaped, FreeInRange, Balance;
    BalanceUntouched(k, Apply(k, step), i);
  }

  lemma BalanceCount(k: Kernel, step: Step, i: nat)
    requires Enabled(k, step) && i < |k.subs| && IsCount(step)
    ensures var k' := Apply(k, step);
            && |k'.subs| == |k.subs| && k'.lock == k.lock
            && Balance(k', i) == Balance(k, i) + (if step == Give(i) then 1 else 0) - (if step == Take(i) then 1 else 0)
  {
    hide WellShaped, FreeInRange, Pending;
  }

  lemma BalancePop(k: Kernel, j: nat, i: nat)
    requires Enabled(k, Pop(j)) && i < |k.subs|
    ensures var k' := Apply(k, Pop(j));
            && |k'.subs| == |k.subs| && k'.lock == k.lock
            && Balance(k', i) == Balance(k, i) + (if j == i && k.subs[i].queue == [] then 1 else 0)
  {
    hide WellShaped, FreeInRange, Pending;
  }

  lemma BalancePool(k: Kernel, step: Step, i: nat)
    requires Enabled(k, step) && i < |k.subs|
    requires step.AllocPop? || step.AllocStore? || step.ClientRetain? || step.ClientRelease? || step.FreePush?
    ensures var k' := Apply(k, step); k'.subs == k.subs && k'.lock == k.lock && Balance(k', i) == Balance(k, i)
  {
    hide WellShaped, FreeInRange, StartAlloc, FinishAlloc, FinishRelease, AddRef, DropRef;
  }

  lemma CountsOfOne(k: Kernel, step: Step, i: nat)
    requires Enabled(k, step) && i < |k.subs|
    ensures Gives([step], i) == (if step == Give(i) then 1 else 0) && Takes([step], i) == (if step == Take(i) then 1 else 0)
    ensures EmptyPops(k, [step], i) == (if step == Pop(i) && k.subs[i].queue == [] then 1 else 0)
  {
    hide Enabled, Apply;
    assert EmptyPops(Apply(k, step), [step][1..], i) == 0;
  }

  lemma BalanceStep(k: Kernel, step: Step, i: nat)
    requires Enabled(k, step) && i < |k.subs| && step != FlushBegin(i) && k.lock != Flushing(i)
    ensures var k' := Apply(k, step);
            && |k'.subs| == |k.subs| && k'.lock != Flushing(i)
            && Balance(k', i) == Balance(k, i) + Gives([step], i) - Takes([step], i) + EmptyPops(k, [step], i)
  {
    hide Enabled, Apply, Balance, Gives, Takes, EmptyPops;
    CountsOfOne(k, step, i);
    match step
    case PublishOne => BalancePublish(k, step, i);
    case PublishEnd => BalancePublish(k, step, i);
    case PublishBegin(_, _, _) => BalanceAtLock(k, step, i);
    case PublishVacate => BalanceAtLock(k, step, i);
    case FlushBegin(_) => BalanceAtLock(k, step, i);
    case FlushOne => BalanceAtLock(k, step, i);
    case FlushEnd => BalanceAtLock(k, step, i);
    case Pop(j) => BalancePop(k, j, i);
    case Give(_) => BalanceCount(k, step, i);
    case Take(_) => BalanceCount(k, step, i);
    case Drain(_) => BalanceCount(k, step, i);
    case DrainEnd(_) => BalanceCount(k, step, i);
    case _ => BalancePool(k, step, i);
  }

  lemma {:induction false} BalanceRun(k: Kernel, steps: seq<Step>, k': Kernel, i: nat)
    requires Runs(k, steps, k') && i < |k.subs| && FlushBegin(i) !in steps && k.lock != Flushing(i)
    ensures |k'.subs| == |k.subs|
    ensures Balance(k', i) == Balance(k, i) + Gives(steps, i) - Takes(steps, i) + EmptyPops(k, steps, i)
    decreases |steps|
  {
    hide Apply, Enabled, Balance;
    if steps != [] {
      var step := steps[0];
      BalanceStep(k, step, i);
      BalanceRun(Apply(k, step), steps[1..], k', i);
      assert steps == [step] + steps[1..];
      assert EmptyPops(Apply(k, step), [step][1..], i) == 0;
    }
  }

  /**
   * Once `nev_bus_flush` has let go of the lock the ring is empty, and a run follows until a drain finds
   * the semaphore empty.  Ring and semaphore then agree exactly when the wake-ups given in between, and the
   * tokens taken in vain, make up for those owed and taken when the lock was let go and those taken since.
   */
  lemma FlushEndsInStepIff(k0: Kernel, steps: seq<Step>, k: Kernel, i: nat)
    requires Enabled(k0, FlushEnd) && k0.lock == Flushing(i)
    requires var k1 := Apply(k0, FlushEnd);
             Runs(k1, steps, k) && FlushBegin(i) !in steps
    requires i < |k.subs| && Enabled(k, DrainEnd(i))
    ensures var k1 := Apply(k0, FlushEnd);
            InStep(k.subs[i], Pending(k.lock, i)) <==>
            Gives(steps, i) + EmptyPops(k1, steps, i) == Takes(steps, i) + k0.subs[i].owed + k0.subs[i].taken
  {
    BalanceRun(Apply(k0, FlushEnd), steps, k, i);
  }

  /** If nobody gives to, takes from or pops that subscriber meanwhile, it is whether anybody was between two steps. */
  lemma UndisturbedFlushIff(k0: Kernel, steps: seq<Step>, k: Kernel, i: nat)
    requires Enabled(k0, FlushEnd) && k0.lock == Flushing(i)
    requires Runs(Apply(k0, FlushEnd), steps, k) && i < |k.subs| && Enabled(k, DrainEnd(i))
    requires FlushBegin(i) !in steps && Give(i) !in steps && Take(i) !in steps && Pop(i) !in steps
    ensures InStep(k.subs[i], Pending(k.lock, i)) <==> k0.subs[i].owed == k0.subs[i].taken == 0
  {
    NoEmptyPops(Apply(k0, FlushEnd), steps, i);
    FlushEndsInStepIff(k0, steps, k, i);
  }

  /**
   * If only publishers come meanwhile, with nobody between two steps at the unlock and all of them done by the
   * end: ring and semaphore agree exactly if none of them reached the subscriber, and as many events are left
   * without a wake-up as were delivered to it.
   */
  lemma PublishesDuringFlushIff(k0: Kernel, steps: seq<Step>, k: Kernel, i: nat)
    requires Enabled(k0, FlushEnd) && k0.lock == Flushing(i) && k0.subs[i].owed == k0.subs[i].taken == 0
    requires Runs(Apply(k0, FlushEnd), steps, k) && i < |k.subs| && Enabled(k, DrainEnd(i))
    requires FlushBegin(i) !in steps && Take(i) !in steps && Pop(i) !in steps
    requires k.lock.Unlocked? && k.subs[i].owed == k.subs[i].taken == 0
    ensures InStep(k.subs[i], Pending(k.lock, i)) <==> k.subs[i].queue == []
    ensures k.subs[i].tokens == 0 && |k.subs[i].queue| == Gives(steps, i)
  {
    NoEmptyPops(Apply(k0, FlushEnd), steps, i);
    BalanceRun(Apply(k0, FlushEnd), steps, k, i);
  }

  lemma {:induction false} NoEmptyPops(k: Kernel, steps: seq<Step>, i: nat)
    requires Pop(i) !in steps
    ensures EmptyPops(k, steps, i) == 0
    decreases |steps|
  {
    hide Apply, Enabled;
    if steps != [] && Enabled(k, steps[0]) { NoEmptyPops(Apply(k, steps[0]), steps[1..], i); }
  }

  // ---------------------------------------------------------------- runs at one subscriber

  /** A state with the lock free, one subscriber, and no event in its ring that names a block. */
  predicate Solo(k: Kernel) {
    && WellShaped(k.heap.pool) && FreeInRange(k.heap.pool)
    && k.lock.Unlocked? && |k.subs| == 1 && k.subs[0].cfg.depth > 0
    && forall j :: 0 <= j < |k.subs[0].queue| ==> k.subs[0].queue[j].blob == None
  }

  /** What a publish has made of a lone subscriber once the lock is free again. */
  function Told(s: Sub, ev: Event): Sub
    requires s.cfg.depth > 0
  {
    Deliver(s, ev).(owed := s.owed + if Enqueue(s.cfg, s.queue, ev).verdict.Queued? then 1 else 0)
  }

  lemma PublishToOne(k0: Kernel, steps: seq<Step>, k: Kernel, typ: nat, payload: int) returns (steps': seq<Step>, k': Kernel)
    requires Runs(k0, steps, k) && Solo(k) && DomainId(typ) in k.subs[0].cfg.domains
    ensures steps' == steps + [PublishBegin(typ, None, payload), PublishOne, PublishEnd] && Runs(k0, steps', k') && Solo(k')
    ensures k'.subs == [Told(k.subs[0], Event(typ, k.lastSeq + 1, None, payload))] && k'.lastSeq == k.lastSeq + 1
  {
    hide Runs, Enqueue;
    var s, ev := k.subs[0], Event(typ, k.lastSeq + 1, None, payload);
    EnqueuedShape(s.cfg, s.queue, ev);
    var k1 := Apply(k, PublishBegin(typ, None, payload));
    RunSnoc(k0, steps, k, PublishBegin(typ, None, payload));
    assert Outgoing(k1) == None;
    var k2 := Apply(k1, PublishOne);
    RunSnoc(k0, steps + [PublishBegin(typ, None, payload)], k1, PublishOne);
    k' := Apply(k2, PublishEnd);
    RunSnoc(k0, steps + [PublishBegin(typ, None, payload)] + [PublishOne], k2, PublishEnd);
    steps' := steps + [PublishBegin(typ, None, payload), PublishOne, PublishEnd];
    assert steps' == steps + [PublishBegin(typ, None, payload)] + [PublishOne] + [PublishEnd];
    assert k'.subs == [Told(s, ev)];
  }

  lemma EnqueuedShape(cfg: Config, q: seq<Event>, ev: Event)
    requires cfg.depth > 0 && ev.blob == None && forall j :: 0 <= j < |q| ==> q[j].blob == None
    ensures var e := Enqueue(cfg, q, ev);
            && (e.displaced.Some? ==> e.displaced.value.blob == None)
            && forall j :: 0 <= j < |e.queue| ==> e.queue[j].blob == None
  {}

  lemma CountAtOne(k0: Kernel, steps: seq<Step>, k: Kernel, step: Step) returns (steps': seq<Step>, k': Kernel)
    requires Runs(k0, steps, k) && Solo(k) && IsCount(step) && Enabled(k, step)
    ensures steps' == steps + [step] && Runs(k0, steps', k')
    ensures k' == k.(subs := [Counted(k.subs[0], step)]) && Solo(k')
  {
    RunSnoc(k0, steps, k, step);
    steps', k' := steps + [step], Apply(k, step);
  }

  lemma BootIsSolo(cfg: Config)
    requires ValidConfig(cfg)
    ensures Solo(Initial([cfg]))
  {
    InitialCore([cfg]);
  }

  lemma FlushEmptyRing(k0: Kernel, steps: seq<Step>, k: Kernel) returns (steps': seq<Step>, k': Kernel)
    requires Runs(k0, steps, k) && Solo(k) && k.subs[0].queue == []
    ensures steps' == steps + [FlushBegin(0), FlushEnd] && Runs(k0, steps', k')
    ensures k' == k.(subs := [k.subs[0].(draining := k.subs[0].draining + 1)])
  {
    hide Runs;
    var k1 := Apply(k, FlushBegin(0));
    RunSnoc(k0, steps, k, FlushBegin(0));
    RunSnoc(k0, steps + [FlushBegin(0)], k1, FlushEnd);
    k' := Apply(k1, FlushEnd);
    steps' := steps + [FlushBegin(0), FlushEnd];
    assert steps' == steps + [FlushBegin(0)] + [FlushEnd];
  }

  /**
   * With nobody between two steps when the flush starts, a publish that signals after the unlock loses its
   * wake-up to the drain: the event waits in the ring and no token says so.
   */
  lemma WakeUpLostToDrain(cfg: Config, typ: nat, payload: int) returns (steps: seq<Step>, k: Kernel)
    requires ValidConfig(cfg) && DomainId(typ) in cfg.domains
    ensures Runs(Initial([cfg]), steps, k) && k.lock.Unlocked? && |k.subs| == 1
    ensures var s := k.subs[0]; |s.queue| == 1 && s.tokens == s.owed == s.taken == s.draining == 0
  {
    hide Runs, WellShaped, FreeInRange;
    var k0 := Initial([cfg]);
    BootIsSolo(cfg);
    RunsNowhere(k0);
    steps, k := FlushEmptyRing(k0, [], k0);
    steps, k := PublishToOne(k0, steps, k, typ, payload);
    steps, k := CountAtOne(k0, steps, k, Give(0));
    steps, k := CountAtOne(k0, steps, k, Drain(0));
    steps, k := CountAtOne(k0, steps, k, DrainEnd(0));
  }
}
