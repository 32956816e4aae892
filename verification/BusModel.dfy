/**
 * The event bus and the blob pool as one step system.
 *
 * A publish is a locked pass over the subscribers followed, outside the lock, by semaphore gives.
 * A receive is a semaphore take followed by a locked pop.  A last release is a decrement followed by a
 * push onto a free list; an allocation is a pop from one followed by the store of the first count.
 * Between any two of these, any other client's step may happen.
 */
module BusModel {
  import opened Basics
  import opened Blob

  const MAX_DEPTH := 32

  // ---------------------------------------------------------------- events and queues

  /** `blob` is the block named by an event whose NEV_EVF_BLOB flag is set; retaining or releasing an
      invalid handle does nothing, so an event carrying one counts as carrying none. */
  datatype Event = Event(typ: nat, seqNo: nat, blob: Option<Block>, payload: int)

  /** How many references to `b` an event holds. */
  function Holds(r: Option<Block>, b: Block): nat { if r == Some(b) then 1 else 0 }

  function DomainId(typ: nat): nat { typ / 256 }

  /** The types of which the newest event says everything an older one said. */
  predicate Coalescable(typ: nat) {
    typ in {0x0301, 0x0201, 0x0206, 0x0901, 0x0106, 0x0601, 0x0804}
  }

  datatype Policy = DropNewest | DropOldest

  datatype Config = Config(domains: set<nat>, depth: nat, policy: Policy, coalesce: bool)

  datatype Verdict = Dropped | Replaced | Queued

  /** What enqueueing does: the new queue, the event it pushed out, and why. */
  datatype Enqueued = Enqueued(queue: seq<Event>, verdict: Verdict, displaced: Option<Event>, coalesced: bool)

  /** Position of the oldest queued event of a type. */
  function FindType(q: seq<Event>, typ: nat): (r: Option<nat>)
    ensures r.Some? ==> r.value < |q| && q[r.value].typ == typ
                        && forall k :: 0 <= k < r.value ==> q[k].typ != typ
    ensures r.None? ==> forall k :: 0 <= k < |q| ==> q[k].typ != typ
  {
    if q == [] then None
    else if q[0].typ == typ then Some(0)
    else match FindType(q[1..], typ)
      case None => None
      case Some(k) => Some(k + 1)
  }

  /** `enqueue`, on the queue a ring stands for. */
  function Enqueue(cfg: Config, q: seq<Event>, ev: Event): Enqueued
    requires cfg.depth > 0
  {
    var at := if cfg.coalesce && Coalescable(ev.typ) then FindType(q, ev.typ) else None;
    if at.Some? then Enqueued(q[at.value := ev], Replaced, Some(q[at.value]), true)
    else if |q| != cfg.depth then Enqueued(q + [ev], Queued, None, false)
    else if cfg.policy == DropNewest then Enqueued(q, Dropped, None, false)
    else Enqueued(q[1..] + [ev], Replaced, Some(q[0]), false)
  }

  // ---------------------------------------------------------------- subscribers

  /**
   * One subscriber.  `tokens` is its semaphore; `owed` counts gives that publishers which have left
   * the lock still have to make; `taken` counts receivers between their take and their pop, and `draining`
   * flushes that have emptied the ring and are still taking tokens.
   */
  datatype Sub = Sub(cfg: Config, queue: seq<Event>, popped: seq<Event>, flushed: nat,
                     received: nat, dropped: nat, coalesced: nat,
                     tokens: nat, owed: nat, taken: nat, draining: nat)

  function NewSub(cfg: Config): Sub { Sub(cfg, [], [], 0, 0, 0, 0, 0, 0, 0, 0) }

  function Deliver(s: Sub, ev: Event): Sub
    requires s.cfg.depth > 0
  {
    var e := Enqueue(s.cfg, s.queue, ev);
    s.(queue := e.queue,
       received := s.received + (if e.verdict.Dropped? then 0 else 1),
       coalesced := s.coalesced + (if e.coalesced then 1 else 0),
       dropped := s.dropped + (if e.verdict.Dropped? || (e.displaced.Some? && !e.coalesced) then 1 else 0))
  }

  /** Everything a subscriber was or will be handed, in that order. */
  function History(s: Sub): seq<Event> { s.popped + s.queue }

  ghost predicate Increasing(h: seq<Event>) {
    forall i, j :: 0 <= i < j < |h| ==> h[i].seqNo < h[j].seqNo
  }

  ghost predicate IncreasingPerType(h: seq<Event>) {
    forall i, j :: 0 <= i < j < |h| && h[i].typ == h[j].typ ==> h[i].seqNo < h[j].seqNo
  }

  ghost predicate OneSnapshotEach(q: seq<Event>) {
    forall i, j :: 0 <= i < j < |q| && Coalescable(q[i].typ) ==> q[i].typ != q[j].typ
  }

  /** No event delivered is lost track of: each was replaced, evicted, flushed, received or waits. */
  predicate Accounted(s: Sub) {
    s.received == s.coalesced + (if s.cfg.policy == DropOldest then s.dropped else 0)
                  + |s.popped| + s.flushed + |s.queue|
  }

  /** A subscriber is only ever handed events of the domains it asked for. */
  ghost predicate Wanted(h: seq<Event>, domains: set<nat>) {
    forall k :: 0 <= k < |h| ==> DomainId(h[k].typ) in domains
  }

  ghost predicate SubInv(s: Sub, bound: nat) {
    && 1 <= s.cfg.depth <= MAX_DEPTH && |s.queue| <= s.cfg.depth
    && Ordered(History(s), bound, !s.cfg.coalesce)
    && (s.cfg.coalesce ==> OneSnapshotEach(s.queue))
    && Wanted(History(s), s.cfg.domains)
    && Accounted(s)
  }

  /** The parts of the invariant that speak of the history alone. */
  ghost predicate Ordered(h: seq<Event>, bound: nat, overall: bool) {
    && (forall k :: 0 <= k < |h| ==> h[k].seqNo <= bound)
    && IncreasingPerType(h)
    && (overall ==> Increasing(h))
  }

  lemma AppendKeepsOrder(h: seq<Event>, bound: nat, overall: bool, ev: Event)
    requires Ordered(h, bound, overall) && ev.seqNo > bound
    ensures Ordered(h + [ev], ev.seqNo, overall)
  {}

  lemma ReplaceKeepsOrder(h: seq<Event>, bound: nat, at: nat, ev: Event)
    requires Ordered(h, bound, false) && ev.seqNo > bound
    requires at < |h| && h[at].typ == ev.typ
    requires forall k :: at < k < |h| ==> h[k].typ != ev.typ
    ensures Ordered(h[at := ev], ev.seqNo, false)
  {}

  lemma RemoveKeepsOrder(h: seq<Event>, bound: nat, overall: bool, at: nat)
    requires Ordered(h, bound, overall) && at < |h|
    ensures Ordered(h[..at] + h[at + 1..], bound, overall)
  {
    var h' := h[..at] + h[at + 1..];
    assert forall k :: 0 <= k < |h'| ==> h'[k] == h[if k < at then k else k + 1];
  }

  lemma DeliverKeepsOrder(s: Sub, bound: nat, ev: Event)
    requires SubInv(s, bound) && ev.seqNo > bound
    ensures Ordered(History(Deliver(s, ev)), ev.seqNo, !s.cfg.coalesce)
  {
    var e := Enqueue(s.cfg, s.queue, ev);
    var h := History(s);
    var p := |s.popped|;
    if e.coalesced {
      var at := FindType(s.queue, ev.typ).value;
      assert s.popped + e.queue == h[p + at := ev];
      forall k | p + at < k < |h| ensures h[k].typ != ev.typ {
        assert s.queue[at].typ != s.queue[k - p].typ;
      }
      ReplaceKeepsOrder(h, bound, p + at, ev);
    } else if e.verdict == Queued {
      assert s.popped + e.queue == h + [ev];
      AppendKeepsOrder(h, bound, !s.cfg.coalesce, ev);
    } else if e.verdict == Replaced {
      assert s.popped + e.queue == h[..p] + h[p + 1..] + [ev];
      RemoveKeepsOrder(h, bound, !s.cfg.coalesce, p);
      AppendKeepsOrder(h[..p] + h[p + 1..], bound, !s.cfg.coalesce, ev);
    }
  }

  lemma DeliverKeepsSnapshots(s: Sub, ev: Event)
    requires s.cfg.depth > 0 && s.cfg.coalesce && OneSnapshotEach(s.queue)
    ensures OneSnapshotEach(Deliver(s, ev).queue)
  {
    var q := Deliver(s, ev).queue;
    var at := FindType(s.queue, ev.typ);
    if Coalescable(ev.typ) && at.Some? {
      assert forall k :: 0 <= k < |q| ==> q[k].typ == s.queue[k].typ;
    }
  }

  lemma DeliverKeepsWanted(s: Sub, ev: Event)
    requires s.cfg.depth > 0 && Wanted(History(s), s.cfg.domains) && DomainId(ev.typ) in s.cfg.domains
    ensures Wanted(History(Deliver(s, ev)), s.cfg.domains)
  {
    var q, q' := s.queue, Deliver(s, ev).queue;
    forall k | 0 <= k < |q'| ensures DomainId(q'[k].typ) in s.cfg.domains {
      assert forall j :: 0 <= j < |q| ==> q[j] == History(s)[|s.popped| + j];
      assert q'[k] == ev || q'[k] == q[k] || q'[k] == q[k + 1];
    }
    assert forall j :: 0 <= j < |s.popped| ==> s.popped[j] == History(s)[j];
  }

  lemma DeliverKeeps(s: Sub, bound: nat, ev: Event)
    requires SubInv(s, bound) && ev.seqNo > bound && DomainId(ev.typ) in s.cfg.domains
    ensures SubInv(Deliver(s, ev), ev.seqNo)
  {
    DeliverKeepsWanted(s, ev);
    DeliverKeepsOrder(s, bound, ev);
    if s.cfg.coalesce { DeliverKeepsSnapshots(s, ev); }
  }

  /** What waits at `k` says nothing that the event does not say better. */
  predicate Stale(s: Sub, ev: Event, k: nat) {
    k < |s.queue| && s.cfg.coalesce && Coalescable(ev.typ) && s.queue[k].typ == ev.typ
  }

  /**
   * A delivery puts the event in the place of what it makes stale, or else at the end, where the oldest makes room
   * if need be and may go; otherwise it is refused.  Each counter counts just that.
   */
  lemma DeliverDecides(s: Sub, bound: nat, ev: Event)
    requires SubInv(s, bound) && ev.seqNo > bound
    ensures var q, t := s.queue, Deliver(s, ev);
            var stale, full := exists k: nat :: Stale(s, ev, k), |q| == s.cfg.depth;
            && (forall k: nat :: Stale(s, ev, k) ==> t.queue == q[..k] + [ev] + q[k + 1..])
            && (!stale && !full ==> t.queue == q + [ev])
            && (!stale && full && s.cfg.policy.DropOldest? ==> t.queue == q[1..] + [ev])
            && (!stale && full && s.cfg.policy.DropNewest? ==> t.queue == q)
            && t.received - s.received == (if ev in t.queue then 1 else 0)
            && t.coalesced - s.coalesced == (if stale then 1 else 0)
            && t.dropped - s.dropped == (if !stale && full then 1 else 0)
            && t == s.(queue := t.queue, received := t.received, coalesced := t.coalesced, dropped := t.dropped)
  {
    hide SubInv;
    var q := s.queue;
    NotQueuedYet(s, bound, ev);
    var at := FindType(q, ev.typ);
    if s.cfg.coalesce && Coalescable(ev.typ) && at.Some? {
      assert Stale(s, ev, at.value);
      StaleReplaced(s, ev, at.value);
    } else {
      NoneStale(s, ev);
      PlainDelivery(s, ev);
    }
  }

  lemma NotQueuedYet(s: Sub, bound: nat, ev: Event)
    requires SubInv(s, bound) && ev.seqNo > bound
    ensures ev !in s.queue && s.cfg.depth > 0 && |s.queue| <= s.cfg.depth
    ensures forall j: nat, k: nat :: Stale(s, ev, j) && Stale(s, ev, k) ==> j == k
  {
    var q := s.queue;
    assert forall k :: 0 <= k < |q| ==> q[k] == History(s)[|s.popped| + k];
  }

  lemma StaleReplaced(s: Sub, ev: Event, k: nat)
    requires Stale(s, ev, k) && s.cfg.depth > 0 && FindType(s.queue, ev.typ) == Some(k)
    ensures var q, t := s.queue, Deliver(s, ev);
            && t.queue == q[..k] + [ev] + q[k + 1..] && ev in t.queue
            && t == s.(queue := t.queue, received := s.received + 1, coalesced := s.coalesced + 1)
  {
    assert Deliver(s, ev).queue == s.queue[k := ev] && s.queue[k := ev][k] == ev;
  }

  lemma NoneStale(s: Sub, ev: Event)
    requires !(s.cfg.coalesce && Coalescable(ev.typ) && FindType(s.queue, ev.typ).Some?)
    ensures forall k: nat :: !Stale(s, ev, k)
  {}

  lemma PlainDelivery(s: Sub, ev: Event)
    requires !(s.cfg.coalesce && Coalescable(ev.typ) && FindType(s.queue, ev.typ).Some?)
    requires ev !in s.queue && s.cfg.depth > 0
    ensures var q, t := s.queue, Deliver(s, ev);
            var full := |q| == s.cfg.depth;
            && t.queue == (if !full then q + [ev] else if s.cfg.policy.DropOldest? then q[1..] + [ev] else q)
            && (ev in t.queue <==> !full || s.cfg.policy.DropOldest?)
            && t == s.(queue := t.queue, received := s.received + (if ev in t.queue then 1 else 0),
                       dropped := s.dropped + (if full then 1 else 0))
  {
    var e := Enqueue(s.cfg, s.queue, ev);
    if !e.verdict.Dropped? { assert e.queue[|e.queue| - 1] == ev; }
  }

  /** Heap statistics, touches, tilts, frame statistics, mood, partial transcripts and battery, by domain and number. */
  lemma CoalescableAre(domain: nat, number: nat)
    requires number < 256
    ensures Coalescable(256 * domain + number) <==>
            (domain, number) in {(1, 6), (2, 1), (2, 6), (3, 1), (6, 1), (8, 4), (9, 1)}
    ensures DomainId(256 * domain + number) == domain
  {}

  lemma PopKeeps(s: Sub, bound: nat)
    requires SubInv(s, bound) && s.queue != []
    ensures SubInv(s.(queue := s.queue[1..], popped := s.popped + [s.queue[0]]), bound)
  {
    var t := s.(queue := s.queue[1..], popped := s.popped + [s.queue[0]]);
    assert History(t) == History(s);
  }

  /** A flush takes the oldest event out of the ring without handing it to anybody. */
  lemma FlushKeeps(s: Sub, bound: nat)
    requires SubInv(s, bound) && s.queue != []
    ensures SubInv(s.(queue := s.queue[1..], flushed := s.flushed + 1), bound)
  {
    var t, n := s.(queue := s.queue[1..], flushed := s.flushed + 1), |s.popped|;
    assert History(t) == History(s)[..n] + History(s)[n + 1..];
    RemoveKeepsOrder(History(s), bound, !s.cfg.coalesce, n);
    assert forall k :: 0 <= k < |History(t)| ==> History(t)[k] == History(s)[if k < n then k else k + 1];
    assert forall k :: 0 <= k < |t.queue| ==> t.queue[k] == s.queue[k + 1];
  }

  // ---------------------------------------------------------------- references

  /**
   * The pool between atomic steps.  `freeing` holds blocks whose count has reached zero and whose push
   * is still to come; `allocating` holds blocks popped whose first count is still to be stored.
   * `ok` turns false when an assertion of the code would fire.
   */
  datatype Heap = Heap(pool: Pool, freeing: multiset<Block>, allocating: multiset<Block>, ok: bool)

  /** The counts agree with who owns what, and each idle block is in exactly one place. */
  ghost predicate HeapInv(h: Heap, owners: Block -> nat) {
    && h.ok && WellShaped(h.pool) && FreeInRange(h.pool)
    && (forall b: Block :: Refs(h.pool, b) == owners(b))
    && (forall b: Block :: FreeEntries(h.pool, b) + h.freeing[b] + h.allocating[b] == if owners(b) == 0 then 1 else 0)
  }

  /** `nev_blob_retain`; a retain of a block nobody holds is the code's "retain after free". */
  function AddRef(h: Heap, r: Option<Block>): Heap
    requires WellShaped(h.pool)
  {
    match r
    case None => h
    case Some(b) =>
      if Refs(h.pool, b) == 0 then h.(ok := false)
      else h.(pool := SetRefs(h.pool, b, Refs(h.pool, b) + 1))
  }

  /** The decrement of `nev_blob_release`; one too many is the code's "double release". */
  function DropRef(h: Heap, r: Option<Block>): Heap
    requires WellShaped(h.pool)
  {
    match r
    case None => h
    case Some(b) =>
      if Refs(h.pool, b) == 0 then h.(ok := false)
      else Heap(SetRefs(h.pool, b, Refs(h.pool, b) - 1),
                if Refs(h.pool, b) == 1 then h.freeing + multiset{b} else h.freeing, h.allocating, h.ok)
  }

  /** The push of `nev_blob_release`; a full list is the code's "freed twice into the list". */
  function FinishRelease(h: Heap, b: Block): Heap
    requires WellShaped(h.pool) && b in h.freeing
  {
    Heap(PushFree(h.pool, b), h.freeing - multiset{b}, h.allocating,
         h.ok && |h.pool.classes[ClassOf(b)].free| < Capacity(ClassOf(b)))
  }

  function StartAlloc(h: Heap, c: nat): Heap
    requires WellShaped(h.pool) && FreeInRange(h.pool) && c < CLASS_COUNT && h.pool.classes[c].free != []
  {
    Heap(PopFree(h.pool, c), h.freeing, h.allocating + multiset{TopFree(h.pool, c)}, h.ok)
  }

  function FinishAlloc(h: Heap, b: Block): Heap
    requires WellShaped(h.pool) && b in h.allocating
  {
    Heap(SetRefs(h.pool, b, 1), h.freeing, h.allocating - multiset{b}, h.ok)
  }

  /** When the code's assertions hold: a reference is added or dropped where there is one, a block freed where there is room. */
  lemma AssertionsAre(h: Heap, b: Block)
    requires WellShaped(h.pool)
    ensures AddRef(h, Some(b)).ok <==> h.ok && Refs(h.pool, b) > 0
    ensures DropRef(h, Some(b)).ok <==> h.ok && Refs(h.pool, b) > 0
    ensures b in h.freeing ==>
              (FinishRelease(h, b).ok <==> h.ok && |h.pool.classes[ClassOf(b)].free| < Capacity(ClassOf(b)))
  {}

  lemma AddRefKeeps(h: Heap, owners: Block -> nat, r: Option<Block>, owners': Block -> nat)
    requires HeapInv(h, owners) && (r.Some? ==> owners(r.value) > 0)
    requires forall b :: owners'(b) == owners(b) + Holds(r, b)
    ensures HeapInv(AddRef(h, r), owners')
  {}

  lemma DropRefKeeps(h: Heap, owners: Block -> nat, r: Option<Block>, owners': Block -> nat)
    requires HeapInv(h, owners)
    requires forall b :: owners'(b) + Holds(r, b) == owners(b)
    ensures HeapInv(DropRef(h, r), owners')
  {
    match r
    case None =>
      assert forall b :: owners'(b) == owners(b);
    case Some(x) =>
      assert owners(x) == owners'(x) + 1;
      assert forall b: Block :: b != x ==> owners'(b) == owners(b);
      DropOneKeeps(h, owners, x, SetRefs(h.pool, x, Refs(h.pool, x) - 1), owners');
  }

  lemma DropOneKeeps(h: Heap, owners: Block -> nat, x: Block, p: Pool, owners': Block -> nat)
    requires HeapInv(h, owners) && owners(x) > 0
    requires forall b: Block :: owners'(b) == owners(b) - (if b == x then 1 else 0)
    requires WellShaped(p) && FreeInRange(p)
    requires forall b: Block :: Refs(p, b) == owners'(b) && FreeEntries(p, b) == FreeEntries(h.pool, b)
    ensures HeapInv(Heap(p, if owners(x) == 1 then h.freeing + multiset{x} else h.freeing, h.allocating, h.ok), owners')
  {
    var freeing := if owners(x) == 1 then h.freeing + multiset{x} else h.freeing;
    forall b: Block
      ensures FreeEntries(p, b) + freeing[b] + h.allocating[b] == if owners'(b) == 0 then 1 else 0
    {
      assert FreeEntries(p, b) == FreeEntries(h.pool, b);
    }
  }

  lemma FinishReleaseKeeps(h: Heap, owners: Block -> nat, b: Block)
    requires HeapInv(h, owners) && b in h.freeing
    ensures HeapInv(FinishRelease(h, b), owners)
  {
    var c := ClassOf(b);
    var free: seq<nat> := h.pool.classes[c].free;
    assert FreeEntries(h.pool, b) == 0;
    forall w: nat | w < Capacity(c) ensures multiset(free)[w] <= 1 {
      assert FreeEntries(h.pool, BlockAt(c, w)) == multiset(free)[w];
    }
    RoomWhenMissing(free, Capacity(c), IndexOf(b));
  }

  lemma StartAllocKeeps(h: Heap, owners: Block -> nat, c: nat)
    requires HeapInv(h, owners) && c < CLASS_COUNT && h.pool.classes[c].free != []
    ensures HeapInv(StartAlloc(h, c), owners)
    ensures owners(TopFree(h.pool, c)) == 0
  {
    var free: seq<nat> := h.pool.classes[c].free;
    var b := TopFree(h.pool, c);
    assert free[|free| - 1] in multiset(free);
    assert FreeEntries(h.pool, b) > 0;
  }

  lemma FinishAllocKeeps(h: Heap, owners: Block -> nat, b: Block, owners': Block -> nat)
    requires HeapInv(h, owners) && b in h.allocating
    requires forall x :: owners'(x) == owners(x) + Holds(Some(b), x)
    ensures HeapInv(FinishAlloc(h, b), owners')
  {
    assert owners(b) == 0;
  }

  /** With nothing owned and nothing in transit, every free list is full: `nev_blob_all_free`. */
  lemma NothingOwnedMeansAllFree(h: Heap, owners: Block -> nat)
    requires HeapInv(h, owners) && forall b :: owners(b) == 0
    requires h.freeing == multiset{} && h.allocating == multiset{}
    ensures AllFree(h.pool)
  {
    forall c | 0 <= c < CLASS_COUNT ensures |h.pool.classes[c].free| == Capacity(c) {
      var free: seq<nat> := h.pool.classes[c].free;
      forall v: nat | v < Capacity(c) ensures multiset(free)[v] == 1 {
        assert FreeEntries(h.pool, BlockAt(c, v)) == multiset(free)[v];
      }
      FullWhenAllPresent(free, Capacity(c));
    }
  }

  // ---------------------------------------------------------------- references held by rings

  /** How many queued events name block `b`. */
  function Held(q: seq<Event>, b: Block): nat {
    if q == [] then 0 else Holds(q[0].blob, b) + Held(q[1..], b)
  }

  lemma {:induction false} HeldAppend(q: seq<Event>, r: seq<Event>, b: Block)
    ensures Held(q + r, b) == Held(q, b) + Held(r, b)
  {
    if q == [] {
      assert q + r == r;
    } else {
      assert (q + r)[1..] == q[1..] + r;
      HeldAppend(q[1..], r, b);
    }
  }

  lemma {:induction false} HeldUpdate(q: seq<Event>, k: nat, ev: Event, b: Block)
    requires k < |q|
    ensures Held(q[k := ev], b) + Holds(q[k].blob, b) == Held(q, b) + Holds(ev.blob, b)
  {
    assert q[k := ev][1..] == if k == 0 then q[1..] else q[1..][k - 1 := ev];
    if k > 0 { HeldUpdate(q[1..], k - 1, ev, b); }
  }

  /** The reference that leaves a ring when `ev` is enqueued, and the one that enters. */
  function Leaves(cfg: Config, q: seq<Event>, ev: Event): Option<Block>
    requires cfg.depth > 0
  {
    var e := Enqueue(cfg, q, ev);
    if e.displaced.Some? then e.displaced.value.blob else None
  }

  function Enters(cfg: Config, q: seq<Event>, ev: Event): Option<Block>
    requires cfg.depth > 0
  {
    if Enqueue(cfg, q, ev).verdict.Dropped? then None else ev.blob
  }

  lemma EnqueueHeld(cfg: Config, q: seq<Event>, ev: Event, b: Block)
    requires cfg.depth > 0
    ensures Held(Enqueue(cfg, q, ev).queue, b) + Holds(Leaves(cfg, q, ev), b)
            == Held(q, b) + Holds(Enters(cfg, q, ev), b)
  {
    var e := Enqueue(cfg, q, ev);
    if e.coalesced {
      HeldUpdate(q, FindType(q, ev.typ).value, ev, b);
    } else if !e.verdict.Dropped? {
      HeldAppend(q[(if e.displaced.Some? then 1 else 0)..], [ev], b);
    }
  }

  /** How many ring slots, over all subscribers, name block `b`. */
  function HeldByAll(subs: seq<Sub>, b: Block): nat {
    if subs == [] then 0 else Held(subs[0].queue, b) + HeldByAll(subs[1..], b)
  }

  lemma {:induction false} HeldByAllUpdate(subs: seq<Sub>, i: nat, s: Sub, b: Block)
    requires i < |subs|
    ensures HeldByAll(subs[i := s], b) + Held(subs[i].queue, b) == HeldByAll(subs, b) + Held(s.queue, b)
  {
    assert subs[i := s][1..] == if i == 0 then subs[1..] else subs[1..][i - 1 := s];
    if i > 0 { HeldByAllUpdate(subs[1..], i - 1, s, b); }
  }

  lemma {:induction false} HeldByAllSameQueues(subs: seq<Sub>, subs': seq<Sub>, b: Block)
    requires |subs| == |subs'| && forall i :: 0 <= i < |subs| ==> subs[i].queue == subs'[i].queue
    ensures HeldByAll(subs, b) == HeldByAll(subs', b)
  {
    if subs != [] { HeldByAllSameQueues(subs[1..], subs'[1..], b); }
  }
}
