/** The blob pool as a value: three size classes of reference-counted blocks. */
module Blob {
  import opened Basics

  const CLASS_COUNT := 3
  const BLOB_NONE := 0xFFFF
  const MAX_LEN := 65536

  /** A 16-bit blob handle: class in the high four bits, block index in the low twelve. */
  type Handle = h: int | 0 <= h < 0x10000

  function BlockSize(c: int): nat
    requires 0 <= c < CLASS_COUNT
  {
    if c == 0 then 512 else if c == 1 then 4096 else 65536
  }

  function Capacity(c: int): nat
    requires 0 <= c < CLASS_COUNT
  {
    if c == 0 then 32 else if c == 1 then 16 else 4
  }

  function HandleClass(h: Handle): nat { h / 4096 }

  function HandleIndex(h: Handle): nat { h % 4096 }

  predicate HandleValid(h: Handle) {
    h != BLOB_NONE && HandleClass(h) < CLASS_COUNT && HandleIndex(h) < Capacity(HandleClass(h))
  }

  /** The blocks of the three classes, numbered through: 32 small, 16 medium, 4 large. */
  type Block = b: int | 0 <= b < 52

  function ClassOf(b: Block): nat { if b < 32 then 0 else if b < 48 then 1 else 2 }

  function IndexOf(b: Block): nat { if b < 32 then b else if b < 48 then b - 32 else b - 48 }

  function BlockAt(c: nat, i: nat): (b: Block)
    requires c < CLASS_COUNT && i < Capacity(c)
    ensures ClassOf(b) == c && IndexOf(b) == i
  {
    (if c == 0 then 0 else if c == 1 then 32 else 48) + i
  }

  /** `MAKE_HANDLE`. */
  function HandleOf(b: Block): Handle { ClassOf(b) * 4096 + IndexOf(b) }

  /** The block a handle names, if the handle is valid at all. */
  function BlockOf(h: Handle): Option<Block> {
    if HandleValid(h) then Some(BlockAt(HandleClass(h), HandleIndex(h))) else None
  }

  /** Valid handles and blocks stand for each other, and "no blob" is no block's handle. */
  lemma HandlesNameBlocks(b: Block, h: Handle)
    ensures BlockOf(HandleOf(b)) == Some(b) && HandleOf(b) != BLOB_NONE
    ensures BlockOf(h) == Some(b) <==> h == HandleOf(b)
  {}

  /** One size class: a reference count for each block, and the stack of free block indices. */
  datatype ClassState = ClassState(refs: seq<nat>, free: seq<nat>)

  datatype Pool = Pool(classes: seq<ClassState>)

  /** The shape `nev_blob_pool_init` establishes and nothing changes. */
  predicate WellShaped(p: Pool) {
    && |p.classes| == CLASS_COUNT
    && forall c :: 0 <= c < CLASS_COUNT ==> |p.classes[c].refs| == Capacity(c)
  }

  function Refs(p: Pool, b: Block): nat
    requires WellShaped(p)
  {
    p.classes[ClassOf(b)].refs[IndexOf(b)]
  }

  /** How often the free list of its class names block `b`. */
  function FreeEntries(p: Pool, b: Block): nat
    requires WellShaped(p)
  {
    multiset(p.classes[ClassOf(b)].free)[IndexOf(b)]
  }

  predicate FreeInRange(p: Pool)
    requires WellShaped(p)
  {
    forall c :: 0 <= c < CLASS_COUNT ==>
      forall i :: 0 <= i < |p.classes[c].free| ==> p.classes[c].free[i] < Capacity(c)
  }

  function SetRefs(p: Pool, b: Block, n: nat): (q: Pool)
    requires WellShaped(p)
    ensures WellShaped(q)
    ensures forall x: Block :: Refs(q, x) == if x == b then n else Refs(p, x)
    ensures forall x: Block :: FreeEntries(q, x) == FreeEntries(p, x)
    ensures FreeInRange(p) ==> FreeInRange(q)
  {
    var c := ClassOf(b);
    var cl := p.classes[c];
    Pool(p.classes[c := cl.(refs := cl.refs[IndexOf(b) := n])])
  }

  /** The push at the end of a last release. */
  function PushFree(p: Pool, b: Block): (q: Pool)
    requires WellShaped(p)
    ensures WellShaped(q)
    ensures forall x: Block :: Refs(q, x) == Refs(p, x)
    ensures forall x: Block :: FreeEntries(q, x) == FreeEntries(p, x) + (if x == b then 1 else 0)
    ensures FreeInRange(p) ==> FreeInRange(q)
  {
    var c := ClassOf(b);
    var cl := p.classes[c];
    Pool(p.classes[c := cl.(free := cl.free + [IndexOf(b)])])
  }

  /** The block an allocation from class `c` would take: the top of the stack. */
  function TopFree(p: Pool, c: nat): Block
    requires WellShaped(p) && FreeInRange(p) && c < CLASS_COUNT && p.classes[c].free != []
  {
    var free := p.classes[c].free;
    BlockAt(c, free[|free| - 1])
  }

  function PopFree(p: Pool, c: nat): (q: Pool)
    requires WellShaped(p) && FreeInRange(p) && c < CLASS_COUNT && p.classes[c].free != []
    ensures WellShaped(q) && FreeInRange(q)
    ensures forall x: Block :: Refs(q, x) == Refs(p, x)
    ensures forall x: Block ::
      FreeEntries(q, x) == FreeEntries(p, x) - (if x == TopFree(p, c) then 1 else 0)
  {
    var cl := p.classes[c];
    var n := |cl.free| - 1;
    assert cl.free == cl.free[..n] + [cl.free[n]];
    Pool(p.classes[c := cl.(free := cl.free[..n])])
  }

  predicate AllFree(p: Pool) {
    |p.classes| == CLASS_COUNT && forall c :: 0 <= c < CLASS_COUNT ==> |p.classes[c].free| == Capacity(c)
  }

  /** `nev_blob_pool_init`: every block free, block 0 of each class on top. */
  function InitialPool(): (p: Pool)
    ensures WellShaped(p) && FreeInRange(p) && AllFree(p)
    ensures forall b: Block :: Refs(p, b) == 0
  {
    Pool(seq(CLASS_COUNT, c requires 0 <= c < CLASS_COUNT =>
      ClassState(seq(Capacity(c), i => 0), Countdown(Capacity(c)))))
  }

  /** `[n - 1, ..., 1, 0]`. */
  function Countdown(n: nat): (s: seq<nat>)
    ensures |s| == n && forall i :: 0 <= i < n ==> s[i] == n - 1 - i
  {
    seq(n, i requires 0 <= i < n => n - 1 - i)
  }

  lemma {:induction false} CountdownNamesOnce(n: nat, v: nat)
    ensures multiset(Countdown(n))[v] == if v < n then 1 else 0
  {
    if n > 0 {
      CountdownNamesOnce(n - 1, v);
      assert Countdown(n) == [n - 1] + Countdown(n - 1);
    }
  }

  lemma InitialPoolFree(b: Block)
    ensures FreeEntries(InitialPool(), b) == 1
  {
    CountdownNamesOnce(Capacity(ClassOf(b)), IndexOf(b));
  }

  /** `n` numbers below `n`, none missing, and none repeated: `free_count` tells when a list is full. */
  lemma {:induction false} FullWhenAllPresent(s: seq<nat>, n: nat)
    requires forall i :: 0 <= i < |s| ==> s[i] < n
    requires forall v: nat :: v < n ==> multiset(s)[v] == 1
    ensures |s| == n
  {
    SameCount(s, n);
    assert |multiset(s)| == |s|;
    assert |multiset(Countdown(n))| == n;
  }

  lemma SameCount(s: seq<nat>, n: nat)
    requires forall i :: 0 <= i < |s| ==> s[i] < n
    requires forall v: nat :: v < n ==> multiset(s)[v] == 1
    ensures multiset(s) == multiset(Countdown(n))
  {
    forall v: nat ensures multiset(s)[v] == multiset(Countdown(n))[v] {
      CountdownNamesOnce(n, v);
      if v >= n { assert v !in s; }
    }
  }

  /** A free list that repeats nothing and lacks some block has room for that block. */
  lemma RoomWhenMissing(s: seq<nat>, n: nat, v: nat)
    requires v < n
    requires forall i :: 0 <= i < |s| ==> s[i] < n
    requires forall w: nat :: w < n ==> multiset(s)[w] <= 1
    requires multiset(s)[v] == 0
    ensures |s| < n
  {
    forall w: nat ensures multiset(s)[w] <= (multiset(Countdown(n)) - multiset{v})[w] {
      CountdownNamesOnce(n, w);
      if w >= n { assert w !in s; }
    }
    CountdownNamesOnce(n, v);
    var all := multiset(Countdown(n));
    assert multiset(s) <= all - multiset{v};
    SubMultisetSize(multiset(s), all - multiset{v});
    assert |all| == n;
  }

  lemma SubMultisetSize<T>(a: multiset<T>, b: multiset<T>)
    requires a <= b
    ensures |a| <= |b|
  {
    assert b == a + (b - a);
  }

  // ---------------------------------------------------------------- storage

  /** The bytes of its class's storage that block `b` covers. */
  function BlockStart(b: Block): nat { IndexOf(b) * BlockSize(ClassOf(b)) }

  function BlockEnd(b: Block): nat { BlockStart(b) + BlockSize(ClassOf(b)) }

  /** Two handles of one class that differ cover no byte in common, and none runs off the storage. */
  lemma BlocksDisjoint(a: Block, b: Block)
    requires a != b && ClassOf(a) == ClassOf(b)
    ensures BlockEnd(a) <= BlockStart(b) || BlockEnd(b) <= BlockStart(a)
    ensures BlockEnd(a) <= Capacity(ClassOf(a)) * BlockSize(ClassOf(a))
  {}

  /** The class `nev_blob_alloc` picks: the smallest whose blocks hold `len` bytes. */
  function ClassFor(len: nat): (c: nat)
    requires 0 < len <= MAX_LEN
    ensures c < CLASS_COUNT && len <= BlockSize(c)
    ensures forall d :: 0 <= d < c ==> BlockSize(d) < len
  {
    if len <= 512 then 0 else if len <= 4096 then 1 else 2
  }

  /** The sizes the documentation gives: 16, 64 and 256 KB, 336 in all. */
  lemma PoolSizes()
    ensures Capacity(0) == 32 && Capacity(1) == 16 && Capacity(2) == 4
    ensures 32 * BlockSize(0) == 16 * 1024 && 16 * BlockSize(1) == 64 * 1024 && 4 * BlockSize(2) == 256 * 1024
    ensures 32 * BlockSize(0) + 16 * BlockSize(1) + 4 * BlockSize(2) == 336 * 1024
  {}
}
