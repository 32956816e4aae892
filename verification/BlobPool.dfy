/** `nev_blob.c` in place: per class an array of counts and an array used as a stack of free indices. */
module BlobPool {
  import opened Basics
  import opened Blob

  /** The pool between two calls: each block is on its free list once if nobody holds it, else not at all. */
  ghost predicate Settled(p: Pool) {
    && WellShaped(p) && FreeInRange(p)
    && forall b: Block :: FreeEntries(p, b) == if Refs(p, b) == 0 then 1 else 0
  }

  function Retained(p: Pool, r: Option<Block>): (q: Pool)
    requires WellShaped(p)
    ensures WellShaped(q)
  {
    match r
    case None => p
    case Some(b) => SetRefs(p, b, Refs(p, b) + 1)
  }

  /** A release in one go; only blocks with references are ever released. */
  function Released(p: Pool, r: Option<Block>): (q: Pool)
    requires WellShaped(p)
    ensures WellShaped(q)
  {
    match r
    case None => p
    case Some(b) =>
      var q := SetRefs(p, b, if Refs(p, b) == 0 then 0 else Refs(p, b) - 1);
      if Refs(p, b) == 1 then PushFree(q, b) else q
  }

  function Allocated(p: Pool, c: nat): Pool
    requires WellShaped(p) && FreeInRange(p) && c < CLASS_COUNT && p.classes[c].free != []
  {
    SetRefs(PopFree(p, c), TopFree(p, c), 1)
  }

  lemma RetainedSettles(p: Pool, r: Option<Block>)
    requires Settled(p) && (r.Some? ==> Refs(p, r.value) > 0)
    ensures Settled(Retained(p, r))
  {}

  lemma ReleasedSettles(p: Pool, r: Option<Block>)
    requires Settled(p) && (r.Some? ==> Refs(p, r.value) > 0)
    ensures Settled(Released(p, r))
  {}

  lemma AllocatedSettles(p: Pool, c: nat)
    requires Settled(p) && c < CLASS_COUNT && p.classes[c].free != []
    ensures Settled(Allocated(p, c)) && Refs(p, TopFree(p, c)) == 0
  {
    var free: seq<nat> := p.classes[c].free;
    assert free[|free| - 1] in multiset(free);
    assert FreeEntries(p, TopFree(p, c)) > 0;
  }

  /** A block somebody holds is missing from its free list, which therefore has room for it. */
  lemma RoomToFree(p: Pool, b: Block)
    requires Settled(p) && Refs(p, b) > 0
    ensures |p.classes[ClassOf(b)].free| < Capacity(ClassOf(b))
  {
    var c := ClassOf(b);
    var free: seq<nat> := p.classes[c].free;
    forall w: nat | w < Capacity(c) ensures multiset(free)[w] <= 1 {
      assert FreeEntries(p, BlockAt(c, w)) == multiset(free)[w];
    }
    assert FreeEntries(p, b) == 0;
    RoomWhenMissing(free, Capacity(c), IndexOf(b));
  }

  /** In a settled pool, all free lists are full exactly when no block is held. */
  lemma AllFreeMeansUnheld(p: Pool)
    requires Settled(p)
    ensures AllFree(p) <==> forall b: Block :: Refs(p, b) == 0
  {
    if AllFree(p) {
      forall b: Block ensures Refs(p, b) == 0 {
        if Refs(p, b) > 0 { RoomToFree(p, b); }
      }
    }
    if forall b: Block :: Refs(p, b) == 0 {
      forall c | 0 <= c < CLASS_COUNT ensures |p.classes[c].free| == Capacity(c) {
        var free: seq<nat> := p.classes[c].free;
        forall v: nat | v < Capacity(c) ensures multiset(free)[v] == 1 {
          assert FreeEntries(p, BlockAt(c, v)) == multiset(free)[v];
        }
        FullWhenAllPresent(free, Capacity(c));
      }
    }
  }

  class BlobClass {
    const refs: array<nat>
    const freeList: array<nat>
    var freeCount: nat

    ghost predicate Valid()
      reads this, refs, freeList
    {
      refs.Length == freeList.Length && refs != freeList && freeCount <= freeList.Length
    }

    ghost function Value(): ClassState
      reads this, refs, freeList
      requires Valid()
    {
      ClassState(refs[..], freeList[..freeCount])
    }

    constructor (capacity: nat)
      ensures Valid() && fresh(refs) && fresh(freeList)
      ensures refs.Length == capacity
      ensures Value() == ClassState(seq(capacity, i => 0), Countdown(capacity))
    {
      refs := new nat[capacity](i => 0);
      freeList := new nat[capacity](i requires 0 <= i < capacity => capacity - 1 - i);
      freeCount := capacity;
      new;
      assert freeList[..freeCount] == Countdown(capacity);
      assert refs[..] == seq(capacity, i => 0);
    }

    method Pop() returns (index: nat)
      requires Valid() && freeCount > 0
      modifies this
      ensures Valid() && old(Value()).free == Value().free + [index] && Value().refs == old(Value()).refs
    {
      freeCount := freeCount - 1;
      index := freeList[freeCount];
    }

    method Store(index: nat, count: nat)
      requires Valid() && index < refs.Length
      modifies refs
      ensures Valid() && Value() == old(Value()).(refs := old(Value()).refs[index := count])
    {
      refs[index] := count;
    }

    method Push(index: nat)
      requires Valid() && freeCount < freeList.Length
      modifies this, freeList
      ensures Valid() && Value() == old(Value()).(free := old(Value()).free + [index])
    {
      freeList[freeCount] := index;
      freeCount := freeCount + 1;
    }
  }

  class BlobPool {
    const small: BlobClass
    const medium: BlobClass
    const large: BlobClass

    ghost const Repr: set<object> :=
      {small, small.refs, small.freeList, medium, medium.refs, medium.freeList, large, large.refs, large.freeList}

    /** No two of the classes, and no two of their arrays, are the same. */
    ghost predicate Separate() {
      && small != medium && small != large && medium != large
      && {small.refs, small.freeList} !! {medium.refs, medium.freeList} !! {large.refs, large.freeList}
    }

    /** Well-formed, whatever the counts. */
    ghost predicate Formed()
      reads Repr
    {
      && Separate() && small.Valid() && medium.Valid() && large.Valid()
      && small.refs.Length == 32 && medium.refs.Length == 16 && large.refs.Length == 4
    }

    ghost predicate Valid()
      reads Repr
    {
      Formed() && Settled(Value())
    }

    ghost function Value(): (p: Pool)
      reads Repr
      requires Formed()
      ensures WellShaped(p)
    {
      Pool([small.Value(), medium.Value(), large.Value()])
    }

    constructor ()
      ensures Valid() && fresh(Repr)
      ensures Value() == InitialPool()
    {
      var s := new BlobClass(32);
      var m := new BlobClass(16);
      var l := new BlobClass(4);
      small, medium, large := s, m, l;
      new;
      assert Value() == InitialPool();
      forall b: Block ensures FreeEntries(Value(), b) == 1 { InitialPoolFree(b); }
    }

    function Class(c: nat): BlobClass
      requires c < CLASS_COUNT
    {
      if c == 0 then small else if c == 1 then medium else large
    }

    method PopFrom(c: nat) returns (index: nat)
      requires Formed() && c < CLASS_COUNT && Value().classes[c].free != []
      modifies Repr
      ensures Formed()
      ensures var cl := old(Value()).classes[c];
              var n := |cl.free| - 1;
              index == cl.free[n] && Value() == Pool(old(Value()).classes[c := cl.(free := cl.free[..n])])
    {
      ghost var before := Value();
      var cl := Class(c);
      index := cl.Pop();
      assert Value().classes == before.classes[c := cl.Value()];
      assert before.classes[c].free[..|before.classes[c].free| - 1] == cl.Value().free;
    }

    method StoreIn(c: nat, index: nat, count: nat)
      requires Formed() && c < CLASS_COUNT && index < |Value().classes[c].refs|
      modifies Repr
      ensures Formed()
      ensures var cl := old(Value()).classes[c];
              Value() == Pool(old(Value()).classes[c := cl.(refs := cl.refs[index := count])])
    {
      ghost var before := Value();
      var cl := Class(c);
      cl.Store(index, count);
      assert Value().classes == before.classes[c := cl.Value()];
    }

    method PushTo(c: nat, index: nat)
      requires Formed() && c < CLASS_COUNT && |Value().classes[c].free| < |Value().classes[c].refs|
      modifies Repr
      ensures Formed()
      ensures var cl := old(Value()).classes[c];
              Value() == Pool(old(Value()).classes[c := cl.(free := cl.free + [index])])
    {
      ghost var before := Value();
      var cl := Class(c);
      cl.Push(index);
      assert Value().classes == before.classes[c := cl.Value()];
    }

    /** The size class an allocation goes to; the caller has checked the length. */
    method PickClass(len: nat) returns (c: nat)
      requires 0 < len <= MAX_LEN
      ensures c == ClassFor(len)
    {
      c := 0;
      while c < CLASS_COUNT && len > BlockSize(c)
        invariant 0 <= c <= ClassFor(len)
      {
        c := c + 1;
      }
    }

    /** `nev_blob_alloc`: never from a larger class than the smallest that fits. */
    method Alloc(len: nat) returns (h: Handle)
      requires Valid()
      modifies Repr
      ensures Valid()
      ensures len == 0 || len > MAX_LEN || old(Value()).classes[ClassFor(len)].free == [] ==>
                h == BLOB_NONE && Value() == old(Value())
      ensures 0 < len <= MAX_LEN && old(Value()).classes[ClassFor(len)].free != [] ==>
                && h == HandleOf(TopFree(old(Value()), ClassFor(len)))
                && Refs(old(Value()), TopFree(old(Value()), ClassFor(len))) == 0
                && Value() == Allocated(old(Value()), ClassFor(len))
    {
      if len == 0 || len > MAX_LEN { return BLOB_NONE; }
      var c := PickClass(len);
      ghost var before := Value();
      if Class(c).freeCount == 0 {
        assert before.classes[c].free == [];
        return BLOB_NONE;
      }
      assert before.classes[c].free != [];
      AllocatedSettles(before, c);
      var index := PopFrom(c);
      StoreIn(c, index, 1);
      h := c * 4096 + index;
    }

    /** `nev_blob_retain`; the assertion in the code demands a block somebody holds. */
    method Retain(h: Handle)
      requires Valid()
      requires BlockOf(h).Some? ==> Refs(Value(), BlockOf(h).value) > 0
      modifies Repr
      ensures Valid() && Value() == Retained(old(Value()), BlockOf(h))
    {
      if !HandleValid(h) { return; }
      var c, index := HandleClass(h), HandleIndex(h);
      RetainedSettles(Value(), BlockOf(h));
      StoreIn(c, index, Class(c).refs[index] + 1);
    }

    /** `nev_blob_release`; the last one puts the block back on its free list, which has room. */
    method Release(h: Handle)
      requires Valid()
      requires BlockOf(h).Some? ==> Refs(Value(), BlockOf(h).value) > 0
      modifies Repr
      ensures Valid() && Value() == Released(old(Value()), BlockOf(h))
    {
      if !HandleValid(h) { return; }
      var c, index := HandleClass(h), HandleIndex(h);
      RoomToFree(Value(), BlockOf(h).value);
      ReleasedSettles(Value(), BlockOf(h));
      var left := Class(c).refs[index] - 1;
      StoreIn(c, index, left);
      if left == 0 {
        PushTo(c, index);
      }
    }

    /** `nev_blob_all_free`: true exactly when no block is held by anyone. */
    method AllFree() returns (clean: bool)
      requires Valid()
      ensures clean <==> forall b: Block :: Refs(Value(), b) == 0
    {
      clean := true;
      var c := 0;
      while c < CLASS_COUNT && clean
        invariant 0 <= c <= CLASS_COUNT
        invariant clean <==> forall d :: 0 <= d < c ==> |Value().classes[d].free| == Capacity(d)
      {
        var cl := Class(c);
        assert Value().classes[c] == cl.Value();
        clean := cl.freeCount == cl.refs.Length;
        c := c + 1;
      }
      AllFreeMeansUnheld(Value());
    }
  }
}
