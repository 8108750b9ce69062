/** HashBucket: 64 slot pools fed by one operator new. */
module HashBucket {
  import opened Basics
  import opened SlotPool

  /** The pools, and for every slot in use the size it was asked for. */
  datatype Heap = Heap(pools: seq<Pool>, sizes: map<Addr, nat>)

  datatype Request =
    | Use(size: nat, base: Addr)                       // useMemory
    | Release(ptr: Addr, size: nat)                    // freeMemory
    | Store(ptr: Addr, at: Addr, len: nat, after: map<Addr, Addr>)   // the owner writes bytes of its object

  function Initial(): Heap {
    Heap(seq(POOLS, i requires 0 <= i < POOLS => Init(BucketSlot(i))), map[])
  }

  /** A new block is clear of every block there is. */
  ghost predicate FreshBlock(h: Heap, base: Addr) {
    forall i | 0 <= i < |h.pools| :: ClearOf(h.pools[i], base)
  }

  /** Sizes 1 to 512 go to the pools; a slot is released with the size it was asked for. */
  ghost predicate Allowed(h: Heap, r: Request) {
    match r
    case Use(size, base) => 1 <= size <= MAX_SLOT_SIZE && FreshBlock(h, base)
    case Release(ptr, size) => ptr in h.sizes && h.sizes[ptr] == size
    case Store(ptr, at, len, after) =>
      && ptr in h.sizes && ptr <= at && at + len <= ptr + h.sizes[ptr]
      && (0 <= Bucket(h.sizes[ptr]) < |h.pools| ==> Overwritten(h.pools[Bucket(h.sizes[ptr])].store, at, len, after))
  }

  ghost predicate PoolsApart(ps: seq<Pool>) {
    forall i, j, b, c | 0 <= i < |ps| && 0 <= j < |ps| && i != j && b in ps[i].blocks && c in ps[j].blocks ::
      Disjoint(b, BLOCK_SIZE, c, BLOCK_SIZE)
  }

  /** Every pool is in order, and a slot in use is the slot of its size's pool. */
  ghost predicate Inv(h: Heap) {
    && |h.pools| == POOLS
    && (forall i | 0 <= i < POOLS :: SlotPool.Inv(h.pools[i]) && h.pools[i].slotSize == BucketSlot(i))
    && PoolsApart(h.pools)
    && (forall a | a in h.sizes :: 1 <= h.sizes[a] <= MAX_SLOT_SIZE && a in h.pools[Bucket(h.sizes[a])].live)
    && (forall i, a | 0 <= i < POOLS && a in h.pools[i].live :: a in h.sizes && Bucket(h.sizes[a]) == i)
  }

  /** A size that has a pool. */
  ghost predicate HasPool(h: Heap, size: nat) {
    0 <= Bucket(size) < |h.pools| && 0 < h.pools[Bucket(size)].slotSize <= BLOCK_SIZE
  }

  /** One call; None where there is no pool, or where it has no slot to give. */
  ghost function Next(h: Heap, r: Request): Option<Heap> {
    match r
    case Use(size, base) =>
      var i := Bucket(size);
      if !HasPool(h, size) then None
      else
        (match Allocate(h.pools[i], base)
         case None => None
         case Some((p, slot)) => Some(Heap(h.pools[i := p], h.sizes[slot := size])))
    case Release(ptr, size) =>
      var i := Bucket(size);
      if !HasPool(h, size) then None
      else Some(Heap(h.pools[i := Deallocate(h.pools[i], ptr)], h.sizes - {ptr}))
    case Store(ptr, _, _, after) =>
      if ptr !in h.sizes || !HasPool(h, h.sizes[ptr]) then None
      else
        var i := Bucket(h.sizes[ptr]);
        Some(h.(pools := h.pools[i := h.pools[i].(store := after)]))
  }

  /** A slot of one pool is in no block of another. */
  lemma {:induction false} ForeignSlot(h: Heap, i: nat, j: nat, a: Addr, b: Addr)
    requires |h.pools| == POOLS && PoolsApart(h.pools) && i < POOLS && j < POOLS && i != j
    requires h.pools[i].slotSize > 0 && h.pools[j].slotSize > 0 && Slot(h.pools[i], a) && Slot(h.pools[j], b)
    ensures Disjoint(a, h.pools[i].slotSize, b, h.pools[j].slotSize)
  {
    var x :| x in h.pools[i].blocks && InBlock(h.pools[i].slotSize, x, a);
    var y :| y in h.pools[j].blocks && InBlock(h.pools[j].slotSize, y, b);
    assert Disjoint(x, BLOCK_SIZE, y, BLOCK_SIZE);
  }

  lemma {:induction false} ApartWith(ps: seq<Pool>, i: nat, p: Pool, base: Addr)
    requires PoolsApart(ps) && i < |ps| && (p.blocks == ps[i].blocks || p.blocks == [base] + ps[i].blocks)
    requires p.blocks != ps[i].blocks ==> forall k | 0 <= k < |ps| :: ClearOf(ps[k], base)
    ensures PoolsApart(ps[i := p])
  {
    var qs := ps[i := p];
    forall k, j, b, c | 0 <= k < |qs| && 0 <= j < |qs| && k != j && b in qs[k].blocks && c in qs[j].blocks
      ensures Disjoint(b, BLOCK_SIZE, c, BLOCK_SIZE)
    {
      assert k == i || qs[k] == ps[k];
      assert j == i || qs[j] == ps[j];
      assert b in ps[k].blocks || b == base;
      assert c in ps[j].blocks || c == base;
    }
  }

  lemma {:induction false} UseKeeps(h: Heap, size: nat, base: Addr)
    requires Inv(h) && Allowed(h, Use(size, base))
    ensures Next(h, Use(size, base)).Some? && Inv(Next(h, Use(size, base)).value)
  {
    hide SlotPool.Inv, Allocate;
    BucketExact(size);
    var i := Bucket(size);
    FreeEmpty(h.pools[i]);
    AllocateKeeps(h.pools[i], base);
    var (p, slot) := Allocate(h.pools[i], base).value;
    ApartWith(h.pools, i, p, base);
    assert slot !in h.sizes by { NewToAll(h, i, p, slot, base); }
  }

  /** A slot just handed out is in use in no pool. */
  lemma {:induction false} NewToAll(h: Heap, i: nat, p: Pool, slot: Addr, base: Addr)
    requires Inv(h) && i < POOLS && SlotPool.Inv(p) && p.slotSize == h.pools[i].slotSize
    requires slot !in h.pools[i].live && slot in p.live && PoolsApart(h.pools[i := p])
    ensures slot !in h.sizes
  {
    forall a | a in h.sizes ensures a != slot {
      var j := Bucket(h.sizes[a]);
      BucketExact(h.sizes[a]);
      if j != i {
        var h' := h.(pools := h.pools[i := p]);
        assert h'.pools[j] == h.pools[j];
        assert Slot(p, slot) && Slot(h.pools[j], a);
        ForeignSlot(h', i, j, slot, a);
      }
    }
  }

  lemma {:induction false} ReleaseKeeps(h: Heap, ptr: Addr, size: nat)
    requires Inv(h) && Allowed(h, Release(ptr, size))
    ensures Next(h, Release(ptr, size)).Some? && Inv(Next(h, Release(ptr, size)).value)
  {
    hide SlotPool.Inv;
    BucketExact(size);
    var i := Bucket(size);
    FreeEmpty(h.pools[i]);
    DeallocateKeeps(h.pools[i], ptr);
    ApartWith(h.pools, i, Deallocate(h.pools[i], ptr), 0);
  }

  lemma {:induction false} StoreKeeps(h: Heap, ptr: Addr, at: Addr, len: nat, after: map<Addr, Addr>)
    requires Inv(h) && Allowed(h, Store(ptr, at, len, after))
    ensures Next(h, Store(ptr, at, len, after)).Some? && Inv(Next(h, Store(ptr, at, len, after)).value)
  {
    hide SlotPool.Inv;
    var size := h.sizes[ptr];
    BucketExact(size);
    var i := Bucket(size);
    FreeEmpty(h.pools[i]);
    WriteKeeps(h.pools[i], ptr, at, len, after);
    ApartWith(h.pools, i, h.pools[i].(store := after), 0);
  }

  lemma {:induction false} StepKeeps(h: Heap, r: Request)
    requires Inv(h) && Allowed(h, r)
    ensures Next(h, r).Some? && Inv(Next(h, r).value)
  {
    hide Inv, Next;
    match r
    case Use(size, base) => UseKeeps(h, size, base);
    case Release(ptr, size) => ReleaseKeeps(h, ptr, size);
    case Store(ptr, at, len, after) => StoreKeeps(h, ptr, at, len, after);
  }

  lemma {:induction false} InitialInv()
    ensures Inv(Initial())
  {
    forall i | 0 <= i < POOLS ensures SlotPool.Inv(Initial().pools[i]) && Initial().pools[i].slotSize == BucketSlot(i) {
      InitInv(BucketSlot(i));
    }
  }

  // ----- whole runs -----

  /** Callers and operator new keep their promises. */
  ghost predicate Legal(h: Heap, rs: seq<Request>)
    decreases |rs|
  {
    rs == [] || (Allowed(h, rs[0]) && (Next(h, rs[0]).Some? ==> Legal(Next(h, rs[0]).value, rs[1..])))
  }

  ghost function Run(h: Heap, rs: seq<Request>): Option<Heap>
    decreases |rs|
  {
    if rs == [] then Some(h)
    else
      match Next(h, rs[0])
      case None => None
      case Some(h1) => Run(h1, rs[1..])
  }

  lemma {:induction false} RunKeeps(h: Heap, rs: seq<Request>)
    requires Inv(h) && Legal(h, rs)
    ensures Run(h, rs).Some? && Inv(Run(h, rs).value)
    decreases |rs|
  {
    hide Inv, Next, Allowed;
    if rs != [] {
      StepKeeps(h, rs[0]);
      RunKeeps(Next(h, rs[0]).value, rs[1..]);
    }
  }

  // ----- what is in an object stays in it -----

  /** The request is not of the owner of `ptr`: it neither releases nor writes it. */
  ghost predicate ForeignTo(r: Request, ptr: Addr) {
    match r case Use(_, _) => true case Release(p, _) => p != ptr case Store(p, _, _, _) => p != ptr
  }

  /** The object at `ptr` is in use in both, with the same size and the same words. */
  ghost predicate SameObject(h: Heap, h': Heap, ptr: Addr) {
    && ptr in h.sizes && ptr in h'.sizes && h'.sizes[ptr] == h.sizes[ptr]
    && var i := Bucket(h.sizes[ptr]);
    0 <= i < |h.pools| && i < |h'.pools| && SameWords(h.pools[i].store, h'.pools[i].store, ptr, h.sizes[ptr])
  }

  /** The call that a request makes to its pool. */
  ghost function CallOf(r: Request): Call {
    match r
    case Use(_, base) => Alloc(base)
    case Release(ptr, _) => Free(ptr)
    case Store(ptr, at, len, after) => Write(ptr, at, len, after)
  }

  ghost function PoolOf(h: Heap, r: Request): int {
    match r
    case Use(size, _) => Bucket(size)
    case Release(_, size) => Bucket(size)
    case Store(ptr, _, _, _) => if ptr in h.sizes then Bucket(h.sizes[ptr]) else -1
  }

  /** A request is a call to one pool, and the others stay. */
  lemma {:induction false} OnePool(h: Heap, r: Request)
    requires Inv(h) && Allowed(h, r)
    ensures var i := PoolOf(h, r);
      && 0 <= i < POOLS && SlotPool.Inv(h.pools[i]) && SlotPool.Allowed(h.pools[i], CallOf(r))
      && WORD <= h.pools[i].slotSize <= MAX_SLOT_SIZE
      && Next(h, r).Some? && SlotPool.Next(h.pools[i], CallOf(r)) == Some(Next(h, r).value.pools[i])
      && (forall j | 0 <= j < POOLS && j != i :: Next(h, r).value.pools[j] == h.pools[j])
  {
    hide SlotPool.Inv, Allocate;
    StepKeeps(h, r);
    var i := PoolOf(h, r);
    if r.Store? { BucketExact(h.sizes[r.ptr]); } else { BucketExact(r.size); }
    FreeEmpty(h.pools[i]);
    if r.Store? { assert h.sizes[r.ptr] <= h.pools[i].slotSize; }
  }

  lemma {:induction false} ForeignRequest(h: Heap, r: Request, ptr: Addr)
    requires Inv(h) && Allowed(h, r) && ptr in h.sizes && ForeignTo(r, ptr)
    ensures Next(h, r).Some? && SameObject(h, Next(h, r).value, ptr)
  {
    hide SlotPool.Inv, Allocate, SlotPool.Allowed, SlotPool.Next;
    OnePool(h, r);
    StepKeeps(h, r);
    BucketExact(h.sizes[ptr]);
    var i, b := PoolOf(h, r), Bucket(h.sizes[ptr]);
    if i == b { ForeignStep(h.pools[b], CallOf(r), ptr); }
    SizesKept(h, r, ptr);
  }

  lemma {:induction false} SizesKept(h: Heap, r: Request, ptr: Addr)
    requires Inv(h) && Allowed(h, r) && ptr in h.sizes && ForeignTo(r, ptr) && Next(h, r).Some?
    ensures ptr in Next(h, r).value.sizes && Next(h, r).value.sizes[ptr] == h.sizes[ptr]
  {
    hide SlotPool.Inv, Allocate;
    if r.Use? {
      BucketExact(r.size);
      var i := Bucket(r.size);
      AllocateKeeps(h.pools[i], r.base);
      var (p, slot) := Allocate(h.pools[i], r.base).value;
      ApartWith(h.pools, i, p, r.base);
      NewToAll(h, i, p, slot, r.base);
    }
  }

  /** Whatever is asked for, used and released elsewhere, in all the pools: an object that its
      owner neither releases nor writes keeps its words. */
  lemma {:induction false} ObjectKept(h: Heap, rs: seq<Request>, ptr: Addr)
    requires Inv(h) && Legal(h, rs) && ptr in h.sizes
    requires forall k | 0 <= k < |rs| :: ForeignTo(rs[k], ptr)
    ensures Run(h, rs).Some? && SameObject(h, Run(h, rs).value, ptr)
    decreases |rs|
  {
    hide Next, Allowed, ForeignTo, SlotPool.Inv;
    if rs == [] {
      BucketExact(h.sizes[ptr]);
    } else {
      StepKeeps(h, rs[0]);
      ForeignRequest(h, rs[0], ptr);
      ObjectKept(Next(h, rs[0]).value, rs[1..], ptr);
    }
  }

  /** Whatever is asked for, used and released: no call lacks a slot, every object lies inside
      its slot, and no two objects in use overlap, whichever pools they come from. */
  lemma {:induction false} ObjectsApart(rs: seq<Request>)
    requires Legal(Initial(), rs)
    ensures Run(Initial(), rs).Some?
    ensures var h := Run(Initial(), rs).value;
      && (forall a | a in h.sizes ::
            1 <= h.sizes[a] <= BucketSlot(Bucket(h.sizes[a])) && a % BucketSlot(Bucket(h.sizes[a])) == 0)
      && (forall a, b | a in h.sizes && b in h.sizes && a != b :: Disjoint(a, h.sizes[a], b, h.sizes[b]))
  {
    hide Run, Legal, Initial;
    InitialInv();
    RunKeeps(Initial(), rs);
    InvApart(Run(Initial(), rs).value);
  }

  lemma {:induction false} InvApart(h: Heap)
    requires Inv(h)
    ensures forall a | a in h.sizes ::
      1 <= h.sizes[a] <= BucketSlot(Bucket(h.sizes[a])) && a % BucketSlot(Bucket(h.sizes[a])) == 0
    ensures forall a, b | a in h.sizes && b in h.sizes && a != b :: Disjoint(a, h.sizes[a], b, h.sizes[b])
  {
    forall a | a in h.sizes
      ensures 1 <= h.sizes[a] <= BucketSlot(Bucket(h.sizes[a])) && a % BucketSlot(Bucket(h.sizes[a])) == 0
      ensures Slot(h.pools[Bucket(h.sizes[a])], a)
    {
      BucketExact(h.sizes[a]);
      assert Slot(h.pools[Bucket(h.sizes[a])], a);
    }
    forall a, b | a in h.sizes && b in h.sizes && a != b ensures Disjoint(a, h.sizes[a], b, h.sizes[b]) {
      var i, j := Bucket(h.sizes[a]), Bucket(h.sizes[b]);
      BucketExact(h.sizes[a]);
      BucketExact(h.sizes[b]);
      if i == j {
        MultiplesApart(BucketSlot(i), a, b);
      } else {
        ForeignSlot(h, i, j, a, b);
      }
    }
  }
}
