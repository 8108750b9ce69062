/** The slot allocator: blocks carved into slots, a free list and a block list that run
    through the memory they manage, and the 64 pools of HashBucket. */
module SlotPool {
  import opened Basics

  type Addr = nat
  const NULL: Addr := 0
  const BLOCK_SIZE := 4096
  const WORD := 8            // sizeof(Slot*)
  const POOLS := 64
  const SLOT_BASE_SIZE := 8
  const MAX_SLOT_SIZE := 512

  /** A MemoryPool. `blocks`, `free` and `live` say what the pointers stand for: the blocks
      from the newest, the slots of the free list from its head, the slots in use. */
  datatype Pool = Pool(
    slotSize: nat,
    firstBlock: Addr,
    freeList: Addr,
    cur: Addr,                   // curSlot_
    last: Addr,                  // lastSlot_
    store: map<Addr, Addr>,      // the pointer-sized words of the pool's blocks
    blocks: seq<Addr>,
    free: seq<Addr>,
    live: set<Addr>)

  /** MemoryPool::init. */
  function Init(slotSize: nat): Pool {
    Pool(if slotSize < WORD then WORD else slotSize, NULL, NULL, NULL, NULL, map[], [], [], {})
  }

  // ----- the operations -----

  /** The padding of allocateNewBlock. */
  function Padding(s: nat, body: nat): nat
    requires s > 0
  {
    (s - body % s) % s
  }

  /** allocateNewBlock, for the block that operator new puts at `base`. */
  function NewBlock(p: Pool, base: Addr): Pool
    requires p.slotSize > 0 && p.slotSize <= BLOCK_SIZE
  {
    var body := base + WORD;
    p.(store := p.store[base := p.firstBlock],
       firstBlock := base,
       blocks := [base] + p.blocks,
       cur := body + Padding(p.slotSize, body),
       last := base + BLOCK_SIZE - p.slotSize + 1,
       freeList := NULL,
       free := [])
  }

  /** allocate: `base` is where a new block would go. None: the free list leaves the store. */
  function Allocate(p: Pool, base: Addr): Option<(Pool, Addr)>
    requires p.slotSize > 0 && p.slotSize <= BLOCK_SIZE
  {
    if p.freeList != NULL then
      if p.freeList !in p.store || p.free == [] then None
      else
        var slot := p.freeList;
        Some((p.(freeList := p.store[slot], free := p.free[1..], live := p.live + {slot}), slot))
    else
      var q := if p.cur >= p.last then NewBlock(p, base) else p;
      Some((q.(cur := q.cur + q.slotSize, live := q.live + {q.cur}), q.cur))
  }

  /** deallocate of a slot in use. */
  function Deallocate(p: Pool, slot: Addr): Pool {
    p.(store := p.store[slot := p.freeList], freeList := slot, free := [slot] + p.free, live := p.live - {slot})
  }

  /** `after` can be what a write of `len` bytes at `at`, at any alignment, makes of `store`:
      every word clear of those bytes is as before. */
  ghost predicate Overwritten(store: map<Addr, Addr>, at: Addr, len: nat, after: map<Addr, Addr>) {
    forall a | a in store && Disjoint(a, WORD, at, len) :: a in after && after[a] == store[a]
  }

  // ----- what every call keeps -----

  ghost predicate Linked(store: map<Addr, Addr>, head: Addr, list: seq<Addr>)
    decreases |list|
  {
    if list == [] then head == NULL
    else head == list[0] && head != NULL && head in store && Linked(store, store[head], list[1..])
  }

  predicate Disjoint(a: Addr, n: nat, b: Addr, m: nat) { a + n <= b || b + m <= a }

  /** A slot lies in its block, behind the header, at a multiple of the slot size. */
  predicate InBlock(s: nat, base: Addr, slot: Addr)
    requires s > 0
  {
    slot % s == 0 && base + WORD <= slot && slot + s <= base + BLOCK_SIZE
  }

  ghost predicate Slot(p: Pool, slot: Addr)
    requires p.slotSize > 0
  {
    exists b :: b in p.blocks && InBlock(p.slotSize, b, slot)
  }

  ghost predicate BlocksApart(blocks: seq<Addr>) {
    forall i, j :: 0 <= i < j < |blocks| ==> Disjoint(blocks[i], BLOCK_SIZE, blocks[j], BLOCK_SIZE)
  }

  /** The part of the newest block that is not yet carved. */
  ghost predicate Carving(p: Pool)
    requires p.slotSize > 0
  {
    if p.blocks == [] then p.cur == NULL && p.last == NULL
    else
      var b := p.blocks[0];
      && p.cur % p.slotSize == 0 && b + WORD <= p.cur && p.cur <= b + BLOCK_SIZE
      && p.last == b + BLOCK_SIZE - p.slotSize + 1
      && (forall a | a in p.live || a in p.free :: Disjoint(a, p.slotSize, p.cur, b + BLOCK_SIZE - p.cur))
  }

  ghost predicate Inv(p: Pool) {
    && WORD <= p.slotSize <= MAX_SLOT_SIZE && p.slotSize % WORD == 0
    && Linked(p.store, p.firstBlock, p.blocks) && Linked(p.store, p.freeList, p.free)
    && (forall b | b in p.blocks :: b > 0) && BlocksApart(p.blocks)
    && (forall a | a in p.live || a in p.free :: Slot(p, a))
    && NoDup(p.free) && (forall a | a in p.free :: a !in p.live)
    && Carving(p)
  }

  // ----- lists in memory -----

  lemma {:induction false} LinkedElsewhere(store: map<Addr, Addr>, head: Addr, list: seq<Addr>, at: Addr, value: Addr)
    requires Linked(store, head, list) && at !in list
    ensures Linked(store[at := value], head, list)
    decreases |list|
  {
    if list != [] {
      assert list == [list[0]] + list[1..];
      LinkedElsewhere(store, store[head], list[1..], at, value);
    }
  }

  /** A list is its words. */
  lemma {:induction false} LinkedSame(store: map<Addr, Addr>, head: Addr, list: seq<Addr>, after: map<Addr, Addr>)
    requires Linked(store, head, list)
    requires forall a | a in list :: a in store ==> a in after && after[a] == store[a]
    ensures Linked(after, head, list)
    decreases |list|
  {
    if list != [] {
      assert list == [list[0]] + list[1..];
      LinkedSame(store, store[head], list[1..], after);
    }
  }

  lemma {:induction false} LinkedFront(store: map<Addr, Addr>, head: Addr, list: seq<Addr>, at: Addr)
    requires Linked(store, head, list) && at !in list && at != NULL
    ensures Linked(store[at := head], at, [at] + list)
  {
    LinkedElsewhere(store, head, list, at, head);
    assert ([at] + list)[1..] == list;
  }

  // ----- arithmetic -----

  lemma {:induction false} Aligned(s: nat, body: nat)
    requires s > 0
    ensures (body + Padding(s, body)) % s == 0 && Padding(s, body) < s
  {
    var r, q := body % s, body / s;
    PaddingIs(s, body);
    if r != 0 { NextMultiple(q, s, body + (s - r)); }
  }

  lemma {:induction false} PaddingIs(s: nat, body: nat)
    requires s > 0
    ensures Padding(s, body) == if body % s == 0 then 0 else s - body % s
    ensures body == (body / s) * s + body % s
  {}

  lemma {:induction false} NextMultiple(q: nat, s: nat, n: nat)
    requires s > 0 && n == q * s + s
    ensures n % s == 0
  {
    assert n == (q + 1) * s;
    MultipleMod(q + 1, s);
  }

  lemma {:induction false} MultipleMod(q: nat, s: nat)
    requires s > 0
    ensures (q * s) % s == 0
    decreases q
  {
    if q > 0 {
      MultipleMod(q - 1, s);
      assert q * s == (q - 1) * s + s;
      AddMod((q - 1) * s, s);
    }
  }

  lemma {:induction false} AddMod(a: nat, s: nat)
    requires s > 0
    ensures (a + s) % s == a % s
  {
    assert a == (a / s) * s + a % s;
    assert a + s == (a / s + 1) * s + a % s;
    DivUnique(a + s, s, a / s + 1, a % s);
  }

  lemma {:induction false} DivUnique(a: int, s: nat, q: int, r: int)
    requires s > 0 && a == q * s + r && 0 <= r < s
    ensures a % s == r
  {
    var k := a / s - q;
    assert k * s == (a / s) * s - q * s;
    assert k * s == r - a % s;
    MultipleFar(k, s);
  }

  lemma {:induction false} MultipleFar(k: int, s: int)
    requires s > 0
    ensures k == 0 || k * s >= s || k * s <= -s
  {
    assert k >= 1 ==> k * s >= s;
    assert k <= -1 ==> k * s <= -s;
  }

  /** Two different multiples of the slot size are at least a slot apart. */
  lemma {:induction false} MultiplesApart(s: nat, a: nat, b: nat)
    requires s > 0 && a % s == 0 && b % s == 0 && a != b
    ensures Disjoint(a, s, b, s)
  {
    WholeMultiple(a, s);
    WholeMultiple(b, s);
    var x, y := a / s, b / s;
    MultipleFar(x - y, s);
    Distribute(x, y, s);
  }

  lemma {:induction false} WholeMultiple(a: nat, s: nat)
    requires s > 0 && a % s == 0
    ensures a == (a / s) * s
  {}

  lemma {:induction false} Distribute(x: int, y: int, s: int)
    ensures (x - y) * s == x * s - y * s
  {}

  // ----- the calls -----

  lemma {:induction false} InBlockDisjoint(s: nat, b: Addr, c: Addr, x: Addr)
    requires s > 0 && Disjoint(b, BLOCK_SIZE, c, BLOCK_SIZE) && InBlock(s, c, x)
    ensures Disjoint(x, s, b, BLOCK_SIZE)
  {}

  /** A block at `base` is clear of every block of the pool. */
  ghost predicate ClearOf(p: Pool, base: Addr) {
    base > 0 && forall b | b in p.blocks :: Disjoint(base, BLOCK_SIZE, b, BLOCK_SIZE)
  }

  lemma {:induction false} NewBlockKeeps(p: Pool, base: Addr)
    requires Inv(p) && p.free == [] && ClearOf(p, base)
    ensures Inv(NewBlock(p, base)) && NewBlock(p, base).cur < NewBlock(p, base).last
  {
    var q := NewBlock(p, base);
    assert forall b | b in p.blocks :: b != base;
    LinkedFront(p.store, p.firstBlock, p.blocks, base);
    Aligned(p.slotSize, base + WORD);
    assert q.blocks[1..] == p.blocks;
    forall i, j | 0 <= i < j < |q.blocks| ensures Disjoint(q.blocks[i], BLOCK_SIZE, q.blocks[j], BLOCK_SIZE) {
      assert q.blocks[j] == p.blocks[j - 1];
      if i > 0 { assert q.blocks[i] == p.blocks[i - 1]; } else { assert p.blocks[j - 1] in p.blocks; }
    }
    forall a | a in q.live || a in q.free
      ensures Slot(q, a) && Disjoint(a, q.slotSize, q.cur, base + BLOCK_SIZE - q.cur)
    {
      assert Slot(p, a);
      var b :| b in p.blocks && InBlock(p.slotSize, b, a);
      assert b in q.blocks;
      InBlockDisjoint(p.slotSize, base, b, a);
    }
  }

  /** Carving the next slot off the newest block. */
  lemma {:induction false} CarveKeeps(p: Pool)
    requires Inv(p) && p.blocks != [] && p.cur < p.last
    ensures p.cur !in p.live && p.cur !in p.free
    ensures Inv(p.(cur := p.cur + p.slotSize, live := p.live + {p.cur}))
  {
    var q := p.(cur := p.cur + p.slotSize, live := p.live + {p.cur});
    var b := p.blocks[0];
    AddMod(p.cur, p.slotSize);
    assert b in p.blocks && InBlock(p.slotSize, b, p.cur);
    forall a | a in q.live || a in q.free
      ensures Slot(q, a) && Disjoint(a, q.slotSize, q.cur, b + BLOCK_SIZE - q.cur)
    {
      if a == p.cur {
        assert b in q.blocks && InBlock(q.slotSize, b, a);
      } else {
        assert Slot(p, a);
        var c :| c in p.blocks && InBlock(p.slotSize, c, a);
        assert c in q.blocks && InBlock(q.slotSize, c, a);
      }
    }
  }

  lemma {:induction false} SameBlocks(p: Pool, q: Pool, a: Addr)
    requires p.slotSize > 0 && q.slotSize == p.slotSize && q.blocks == p.blocks && Slot(p, a)
    ensures Slot(q, a)
  {
    var b :| b in p.blocks && InBlock(p.slotSize, b, a);
    assert b in q.blocks && InBlock(q.slotSize, b, a);
  }

  lemma {:induction false} PopKeeps(p: Pool)
    requires Inv(p) && p.freeList != NULL
    ensures p.free != [] && p.freeList in p.store && p.freeList in p.free && p.freeList !in p.live
    ensures Inv(p.(freeList := p.store[p.freeList], free := p.free[1..], live := p.live + {p.freeList}))
  {
    var q := p.(freeList := p.store[p.freeList], free := p.free[1..], live := p.live + {p.freeList});
    assert p.free == [p.free[0]] + p.free[1..];
    forall a | a in q.live || a in q.free ensures Slot(q, a) {
      assert a in p.live || a in p.free;
      SameBlocks(p, q, a);
    }
  }

  /** A call of allocate hands out a slot that was not in use. */
  lemma {:induction false} AllocateKeeps(p: Pool, base: Addr)
    requires Inv(p) && ClearOf(p, base)
    ensures Allocate(p, base).Some?
    ensures var (q, slot) := Allocate(p, base).value;
      Inv(q) && slot !in p.live && q.live == p.live + {slot} && q.slotSize == p.slotSize
      && (q.blocks == p.blocks || q.blocks == [base] + p.blocks)
  {
    hide Inv;
    if p.freeList != NULL {
      PopKeeps(p);
    } else {
      FreeEmpty(p);
      var q := p;
      if p.cur >= p.last {
        NewBlockKeeps(p, base);
        q := NewBlock(p, base);
      }
      CarveKeeps(q);
    }
  }

  lemma {:induction false} FreeEmpty(p: Pool)
    requires Inv(p)
    ensures WORD <= p.slotSize <= MAX_SLOT_SIZE
    ensures p.freeList == NULL ==> p.free == []
    ensures p.cur < p.last ==> p.blocks != []
  {}

  lemma {:induction false} TwoBlocks(blocks: seq<Addr>, b: Addr, c: Addr)
    requires BlocksApart(blocks) && b in blocks && c in blocks
    ensures b == c || Disjoint(b, BLOCK_SIZE, c, BLOCK_SIZE)
  {
    var i :| 0 <= i < |blocks| && blocks[i] == b;
    var j :| 0 <= j < |blocks| && blocks[j] == c;
    assert i < j || j < i || i == j;
  }

  /** The headers of the blocks are not slot words. */
  lemma {:induction false} WordNotHeader(p: Pool, slot: Addr, at: Addr)
    requires Inv(p) && Slot(p, slot) && slot <= at < slot + p.slotSize
    ensures at !in p.blocks
  {
    var b :| b in p.blocks && InBlock(p.slotSize, b, slot);
    forall c | c in p.blocks ensures c != at {
      TwoBlocks(p.blocks, b, c);
    }
  }

  lemma {:induction false} DeallocateKeeps(p: Pool, slot: Addr)
    requires Inv(p) && slot in p.live
    ensures Inv(Deallocate(p, slot))
  {
    var q := Deallocate(p, slot);
    assert Slot(p, slot);
    assert slot > 0 by { var b :| b in p.blocks && InBlock(p.slotSize, b, slot); }
    WordNotHeader(p, slot, slot);
    LinkedElsewhere(p.store, p.firstBlock, p.blocks, slot, p.freeList);
    LinkedFront(p.store, p.freeList, p.free, slot);
    assert ([slot] + p.free)[1..] == p.free;
    forall a | a in q.live || a in q.free ensures Slot(q, a) && (a in p.live || a in p.free) {
      SameBlocks(p, q, a);
    }
  }

  /** Bytes of a slot in use are in no word of the lists. */
  lemma {:induction false} ListsElsewhere(p: Pool, slot: Addr)
    requires Inv(p) && slot in p.live
    ensures forall c | c in p.blocks :: Disjoint(c, WORD, slot, p.slotSize)
    ensures forall a | a in p.free :: Disjoint(a, WORD, slot, p.slotSize)
  {
    assert Slot(p, slot);
    var b :| b in p.blocks && InBlock(p.slotSize, b, slot);
    forall c | c in p.blocks ensures Disjoint(c, WORD, slot, p.slotSize) {
      TwoBlocks(p.blocks, b, c);
    }
    forall a | a in p.free ensures Disjoint(a, WORD, slot, p.slotSize) {
      assert Slot(p, a);
      MultiplesApart(p.slotSize, slot, a);
    }
  }

  /** Whatever the owner of a slot writes in it, at whatever alignment. */
  lemma {:induction false} WriteKeeps(p: Pool, slot: Addr, at: Addr, len: nat, after: map<Addr, Addr>)
    requires Inv(p) && slot in p.live && slot <= at && at + len <= slot + p.slotSize
    requires Overwritten(p.store, at, len, after)
    ensures Inv(p.(store := after))
  {
    var q := p.(store := after);
    ListsElsewhere(p, slot);
    LinkedSame(p.store, p.firstBlock, p.blocks, after);
    LinkedSame(p.store, p.freeList, p.free, after);
    forall a | a in q.live || a in q.free ensures Slot(q, a) {
      assert Slot(p, a);
      SameBlocks(p, q, a);
    }
  }

  // ----- whole runs -----

  datatype Call =
    | Alloc(base: Addr)                            // where a new block would go
    | Free(slot: Addr)
    | Write(slot: Addr, at: Addr, len: nat, after: map<Addr, Addr>)   // a user writes bytes of its slot

  /** What callers and operator new promise: blocks do not overlap, and only slots in use
      are freed or written. */
  ghost predicate Allowed(p: Pool, c: Call) {
    match c
    case Alloc(base) => ClearOf(p, base)
    case Free(slot) => slot in p.live
    case Write(slot, at, len, after) =>
      slot in p.live && slot <= at && at + len <= slot + p.slotSize && Overwritten(p.store, at, len, after)
  }

  ghost function Next(p: Pool, c: Call): Option<Pool>
    requires WORD <= p.slotSize <= MAX_SLOT_SIZE
  {
    match c
    case Alloc(base) => (match Allocate(p, base) case None => None case Some((q, _)) => Some(q))
    case Free(slot) => Some(Deallocate(p, slot))
    case Write(_, _, _, after) => Some(p.(store := after))
  }

  lemma {:induction false} StepKeeps(p: Pool, c: Call)
    requires Inv(p) && Allowed(p, c)
    ensures Next(p, c).Some? && Inv(Next(p, c).value) && Next(p, c).value.slotSize == p.slotSize
  {
    hide Inv, Allocate, Deallocate;
    FreeEmpty(p);
    match c
    case Alloc(base) => AllocateKeeps(p, base);
    case Free(slot) =>
      DeallocateKeeps(p, slot);
      DeallocateIs(p, slot);
    case Write(slot, at, len, after) => WriteKeeps(p, slot, at, len, after);
  }

  lemma {:induction false} DeallocateIs(p: Pool, slot: Addr)
    ensures Deallocate(p, slot).slotSize == p.slotSize
  {}

  ghost predicate Legal(p: Pool, calls: seq<Call>)
    requires WORD <= p.slotSize <= MAX_SLOT_SIZE
    decreases |calls|
  {
    calls == [] ||
    (Allowed(p, calls[0]) &&
     (Next(p, calls[0]).Some? && Next(p, calls[0]).value.slotSize == p.slotSize ==>
        Legal(Next(p, calls[0]).value, calls[1..])))
  }

  ghost function Run(p: Pool, calls: seq<Call>): Option<Pool>
    requires WORD <= p.slotSize <= MAX_SLOT_SIZE
    decreases |calls|
  {
    if calls == [] then Some(p)
    else
      match Next(p, calls[0])
      case None => None
      case Some(q) => if q.slotSize == p.slotSize then Run(q, calls[1..]) else None
  }

  lemma {:induction false} RunKeeps(p: Pool, calls: seq<Call>)
    requires Inv(p) && WORD <= p.slotSize <= MAX_SLOT_SIZE && Legal(p, calls)
    ensures Run(p, calls).Some? && Inv(Run(p, calls).value)
    decreases |calls|
  {
    hide Inv, Next;
    if calls != [] {
      StepKeeps(p, calls[0]);
      RunKeeps(Next(p, calls[0]).value, calls[1..]);
    }
  }

  lemma {:induction false} InitInv(slotSize: nat)
    requires 0 < slotSize <= MAX_SLOT_SIZE && slotSize % WORD == 0
    ensures Inv(Init(slotSize))
  {}

  /** Over every run of allocations, frees and writes: the slots in use are apart from each
      other and from the free ones, aligned, inside a block and behind its header; and the
      block list still leads to every block. */
  lemma {:induction false} SlotsSafe(slotSize: nat, calls: seq<Call>)
    requires 0 < slotSize <= MAX_SLOT_SIZE && slotSize % WORD == 0 && Legal(Init(slotSize), calls)
    ensures Run(Init(slotSize), calls).Some?
    ensures var p := Run(Init(slotSize), calls).value;
      && p.slotSize == slotSize
      && (forall a, b | a in p.live && b in p.live && a != b :: Disjoint(a, slotSize, b, slotSize))
      && (forall a, b | a in p.live && b in p.free :: Disjoint(a, slotSize, b, slotSize))
      && (forall a | a in p.live :: exists b :: b in p.blocks && InBlock(slotSize, b, a))
      && Linked(p.store, p.firstBlock, p.blocks)
  {
    InitInv(slotSize);
    RunKeeps(Init(slotSize), calls);
    SizeKept(Init(slotSize), calls);
    var p := Run(Init(slotSize), calls).value;
    forall a | a in p.live || a in p.free ensures a % slotSize == 0 && Slot(p, a) {
      assert Slot(p, a);
    }
    forall a, b | a in p.live && (b in p.live || b in p.free) && a != b ensures Disjoint(a, slotSize, b, slotSize) {
      MultiplesApart(slotSize, a, b);
    }
  }

  // ----- what is in a slot stays in it -----

  /** The call is not the owner's: it neither frees nor writes the slot. */
  ghost predicate Foreign(c: Call, slot: Addr) {
    match c case Alloc(_) => true case Free(s) => s != slot case Write(s, _, _, _) => s != slot
  }

  /** Every word of the slot is in `after` as it is in `store`. */
  ghost predicate SameWords(store: map<Addr, Addr>, after: map<Addr, Addr>, slot: Addr, size: nat) {
    forall w | w in store && slot <= w && w + WORD <= slot + size :: w in after && after[w] == store[w]
  }

  lemma {:induction false} ForeignStep(p: Pool, c: Call, slot: Addr)
    requires Inv(p) && Allowed(p, c) && slot in p.live && Foreign(c, slot)
    ensures Next(p, c).Some? && slot in Next(p, c).value.live
    ensures SameWords(p.store, Next(p, c).value.store, slot, p.slotSize)
  {
    hide Linked, Carving, NoDup, BlocksApart;
    StepKeeps(p, c);
    assert Slot(p, slot);
    var b :| b in p.blocks && InBlock(p.slotSize, b, slot);
    if !c.Alloc? {
      assert Slot(p, c.slot);
      MultiplesApart(p.slotSize, slot, c.slot);
    }
  }

  /** Whatever is allocated, freed and written elsewhere: neither the lists of the allocator nor
      other owners touch a word of a slot in use. */
  lemma {:induction false} ContentsKept(p: Pool, calls: seq<Call>, slot: Addr)
    requires Inv(p) && WORD <= p.slotSize <= MAX_SLOT_SIZE && Legal(p, calls) && slot in p.live
    requires forall i | 0 <= i < |calls| :: Foreign(calls[i], slot)
    ensures Run(p, calls).Some? && slot in Run(p, calls).value.live
    ensures SameWords(p.store, Run(p, calls).value.store, slot, p.slotSize)
    decreases |calls|
  {
    hide Inv, Next, Allowed, Foreign;
    if calls != [] {
      StepKeeps(p, calls[0]);
      ForeignStep(p, calls[0], slot);
      ContentsKept(Next(p, calls[0]).value, calls[1..], slot);
    }
  }

  lemma {:induction false} SizeKept(p: Pool, calls: seq<Call>)
    requires WORD <= p.slotSize <= MAX_SLOT_SIZE && Run(p, calls).Some?
    ensures Run(p, calls).value.slotSize == p.slotSize
    decreases |calls|
  {
    if calls != [] { SizeKept(Next(p, calls[0]).value, calls[1..]); }
  }

  // ----- the size classes -----

  /** The pool that useMemory and freeMemory pick for a size up to MAX_SLOT_SIZE. */
  function Bucket(size: nat): int { (size + 7) / SLOT_BASE_SIZE - 1 }

  /** The slot size that initMemoryPools gives to pool `i`. */
  function BucketSlot(i: int): int { (i + 1) * SLOT_BASE_SIZE }

  /** The index is that of a pool exactly for sizes 1 to 512, and then the slot is large
      enough and wastes less than 8 bytes. Size 0 indexes before the first pool. */
  lemma {:induction false} BucketExact(size: nat)
    ensures 0 <= Bucket(size) < POOLS <==> 1 <= size <= MAX_SLOT_SIZE
    ensures 1 <= size ==> size <= BucketSlot(Bucket(size)) < size + 8
    ensures size == 0 ==> Bucket(size) == -1
  {}

  /** A new block has room for a slot of every pool. */
  lemma {:induction false} BlockHoldsSlot(i: nat, base: Addr)
    requires i < POOLS
    ensures var s := BucketSlot(i); var body := base + WORD;
      InBlock(s, base, body + Padding(s, body))
  {
    Aligned(BucketSlot(i), base + WORD);
  }

  // ----- the object -----

  /** MemoryPool over the words of its blocks. */
  class MemoryPool {
    const slotSize: nat
    var firstBlock: Addr
    var freeList: Addr
    var curSlot: Addr
    var lastSlot: Addr
    var store: map<Addr, Addr>
    ghost var blocks: seq<Addr>
    ghost var free: seq<Addr>
    ghost var live: set<Addr>

    ghost function Abs(): Pool
      reads this
    {
      Pool(slotSize, firstBlock, freeList, curSlot, lastSlot, store, blocks, free, live)
    }

    constructor (size: nat)
      requires 0 < size <= MAX_SLOT_SIZE && size % WORD == 0
      ensures Abs() == Init(size) && Inv(Abs())
    {
      slotSize := if size < WORD then WORD else size;
      firstBlock, freeList, curSlot, lastSlot := NULL, NULL, NULL, NULL;
      store := map[];
      blocks, free, live := [], [], {};
    }

    method AllocateNewBlock(base: Addr)
      requires 0 < slotSize <= BLOCK_SIZE
      modifies this
      ensures Abs() == NewBlock(old(Abs()), base)
    {
      store := store[base := firstBlock];
      firstBlock := base;
      blocks := [base] + blocks;
      var body := base + WORD;
      curSlot := body + (slotSize - body % slotSize) % slotSize;
      lastSlot := base + BLOCK_SIZE - slotSize + 1;
      freeList, free := NULL, [];
    }

    method AllocateSlot(base: Addr) returns (slot: Addr)
      requires Inv(Abs()) && ClearOf(Abs(), base)
      modifies this
      ensures Inv(Abs()) && Allocate(old(Abs()), base) == Some((Abs(), slot))
      ensures slot !in old(live) && live == old(live) + {slot}
    {
      AllocateKeeps(Abs(), base);
      if freeList != NULL {
        slot := freeList;
        freeList := store[freeList];
        free := free[1..];
      } else {
        if curSlot >= lastSlot {
          AllocateNewBlock(base);
        }
        slot := curSlot;
        curSlot := curSlot + slotSize;
      }
      live := live + {slot};
    }

    method DeallocateSlot(slot: Addr)
      requires Inv(Abs()) && slot in live
      modifies this
      ensures Inv(Abs()) && Abs() == Deallocate(old(Abs()), slot)
    {
      DeallocateKeeps(Abs(), slot);
      store := store[slot := freeList];
      freeList := slot;
      free := [slot] + free;
      live := live - {slot};
    }

    /** The destructor's walk: every block is released, once, from the newest. */
    method ReleaseAll() returns (released: seq<Addr>)
      requires Inv(Abs())
      ensures released == blocks
    {
      released := [];
      var cur := firstBlock;
      while cur != NULL
        invariant |released| <= |blocks| && released == blocks[..|released|]
        invariant Linked(store, cur, blocks[|released|..])
        decreases |blocks| - |released|
      {
        assert blocks[|released|..][1..] == blocks[|released| + 1..];
        released := released + [cur];
        cur := store[cur];
      }
    }
  }
}
