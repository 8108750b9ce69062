/** Which slot an allocation gives: freed ones first, then the newest block, then a new block;
    and that no slot is ever lost. */
module SlotReuse {
  import opened Basics
  import opened SlotPool

  /** A freed slot is the next to be given, and the pool is then as it was. */
  lemma {:induction false} FreedIsNext(p: Pool, slot: Addr, base: Addr)
    requires Inv(p) && slot in p.live
    ensures var r := Allocate(Deallocate(p, slot), base);
      && r.Some? && r.value.1 == slot
      && r.value.0.live == p.live && r.value.0.free == p.free && r.value.0.freeList == p.freeList
      && r.value.0.blocks == p.blocks && r.value.0.cur == p.cur
  {
    DeallocateKeeps(p, slot);
    assert Slot(p, slot);
    var b :| b in p.blocks && InBlock(p.slotSize, b, slot);
    assert slot > 0;
    assert ([slot] + p.free)[1..] == p.free;
    assert p.live - {slot} + {slot} == p.live;
  }

  /** The slots of a block that were given at least once. */
  ghost predicate Carved(p: Pool, b: Addr, a: Addr)
    requires p.slotSize > 0
  {
    b in p.blocks && InBlock(p.slotSize, b, a) && (b == p.blocks[0] ==> a < p.cur)
  }

  /** Each of them is in use or free. */
  ghost predicate Accounted(p: Pool)
    requires p.slotSize > 0
  {
    forall b, a | Carved(p, b, a) :: a in p.live || a in p.free
  }

  /** The newest block has no slot left. */
  ghost predicate Spent(p: Pool) { p.blocks == [] || p.cur + p.slotSize > p.blocks[0] + BLOCK_SIZE }

  lemma {:induction false} SpentExact(p: Pool)
    requires Inv(p)
    ensures Spent(p) <==> p.cur >= p.last
  {}

  /** The first slot of a new block. */
  lemma {:induction false} FirstOfBlock(s: nat, base: Addr)
    requires WORD <= s <= MAX_SLOT_SIZE
    ensures var first := base + WORD + Padding(s, base + WORD);
      InBlock(s, base, first) && forall a | InBlock(s, base, a) :: first <= a
  {
    var first := base + WORD + Padding(s, base + WORD);
    Aligned(s, base + WORD);
    forall a: Addr | InBlock(s, base, a) ensures first <= a {
      if a != first { MultiplesApart(s, a, first); }
    }
  }

  /** What an allocation gives and takes. */
  lemma {:induction false} AllocateExact(p: Pool, base: Addr)
    requires Inv(p) && ClearOf(p, base)
    ensures Allocate(p, base).Some?
    ensures var (q, slot) := Allocate(p, base).value;
      if p.free != [] then slot == p.free[0] && q.free == p.free[1..] && q.blocks == p.blocks && q.cur == p.cur
      else if !Spent(p) then slot == p.cur && q.cur == p.cur + p.slotSize && q.free == [] && q.blocks == p.blocks
      else
        && q.blocks == [base] + p.blocks && q.free == []
        && InBlock(p.slotSize, base, slot) && (forall a | InBlock(p.slotSize, base, a) :: slot <= a)
        && q.cur == slot + p.slotSize
  {
    AllocateKeeps(p, base);
    SpentExact(p);
    FirstOfBlock(p.slotSize, base);
  }

  // ----- none is lost -----

  lemma {:induction false} SpentMeansCarved(p: Pool, b: Addr, a: Addr)
    requires Inv(p) && Spent(p) && b in p.blocks && InBlock(p.slotSize, b, a)
    ensures Carved(p, b, a)
  {}

  lemma {:induction false} CarveNext(p: Pool, q: Pool, b: Addr, a: Addr)
    requires Inv(p) && p.blocks != [] && q.slotSize == p.slotSize && q.blocks == p.blocks && q.cur == p.cur + p.slotSize
    requires Carved(q, b, a)
    ensures Carved(p, b, a) || a == p.cur
  {
    if a != p.cur { MultiplesApart(p.slotSize, a, p.cur); }
  }

  lemma {:induction false} AllocateAccounts(p: Pool, base: Addr)
    requires Inv(p) && Accounted(p) && ClearOf(p, base)
    ensures Allocate(p, base).Some? && Allocate(p, base).value.0.slotSize == p.slotSize
    ensures Accounted(Allocate(p, base).value.0)
  {
    hide Inv;
    FreeEmpty(p);
    AllocateKeeps(p, base);
    AllocateExact(p, base);
    var (q, slot) := Allocate(p, base).value;
    forall b, a | Carved(q, b, a) ensures a in q.live || a in q.free {
      if p.free != [] {
        assert Carved(p, b, a);
        assert a in p.free ==> a == p.free[0] || a in p.free[1..];
      } else if !Spent(p) {
        CarveNext(p, q, b, a);
      } else if b == base {
        if a != slot { MultiplesApart(p.slotSize, a, slot); }
      } else {
        assert b in p.blocks;
        SpentMeansCarved(p, b, a);
      }
    }
  }

  lemma {:induction false} StepAccounts(p: Pool, c: Call)
    requires Inv(p) && Accounted(p) && Allowed(p, c)
    ensures Next(p, c).Some? && Next(p, c).value.slotSize == p.slotSize && Accounted(Next(p, c).value)
  {
    hide Inv, Allocate;
    FreeEmpty(p);
    StepKeeps(p, c);
    match c
    case Alloc(base) => AllocateAccounts(p, base);
    case Free(slot) => FreeAccounts(p, slot);
    case Write(_, _, _, after) => SameCarved(p, p.(store := after));
  }

  lemma {:induction false} SameCarved(p: Pool, q: Pool)
    requires p.slotSize > 0 && q.slotSize == p.slotSize && q.blocks == p.blocks && q.cur == p.cur
    requires Accounted(p) && forall a | a in p.live || a in p.free :: a in q.live || a in q.free
    ensures Accounted(q)
  {
    forall b, a | Carved(q, b, a) ensures a in q.live || a in q.free {
      assert Carved(p, b, a);
    }
  }

  lemma {:induction false} FreeAccounts(p: Pool, slot: Addr)
    requires p.slotSize > 0 && Accounted(p)
    ensures Accounted(Deallocate(p, slot))
  {
    SameCarved(p, Deallocate(p, slot));
  }

  lemma {:induction false} RunAccounts(p: Pool, calls: seq<Call>)
    requires Inv(p) && WORD <= p.slotSize <= MAX_SLOT_SIZE && Accounted(p) && Legal(p, calls)
    ensures Run(p, calls).Some? && Run(p, calls).value.slotSize == p.slotSize
    ensures Inv(Run(p, calls).value) && Accounted(Run(p, calls).value)
    decreases |calls|
  {
    hide Inv, Next, Accounted;
    if calls != [] {
      StepKeeps(p, calls[0]);
      StepAccounts(p, calls[0]);
      RunAccounts(Next(p, calls[0]).value, calls[1..]);
    }
  }

  /** In every run: no slot is lost, each that was given once is in use or free; and a new block is
      taken exactly when every slot of every block is in use. */
  lemma {:induction false} NoSlotLost(slotSize: nat, calls: seq<Call>, base: Addr)
    requires 0 < slotSize <= MAX_SLOT_SIZE && slotSize % WORD == 0 && Legal(Init(slotSize), calls)
    ensures Run(Init(slotSize), calls).Some? && Run(Init(slotSize), calls).value.slotSize == slotSize
    ensures var p := Run(Init(slotSize), calls).value;
      && Accounted(p)
      && (ClearOf(p, base) ==>
            && Allocate(p, base).Some?
            && (Allocate(p, base).value.0.blocks != p.blocks <==>
                  forall b, a | b in p.blocks && InBlock(slotSize, b, a) :: a in p.live))
  {
    hide Run, Legal;
    InitInv(slotSize);
    assert Accounted(Init(slotSize));
    RunAccounts(Init(slotSize), calls);
    var p := Run(Init(slotSize), calls).value;
    if ClearOf(p, base) { NewBlockExact(p, base); }
  }

  lemma {:induction false} NewBlockExact(p: Pool, base: Addr)
    requires Inv(p) && Accounted(p) && ClearOf(p, base)
    ensures Allocate(p, base).Some?
    ensures Allocate(p, base).value.0.blocks != p.blocks <==>
      forall b, a | b in p.blocks && InBlock(p.slotSize, b, a) :: a in p.live
  {
    AllocateExact(p, base);
    if p.free != [] {
      var a := p.free[0];
      assert a in p.free && Slot(p, a);
    } else if !Spent(p) {
      UncarvedIsIdle(p);
    } else {
      forall b, a | b in p.blocks && InBlock(p.slotSize, b, a) ensures a in p.live {
        SpentMeansCarved(p, b, a);
      }
    }
  }

  /** The next slot of the newest block is not in use. */
  lemma {:induction false} UncarvedIsIdle(p: Pool)
    requires Inv(p) && !Spent(p)
    ensures p.blocks != [] && p.blocks[0] in p.blocks && InBlock(p.slotSize, p.blocks[0], p.cur) && p.cur !in p.live
  {
    SpentExact(p);
    CarveKeeps(p);
  }
}
