/**
 The memory pool over abstract addresses: blocks of 4096 bytes from the system, carved into
 slots of one size, and a list of freed slots that is used first.
 */
module MemoryPoolModel {
  import opened Remainders
  import opened SlotPadding

  /**
   One MemoryPool. `blocks` is the chain from firstBlock_, newest first; `free` is the chain
   from freeList_; `live` are the slots that the callers hold. The null pointer is 0.
   */
  datatype Pool = Pool(slot: nat, blocks: seq<nat>, cur: nat, last: nat, free: seq<nat>, live: set<nat>)

  /** A slot size of one of the 64 classes. */
  predicate ClassSize(slot: nat) {
    WORD <= slot <= MAX_SLOT && slot % WORD == 0
  }

  function Init(slot: nat): Pool {
    Pool(slot, [], 0, 0, [], {})
  }

  // ---------------------------------------------------------------- where slots lie

  function First(slot: nat, b: nat): nat
    requires slot > 0
  {
    b + WORD + PadPointer(b + WORD, slot)
  }

  /** What operator new returns: non-null, aligned to a word, with an address behind its end. */
  predicate BlockAddress(b: nat) {
    b > 0 && b % WORD == 0 && b + BLOCK < TWO64
  }

  predicate Apart(a: nat, m: nat, b: nat, n: nat) {
    a + m <= b || b + n <= a
  }

  /** `a` is one of the slots that block `b` has room for. */
  predicate SlotOf(slot: nat, b: nat, a: nat)
    requires slot > 0
  {
    First(slot, b) <= a && a + slot <= b + BLOCK && (a - First(slot, b)) % slot == 0
  }

  /** `a` has been carved: any slot of an older block, one below `cur` of the newest. */
  ghost predicate Carved(p: Pool, a: nat)
    requires p.slot > 0
  {
    exists i :: 0 <= i < |p.blocks| && CarvedFrom(p, i, a)
  }

  predicate CarvedFrom(p: Pool, i: nat, a: nat)
    requires p.slot > 0 && i < |p.blocks|
  {
    SlotOf(p.slot, p.blocks[i], a) && (i == 0 ==> a < p.cur)
  }

  lemma FirstFits(slot: nat, b: nat)
    requires ClassSize(slot) && BlockAddress(b)
    ensures b + WORD <= First(slot, b) <= b + slot
    ensures First(slot, b) % WORD == 0
    ensures SlotOf(slot, b, First(slot, b))
  {
    PadInWords(b + WORD, slot);
    ModUnique(0, 0, slot, 0);
  }

  /** Every slot lies behind the header and inside the block, on a word boundary. */
  lemma SlotPlace(slot: nat, b: nat, a: nat)
    requires ClassSize(slot) && BlockAddress(b) && SlotOf(slot, b, a)
    ensures b + WORD <= a && a + slot <= b + BLOCK
    ensures a % WORD == 0
  {
    FirstFits(slot, b);
    WordsOf(a - First(slot, b), slot);
    ModPlus(First(slot, b), a - First(slot, b), WORD);
  }

  /** A slot is aligned to its own size exactly when that is a power of two. */
  lemma SlotAligned(slot: nat, b: nat, a: nat)
    requires ClassSize(slot) && BlockAddress(b) && SlotOf(slot, b, a)
    ensures a % slot == 0 <==> b + WORD <= slot || PowerOfTwo(slot)
  {
    var f := First(slot, b);
    PadAligns(b + WORD, slot);
    ModPlus(f, a - f, slot);
  }

  lemma WordsOf(x: nat, slot: nat)
    requires slot > 0 && slot % WORD == 0 && x % slot == 0
    ensures x % WORD == 0
  {
    var q, k := x / slot, slot / WORD;
    assert x == q * slot && slot == WORD * k;
    assert q * (WORD * k) == WORD * (q * k);
  }

  /** Two slots of one block do not overlap. */
  lemma SlotsApart(slot: nat, b: nat, a: nat, c: nat)
    requires slot > 0 && SlotOf(slot, b, a) && SlotOf(slot, b, c) && a != c
    ensures Apart(a, slot, c, slot)
  {
    var f := First(slot, b);
    if a < c {
      ModApart(a - f, c - f, slot);
    } else {
      ModApart(c - f, a - f, slot);
    }
  }

  // ---------------------------------------------------------------- operations

  function NewBlock(p: Pool, b: nat): Pool
    requires p.slot > 0
  {
    p.(blocks := [b] + p.blocks, cur := First(p.slot, b), last := NatSub(b + BLOCK + 1, p.slot), free := [])
  }

  function NatSub(x: nat, y: nat): nat {
    if x >= y then x - y else 0
  }

  /** `curSlot_ += SlotSize_ / sizeof(Slot)` moves by whole words. */
  function Carve(p: Pool): Pool {
    p.(cur := p.cur + p.slot / WORD * WORD, live := p.live + {p.cur})
  }

  function Ready(p: Pool, b: nat): Pool
    requires p.slot > 0
  {
    if p.cur >= p.last then NewBlock(p, b) else p
  }

  /** allocate; `b` is what operator new returns if it is called. */
  function Allocate(p: Pool, b: nat): Pool
    requires p.slot > 0
  {
    if p.free != [] then p.(free := p.free[1..], live := p.live + {p.free[0]}) else Carve(Ready(p, b))
  }

  function Allocated(p: Pool, b: nat): nat
    requires p.slot > 0
  {
    if p.free != [] then p.free[0] else Ready(p, b).cur
  }

  predicate Opens(p: Pool) {
    p.free == [] && p.cur >= p.last
  }

  function Deallocate(p: Pool, a: nat): Pool {
    if a != 0 then p.(free := [a] + p.free, live := p.live - {a}) else p
  }

  datatype Event = Alloc(block: nat) | Free(a: nat)

  function Apply(p: Pool, e: Event): Pool
    requires p.slot > 0
  {
    match e
    case Alloc(b) => Allocate(p, b)
    case Free(a) => Deallocate(p, a)
  }

  /** The system returns memory that is not in use; callers free null or what they hold. */
  predicate Legal(p: Pool, e: Event) {
    match e
    case Alloc(b) => Opens(p) ==> BlockAddress(b) && ApartFromBlocks(p, b)
    case Free(a) => a == 0 || a in p.live
  }

  predicate ApartFromBlocks(p: Pool, b: nat) {
    forall i :: 0 <= i < |p.blocks| ==> Apart(b, BLOCK, p.blocks[i], BLOCK)
  }

  // ---------------------------------------------------------------- invariant

  predicate BlocksApart(p: Pool) {
    && (forall i :: 0 <= i < |p.blocks| ==> BlockAddress(p.blocks[i]))
    && (forall i, j :: 0 <= i < j < |p.blocks| ==> Apart(p.blocks[i], BLOCK, p.blocks[j], BLOCK))
  }

  predicate CursorIn(p: Pool) {
    if p.blocks == [] then p.cur == 0 && p.last == 0
    else
      && p.slot > 0
      && First(p.slot, p.blocks[0]) <= p.cur
      && (p.cur - First(p.slot, p.blocks[0])) % p.slot == 0
      && p.last == NatSub(p.blocks[0] + BLOCK + 1, p.slot)
  }

  /** Carved slots are the disjoint union of the live and the free ones. */
  ghost predicate Partition(p: Pool)
    requires p.slot > 0
  {
    forall a: nat :: Held(p, a) == if Carved(p, a) then 1 else 0
  }

  ghost function Held(p: Pool, a: nat): nat {
    multiset(p.live)[a] + multiset(p.free)[a]
  }

  ghost predicate Inv(p: Pool) {
    ClassSize(p.slot) && BlocksApart(p) && CursorIn(p) && Partition(p)
  }

  lemma InitInv(slot: nat)
    requires ClassSize(slot)
    ensures Inv(Init(slot))
  {
  }

  lemma PopKeeps(p: Pool)
    requires Inv(p) && p.free != []
    ensures Inv(p.(free := p.free[1..], live := p.live + {p.free[0]}))
    ensures Carved(p, p.free[0]) && p.free[0] !in p.live
  {
    var x := p.free[0];
    var q := p.(free := p.free[1..], live := p.live + {x});
    assert p.free == [x] + q.free;
    assert Held(p, x) <= 1;
    forall a: nat ensures Held(q, a) == if Carved(q, a) then 1 else 0 {
      assert Held(p, a) == if Carved(p, a) then 1 else 0;
      assert Held(q, a) == Held(p, a);
      SameCarved(p, q, a);
    }
  }

  lemma SameCarved(p: Pool, q: Pool, a: nat)
    requires p.slot > 0 && p.slot == q.slot && p.blocks == q.blocks && p.cur == q.cur
    ensures Carved(p, a) == Carved(q, a)
  {
    if Carved(p, a) {
      var i :| 0 <= i < |p.blocks| && CarvedFrom(p, i, a);
      assert CarvedFrom(q, i, a);
    }
    if Carved(q, a) {
      var i :| 0 <= i < |q.blocks| && CarvedFrom(q, i, a);
      assert CarvedFrom(p, i, a);
    }
  }

  lemma PushKeeps(p: Pool, x: nat)
    requires Inv(p) && (x == 0 || x in p.live)
    ensures Inv(Deallocate(p, x))
  {
    var q := Deallocate(p, x);
    if x != 0 {
      assert Held(p, x) == 1;
      forall a: nat ensures Held(q, a) == if Carved(q, a) then 1 else 0 {
        assert Held(p, a) == if Carved(p, a) then 1 else 0;
        assert Held(q, a) == Held(p, a);
        SameCarved(p, q, a);
      }
    }
  }

  /** An exhausted block has no slot at or past the cursor: opening another wastes nothing. */
  lemma ExhaustedAllCarved(p: Pool, a: nat)
    requires Inv(p) && p.cur >= p.last && p.blocks != [] && SlotOf(p.slot, p.blocks[0], a)
    ensures CarvedFrom(p, 0, a)
  {
  }

  lemma NewBlockCarved(p: Pool, b: nat, a: nat)
    requires Inv(p) && p.cur >= p.last
    ensures Carved(NewBlock(p, b), a) == Carved(p, a)
  {
    var q := NewBlock(p, b);
    if Carved(p, a) {
      var i :| 0 <= i < |p.blocks| && CarvedFrom(p, i, a);
      assert q.blocks[i + 1] == p.blocks[i];
      assert CarvedFrom(q, i + 1, a);
    }
    if Carved(q, a) {
      var i :| 0 <= i < |q.blocks| && CarvedFrom(q, i, a);
      assert i > 0 && q.blocks[i] == p.blocks[i - 1];
      if i == 1 {
        ExhaustedAllCarved(p, a);
      }
      assert CarvedFrom(p, i - 1, a);
    }
  }

  /** Clearing the free list with a new block drops nothing: the list was empty. */
  lemma NewBlockKeeps(p: Pool, b: nat)
    requires Inv(p) && Opens(p) && BlockAddress(b) && ApartFromBlocks(p, b)
    ensures Inv(NewBlock(p, b)) && NewBlock(p, b).free == p.free
    ensures SlotOf(p.slot, b, NewBlock(p, b).cur)
  {
    var q := NewBlock(p, b);
    FirstFits(p.slot, b);
    forall i, j | 0 <= i < j < |q.blocks| ensures Apart(q.blocks[i], BLOCK, q.blocks[j], BLOCK) {
      assert q.blocks[j] == p.blocks[j - 1];
      if i > 0 {
        assert q.blocks[i] == p.blocks[i - 1];
      }
    }
    forall a: nat ensures Held(q, a) == if Carved(q, a) then 1 else 0 {
      assert Held(p, a) == if Carved(p, a) then 1 else 0;
      NewBlockCarved(p, b, a);
    }
  }

  lemma WholeWords(slot: nat)
    requires slot % WORD == 0
    ensures slot / WORD * WORD == slot
  {
  }

  /** Below the moved cursor lie the slots below the old one and the slot at the old one. */
  lemma CarveCarved(p: Pool, a: nat)
    requires Inv(p) && p.blocks != [] && SlotOf(p.slot, p.blocks[0], p.cur)
    ensures Carved(Carve(p), a) == (a == p.cur || Carved(p, a))
  {
    var q := Carve(p);
    WholeWords(p.slot);
    if Carved(q, a) && a != p.cur {
      var i :| 0 <= i < |q.blocks| && CarvedFrom(q, i, a);
      if i == 0 {
        SlotsApart(p.slot, p.blocks[0], a, p.cur);
      }
      assert CarvedFrom(p, i, a);
    }
    if Carved(p, a) {
      var i :| 0 <= i < |p.blocks| && CarvedFrom(p, i, a);
      assert CarvedFrom(q, i, a);
    }
    if a == p.cur {
      assert CarvedFrom(q, 0, a);
    }
  }

  lemma OneBlock(p: Pool, i: nat, j: nat, a: nat)
    requires ClassSize(p.slot) && BlocksApart(p) && i < |p.blocks| && j < |p.blocks|
    requires SlotOf(p.slot, p.blocks[i], a) && SlotOf(p.slot, p.blocks[j], a)
    ensures i == j
  {
    SlotPlace(p.slot, p.blocks[i], a);
    SlotPlace(p.slot, p.blocks[j], a);
  }

  /** The slot at the cursor has not been handed out before. */
  lemma CursorFree(p: Pool)
    requires Inv(p) && p.blocks != [] && SlotOf(p.slot, p.blocks[0], p.cur)
    ensures !Carved(p, p.cur) && p.cur !in p.live
  {
    if Carved(p, p.cur) {
      var i :| 0 <= i < |p.blocks| && CarvedFrom(p, i, p.cur);
      OneBlock(p, 0, i, p.cur);
    }
    assert Held(p, p.cur) == 0;
  }

  lemma CarveKeeps(p: Pool)
    requires Inv(p) && p.blocks != [] && SlotOf(p.slot, p.blocks[0], p.cur)
    ensures Inv(Carve(p)) && Carved(Carve(p), p.cur) && p.cur !in p.live
  {
    var q := Carve(p);
    CursorFree(p);
    WholeWords(p.slot);
    ModShift(p.cur - First(p.slot, p.blocks[0]), 1, p.slot);
    forall a: nat ensures Held(q, a) == if Carved(q, a) then 1 else 0 {
      assert Held(p, a) == if Carved(p, a) then 1 else 0;
      CarveCarved(p, a);
    }
    CarveCarved(p, p.cur);
  }

  lemma AllocateKeeps(p: Pool, b: nat)
    requires Inv(p) && Legal(p, Alloc(b))
    ensures Inv(Allocate(p, b))
    ensures Carved(Allocate(p, b), Allocated(p, b))
    ensures Allocated(p, b) !in p.live
    ensures Allocate(p, b).live == p.live + {Allocated(p, b)}
  {
    if p.free != [] {
      PopKeeps(p);
      SameCarved(p, Allocate(p, b), p.free[0]);
    } else {
      if p.cur >= p.last {
        NewBlockKeeps(p, b);
      }
      CarveKeeps(Ready(p, b));
    }
  }

  lemma InvStep(p: Pool, e: Event)
    requires Inv(p) && Legal(p, e)
    ensures Inv(Apply(p, e)) && Apply(p, e).slot == p.slot
  {
    match e
    case Alloc(b) => AllocateKeeps(p, b);
    case Free(a) => PushKeeps(p, a);
  }

  // ---------------------------------------------------------------- what the invariant gives

  /** Two carved slots never overlap. */
  lemma CarvedApart(p: Pool, a: nat, c: nat)
    requires Inv(p) && Carved(p, a) && Carved(p, c) && a != c
    ensures Apart(a, p.slot, c, p.slot)
  {
    var i :| 0 <= i < |p.blocks| && CarvedFrom(p, i, a);
    var j :| 0 <= j < |p.blocks| && CarvedFrom(p, j, c);
    if i == j {
      SlotsApart(p.slot, p.blocks[i], a, c);
    } else {
      SlotPlace(p.slot, p.blocks[i], a);
      SlotPlace(p.slot, p.blocks[j], c);
    }
  }

  /** A carved slot lies in one of the blocks and off every block header, on a word boundary. */
  lemma CarvedPlace(p: Pool, a: nat) returns (i: nat)
    requires Inv(p) && Carved(p, a)
    ensures i < |p.blocks| && p.blocks[i] + WORD <= a && a + p.slot <= p.blocks[i] + BLOCK
    ensures a % WORD == 0
    ensures forall j :: 0 <= j < |p.blocks| ==> Apart(a, p.slot, p.blocks[j], WORD)
  {
    i :| 0 <= i < |p.blocks| && CarvedFrom(p, i, a);
    SlotPlace(p.slot, p.blocks[i], a);
    forall j | 0 <= j < |p.blocks| ensures Apart(a, p.slot, p.blocks[j], WORD) {
      assert i == j || Apart(p.blocks[i], BLOCK, p.blocks[j], BLOCK);
    }
  }

  /** The cursor never wraps around: one slot past the end of a block is still an address. */
  lemma CursorNeverWraps(p: Pool)
    requires Inv(p) && p.blocks != [] && p.cur < p.last
    ensures p.cur + p.slot <= p.blocks[0] + BLOCK < TWO64
  {
  }

  lemma HeldCarved(p: Pool, a: nat)
    requires Inv(p) && (a in p.live || a in p.free)
    ensures Carved(p, a) && !(a in p.live && a in p.free)
  {
    assert Held(p, a) >= 1;
  }

  /** A new block is asked for only when every slot of every block is in a caller's hands. */
  lemma OpensOnlyWhenFull(p: Pool, i: nat, a: nat)
    requires Inv(p) && Opens(p) && i < |p.blocks| && SlotOf(p.slot, p.blocks[i], a)
    ensures a in p.live
  {
    if i == 0 {
      ExhaustedAllCarved(p, a);
    }
    assert CarvedFrom(p, i, a);
    assert Carved(p, a);
    assert Held(p, a) == 1;
  }

  /** Freeing and asking again returns the same slot. */
  lemma FreeThenAllocate(p: Pool, a: nat, b: nat)
    requires Inv(p) && a in p.live
    ensures Allocated(Deallocate(p, a), b) == a && Allocate(Deallocate(p, a), b) == p
  {
    HeldCarved(p, a);
    var i := CarvedPlace(p, a);
    assert ([a] + p.free)[1..] == p.free;
    assert p.live - {a} + {a} == p.live;
  }

  // ---------------------------------------------------------------- histories

  ghost predicate StepAt(ss: seq<Pool>, es: seq<Event>, i: nat)
    requires |ss| == |es| + 1 && i < |es|
  {
    ss[i].slot > 0 && Legal(ss[i], es[i]) && ss[i + 1] == Apply(ss[i], es[i])
  }

  ghost predicate IsRun(slot: nat, ss: seq<Pool>, es: seq<Event>) {
    && |ss| == |es| + 1
    && ss[0] == Init(slot)
    && (forall i :: 0 <= i < |es| ==> StepAt(ss, es, i))
  }

  lemma {:induction false} InvInRun(slot: nat, ss: seq<Pool>, es: seq<Event>, k: nat)
    requires ClassSize(slot) && IsRun(slot, ss, es) && k < |ss|
    ensures Inv(ss[k]) && ss[k].slot == slot
  {
    if k == 0 {
      InitInv(slot);
    } else {
      InvInRun(slot, ss, es, k - 1);
      assert StepAt(ss, es, k - 1);
      InvStep(ss[k - 1], es[k - 1]);
    }
  }

  /** In every history, what callers hold is carved once, apart and off the headers. */
  lemma LiveNeverOverlap(slot: nat, ss: seq<Pool>, es: seq<Event>, k: nat, a: nat, c: nat)
    requires ClassSize(slot) && IsRun(slot, ss, es) && k < |ss|
    requires a in ss[k].live && (c in ss[k].live || c in ss[k].free) && (a != c || c in ss[k].free)
    ensures a % WORD == 0 && Apart(a, slot, c, slot)
    ensures forall j :: 0 <= j < |ss[k].blocks| ==> Apart(a, slot, ss[k].blocks[j], WORD)
  {
    InvInRun(slot, ss, es, k);
    HeldCarved(ss[k], a);
    HeldCarved(ss[k], c);
    CarvedApart(ss[k], a, c);
    var i := CarvedPlace(ss[k], a);
  }
}
