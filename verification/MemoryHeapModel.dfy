/**
 HashBucket: 64 pools with slots of 8, 16, …, 512 bytes; larger requests go to the system.
 `held` records what callers hold: the address and the size they asked for.
 */
module MemoryHeapModel {
  import opened SlotPadding
  import opened MemoryPoolModel

  const POOLS := 64

  datatype Heap = Heap(pools: seq<Pool>, held: map<nat, nat>)

  datatype Request = Use(size: nat, addr: nat) | Release(ptr: nat, size: nat)

  /** initMemoryPool */
  function Start(): Heap {
    Heap(seq(POOLS, (i: nat) => Init((i + 1) * WORD)), map[])
  }

  /** ((size + 7) / SLOT_BASE_SIZE) - 1 */
  function ClassOf(size: nat): int {
    (size + 7) / WORD - 1
  }

  /** A request gets the smallest class that holds it, and every class size is served. */
  lemma ClassFits(size: nat)
    requires 0 < size <= MAX_SLOT
    ensures 0 <= ClassOf(size) < POOLS
    ensures ClassOf(size) * WORD < size <= (ClassOf(size) + 1) * WORD
  {
  }

  predicate Small(size: nat) {
    0 < size <= MAX_SLOT
  }

  predicate Shape(h: Heap) {
    |h.pools| == POOLS && forall i :: 0 <= i < POOLS ==> h.pools[i].slot == (i + 1) * WORD
  }

  // ---------------------------------------------------------------- operations

  /** useMemory; `addr` is what operator new returns if it is called. */
  function Apply(h: Heap, r: Request): Heap
    requires Shape(h) && Legal(h, r)
  {
    match r
    case Use(size, addr) =>
      if size == 0 then h
      else if size > MAX_SLOT then h.(held := h.held[addr := size])
      else
        var i := ClassOf(size);
        Heap(h.pools[i := Allocate(h.pools[i], addr)], h.held[Used(h, size, addr) := size])
    case Release(ptr, size) =>
      if ptr == 0 then h
      else if size > MAX_SLOT then h.(held := h.held - {ptr})
      else
        var i := ClassOf(size);
        Heap(h.pools[i := Deallocate(h.pools[i], ptr)], h.held - {ptr})
  }

  function Used(h: Heap, size: nat, addr: nat): nat
    requires Shape(h)
  {
    if size == 0 then 0
    else if size > MAX_SLOT then addr
    else Allocated(h.pools[ClassOf(size)], addr)
  }

  /** The system hands out unused memory; callers free with a size of the class they asked for. */
  ghost predicate Legal(h: Heap, r: Request)
    requires Shape(h)
  {
    match r
    case Use(size, addr) =>
      if size == 0 then true
      else if size > MAX_SLOT then addr > 0 && Unused(h, addr, size)
      else Opens(h.pools[ClassOf(size)]) ==> BlockAddress(addr) && Unused(h, addr, BLOCK)
    case Release(ptr, size) => ptr == 0 || (ptr in h.held && SameClass(h.held[ptr], size))
  }

  predicate SameClass(m: nat, n: nat) {
    (Small(m) && Small(n) && ClassOf(m) == ClassOf(n)) || (m > MAX_SLOT && n > MAX_SLOT)
  }

  /** The range meets neither a block of a pool nor a large allocation. */
  ghost predicate Unused(h: Heap, b: nat, n: nat) {
    && (forall i, j :: 0 <= i < |h.pools| && 0 <= j < |h.pools[i].blocks| ==>
          Apart(b, n, h.pools[i].blocks[j], BLOCK))
    && (forall a: nat :: a in h.held && h.held[a] > MAX_SLOT ==> Apart(b, n, a, h.held[a]))
  }

  // ---------------------------------------------------------------- invariant

  ghost predicate PoolsInv(h: Heap) {
    forall i :: 0 <= i < |h.pools| ==> Inv(h.pools[i])
  }

  /** Blocks of different pools are different memory. */
  ghost predicate PoolsApart(h: Heap) {
    forall i, k, j, l ::
      0 <= i < |h.pools| && 0 <= k < |h.pools| && i != k && 0 <= j < |h.pools[i].blocks| && 0 <= l < |h.pools[k].blocks| ==>
        Apart(h.pools[i].blocks[j], BLOCK, h.pools[k].blocks[l], BLOCK)
  }

  ghost predicate LargeApart(h: Heap) {
    && (forall a: nat, i, j :: a in h.held && h.held[a] > MAX_SLOT && 0 <= i < |h.pools| && 0 <= j < |h.pools[i].blocks| ==>
          Apart(a, h.held[a], h.pools[i].blocks[j], BLOCK))
    && (forall a: nat, c: nat :: a in h.held && c in h.held && a != c && h.held[a] > MAX_SLOT && h.held[c] > MAX_SLOT ==>
          Apart(a, h.held[a], c, h.held[c]))
  }

  /** A pool's live slots are what callers hold of its class. */
  ghost predicate Ledger(h: Heap) {
    && (forall a: nat :: a in h.held ==> a > 0 && h.held[a] > 0)
    && (forall i, a: nat :: 0 <= i < |h.pools| ==>
          (a in h.pools[i].live <==> a in h.held && Small(h.held[a]) && ClassOf(h.held[a]) == i))
  }

  ghost predicate HeapInv(h: Heap) {
    Shape(h) && PoolsInv(h) && PoolsApart(h) && LargeApart(h) && Ledger(h)
  }

  lemma StartInv()
    ensures HeapInv(Start())
  {
    var h := Start();
    forall i | 0 <= i < POOLS ensures h.pools[i] == Init((i + 1) * WORD) && Inv(h.pools[i]) {
      InitInv((i + 1) * WORD);
    }
    assert Shape(h) && PoolsInv(h);
    NoBlocksApart(h);
  }

  /** Pools without blocks, and nothing held. */
  lemma NoBlocksApart(h: Heap)
    requires h.held == map[] && forall i :: 0 <= i < |h.pools| ==> h.pools[i].blocks == [] && h.pools[i].live == {}
    ensures PoolsApart(h) && LargeApart(h) && Ledger(h)
  {
  }

  // ---------------------------------------------------------------- what callers hold

  /** Where a held allocation lies: in a block of its class, or in memory of its own. */
  lemma HeldPlace(h: Heap, a: nat) returns (j: nat)
    requires HeapInv(h) && a in h.held && Small(h.held[a])
    ensures ClassOf(h.held[a]) < POOLS
    ensures
      var p := h.pools[ClassOf(h.held[a])];
      && a in p.live && Carved(p, a) && h.held[a] <= p.slot
      && j < |p.blocks| && p.blocks[j] + WORD <= a && a + p.slot <= p.blocks[j] + BLOCK
  {
    ClassFits(h.held[a]);
    var p := h.pools[ClassOf(h.held[a])];
    HeldCarved(p, a);
    j := CarvedPlace(p, a);
  }

  lemma SmallApart(h: Heap, a: nat, c: nat)
    requires HeapInv(h) && a in h.held && c in h.held && a != c && Small(h.held[a]) && Small(h.held[c])
    ensures Apart(a, h.held[a], c, h.held[c])
  {
    var j := HeldPlace(h, a);
    var l := HeldPlace(h, c);
    var i, k := ClassOf(h.held[a]), ClassOf(h.held[c]);
    if i == k {
      CarvedApart(h.pools[i], a, c);
    } else {
      assert Apart(h.pools[i].blocks[j], BLOCK, h.pools[k].blocks[l], BLOCK);
    }
  }

  lemma SmallAndLarge(h: Heap, a: nat, c: nat)
    requires HeapInv(h) && a in h.held && c in h.held && Small(h.held[a]) && h.held[c] > MAX_SLOT
    ensures Apart(a, h.held[a], c, h.held[c])
  {
    var j := HeldPlace(h, a);
    assert Apart(c, h.held[c], h.pools[ClassOf(h.held[a])].blocks[j], BLOCK);
  }

  /** Any two things that callers hold are disjoint, for the full size that was asked for. */
  lemma HeldApart(h: Heap, a: nat, c: nat)
    requires HeapInv(h) && a in h.held && c in h.held && a != c
    ensures Apart(a, h.held[a], c, h.held[c])
  {
    if Small(h.held[a]) && Small(h.held[c]) {
      SmallApart(h, a, c);
    } else if Small(h.held[a]) {
      SmallAndLarge(h, a, c);
    } else if Small(h.held[c]) {
      SmallAndLarge(h, c, a);
    }
  }

  // ---------------------------------------------------------------- every request keeps it

  predicate InBlock(p: Pool, j: nat, x: nat) {
    j < |p.blocks| && p.blocks[j] + WORD <= x && x + p.slot <= p.blocks[j] + BLOCK
  }

  /** A free place in a block of one pool is not held under another class. */
  lemma NotHeldElsewhere(h: Heap, i: nat, j: nat, x: nat)
    requires HeapInv(h) && i < POOLS && InBlock(h.pools[i], j, x) && x !in h.pools[i].live
    ensures x !in h.held
  {
    if x in h.held && Small(h.held[x]) {
      var l := HeldPlace(h, x);
    }
  }

  function Opened(h: Heap, i: nat, b: nat): Heap
    requires i < |h.pools| && h.pools[i].slot > 0
  {
    h.(pools := h.pools[i := NewBlock(h.pools[i], b)])
  }

  lemma OpenKeeps(h: Heap, i: nat, b: nat)
    requires HeapInv(h) && i < POOLS && Opens(h.pools[i]) && BlockAddress(b) && Unused(h, b, BLOCK)
    ensures HeapInv(Opened(h, i, b))
  {
    NewBlockKeeps(h.pools[i], b);
    OpenApart(h, i, b);
    OpenLarge(h, i, b);
  }

  lemma OpenLarge(h: Heap, i: nat, b: nat)
    requires HeapInv(h) && i < POOLS && Unused(h, b, BLOCK)
    ensures LargeApart(Opened(h, i, b))
  {
    var g := Opened(h, i, b);
    forall a: nat, k, l |
      a in g.held && g.held[a] > MAX_SLOT && 0 <= k < |g.pools| && 0 <= l < |g.pools[k].blocks|
      ensures Apart(a, g.held[a], g.pools[k].blocks[l], BLOCK)
    {
      OpenBlock(h, i, b, k, l);
    }
  }

  lemma OpenApart(h: Heap, i: nat, b: nat)
    requires HeapInv(h) && i < POOLS && Unused(h, b, BLOCK)
    ensures PoolsApart(Opened(h, i, b))
  {
    var g := Opened(h, i, b);
    forall k, m, j, l |
      0 <= k < |g.pools| && 0 <= m < |g.pools| && k != m && 0 <= j < |g.pools[k].blocks| && 0 <= l < |g.pools[m].blocks|
      ensures Apart(g.pools[k].blocks[j], BLOCK, g.pools[m].blocks[l], BLOCK)
    {
      OpenBlock(h, i, b, k, j);
      OpenBlock(h, i, b, m, l);
    }
  }

  /** A block of the opened heap is the new one or one from before. */
  lemma OpenBlock(h: Heap, i: nat, b: nat, k: nat, j: nat)
    requires Shape(h) && i < POOLS && k < POOLS && j < |Opened(h, i, b).pools[k].blocks|
    ensures
      var x := Opened(h, i, b).pools[k].blocks[j];
      || (k == i && x == b)
      || (exists l :: 0 <= l < |h.pools[k].blocks| && h.pools[k].blocks[l] == x)
  {
    var x := Opened(h, i, b).pools[k].blocks[j];
    if k == i && j > 0 {
      assert x == h.pools[i].blocks[j - 1];
    } else if k != i {
      assert h.pools[k].blocks[j] == x;
    }
  }

  /** One pool moves on with its blocks unchanged; `held` follows its live slots. */
  ghost predicate Moves(h: Heap, i: nat, q: Pool, x: nat) {
    i < |h.pools| && q.slot == h.pools[i].slot && q.blocks == h.pools[i].blocks && Inv(q) && x > 0
  }

  lemma MoveApart(h: Heap, g: Heap, i: nat, q: Pool, x: nat)
    requires HeapInv(h) && Moves(h, i, q, x) && g.pools == h.pools[i := q]
    ensures Shape(g) && PoolsInv(g) && PoolsApart(g)
    ensures forall k :: 0 <= k < POOLS ==> g.pools[k].blocks == h.pools[k].blocks
  {
  }

  lemma IssueKeeps(h: Heap, i: nat, q: Pool, x: nat, size: nat)
    requires HeapInv(h) && Moves(h, i, q, x) && Small(size) && ClassOf(size) == i
    requires q.live == h.pools[i].live + {x} && x !in h.held
    ensures HeapInv(Heap(h.pools[i := q], h.held[x := size]))
  {
    var g := Heap(h.pools[i := q], h.held[x := size]);
    MoveApart(h, g, i, q, x);
    assert LargeApart(g);
    assert Ledger(g);
  }

  lemma ReturnKeeps(h: Heap, i: nat, q: Pool, x: nat)
    requires HeapInv(h) && Moves(h, i, q, x) && x in h.held && Small(h.held[x]) && ClassOf(h.held[x]) == i
    requires q.live == h.pools[i].live - {x}
    ensures HeapInv(Heap(h.pools[i := q], h.held - {x}))
  {
    var g := Heap(h.pools[i := q], h.held - {x});
    MoveApart(h, g, i, q, x);
    assert LargeApart(g);
    assert Ledger(g);
  }

  /** Unused memory is not held already. */
  lemma UnusedNotHeld(h: Heap, addr: nat, size: nat)
    requires HeapInv(h) && size > MAX_SLOT && Unused(h, addr, size)
    ensures addr !in h.held
  {
    if addr in h.held && Small(h.held[addr]) {
      var j := HeldPlace(h, addr);
    }
  }

  lemma LargeLedger(h: Heap, size: nat, addr: nat)
    requires Ledger(h) && size > MAX_SLOT && addr > 0 && addr !in h.held
    ensures Ledger(h.(held := h.held[addr := size]))
  {
  }

  lemma LargeStaysApart(h: Heap, size: nat, addr: nat)
    requires LargeApart(h) && size > MAX_SLOT && Unused(h, addr, size)
    ensures LargeApart(h.(held := h.held[addr := size]))
  {
  }

  lemma LargeKeeps(h: Heap, size: nat, addr: nat)
    requires HeapInv(h) && size > MAX_SLOT && Legal(h, Use(size, addr))
    ensures HeapInv(Apply(h, Use(size, addr))) && addr !in h.held
  {
    UnusedNotHeld(h, addr, size);
    LargeLedger(h, size, addr);
    LargeStaysApart(h, size, addr);
  }

  lemma SmallKeeps(h: Heap, size: nat, addr: nat)
    requires HeapInv(h) && Small(size) && Legal(h, Use(size, addr))
    ensures HeapInv(Apply(h, Use(size, addr)))
    ensures Used(h, size, addr) > 0 && Used(h, size, addr) !in h.held
  {
    ClassFits(size);
    var i := ClassOf(size);
    var p := h.pools[i];
    var q, x := Allocate(p, addr), Allocated(p, addr);
    AllocateKeeps(p, addr);
    var j := CarvedPlace(q, x);
    if Opens(p) {
      OpenKeeps(h, i, addr);
      var o := Opened(h, i, addr);
      NotHeldElsewhere(o, i, j, x);
      assert Moves(o, i, q, x);
      IssueKeeps(o, i, q, x, size);
      assert o.pools[i := q] == h.pools[i := q];
    } else {
      NotHeldElsewhere(h, i, j, x);
      IssueKeeps(h, i, q, x, size);
    }
  }

  lemma ReleaseKeeps(h: Heap, ptr: nat, size: nat)
    requires HeapInv(h) && Legal(h, Release(ptr, size))
    ensures HeapInv(Apply(h, Release(ptr, size)))
  {
    if ptr != 0 && Small(size) {
      var i := ClassOf(size);
      PushKeeps(h.pools[i], ptr);
      ReturnKeeps(h, i, Deallocate(h.pools[i], ptr), ptr);
    }
  }

  lemma HeapStep(h: Heap, r: Request)
    requires HeapInv(h) && Legal(h, r)
    ensures HeapInv(Apply(h, r))
  {
    match r
    case Use(size, addr) =>
      if Small(size) {
        SmallKeeps(h, size, addr);
      } else if size > MAX_SLOT {
        LargeKeeps(h, size, addr);
      }
    case Release(ptr, size) => ReleaseKeeps(h, ptr, size);
  }

  /** What a request returns: null for no bytes, else memory that nobody holds a byte of. */
  lemma UseGivesUnused(h: Heap, size: nat, addr: nat, c: nat)
    requires HeapInv(h) && Legal(h, Use(size, addr))
    ensures size > 0 ==> Apply(h, Use(size, addr)).held == h.held[Used(h, size, addr) := size]
    ensures size > 0 && c in h.held ==> Apart(Used(h, size, addr), size, c, h.held[c])
    ensures Used(h, size, addr) == 0 <==> size == 0
  {
    var g := Apply(h, Use(size, addr));
    HeapStep(h, Use(size, addr));
    if Small(size) {
      SmallKeeps(h, size, addr);
    } else if size > 0 {
      LargeKeeps(h, size, addr);
    }
    if size > 0 && c in h.held {
      HeldApart(g, Used(h, size, addr), c);
    }
  }

  // ---------------------------------------------------------------- memory comes back

  /** Freeing ends the caller's hold on that allocation and on no other. */
  lemma ReleaseEndsHold(h: Heap, ptr: nat, size: nat)
    requires HeapInv(h) && Legal(h, Release(ptr, size)) && ptr != 0
    ensures var g := Apply(h, Release(ptr, size)); ptr !in g.held && g.held[ptr := h.held[ptr]] == h.held
  {
  }

  /** A slot that is freed is the next one of its class: a request for any size of that class gets
      it back, without asking the system, and puts the pools back as they were. */
  lemma FreedComesBack(h: Heap, ptr: nat, size: nat, size': nat, addr: nat)
    requires HeapInv(h) && Legal(h, Release(ptr, size)) && ptr != 0
    requires Small(size) && Small(size') && ClassOf(size') == ClassOf(size)
    ensures
      var g := Apply(h, Release(ptr, size));
      && Shape(g) && Legal(g, Use(size', addr)) && Used(g, size', addr) == ptr
      && Apply(g, Use(size', addr)) == h.(held := h.held[ptr := size'])
  {
    ReleaseEndsHold(h, ptr, size);
    HeapStep(h, Release(ptr, size));
    var i, g := ClassOf(size), Apply(h, Release(ptr, size));
    FreeThenAllocate(h.pools[i], ptr, addr);
    assert g.pools[i].free[0] == ptr && g.pools[i := h.pools[i]] == h.pools;
    assert g.held[ptr := size'] == h.held[ptr := size'];
  }

  /** The request has nothing to do with the class `c`. */
  predicate Elsewhere(r: Request, c: int) {
    match r
    case Use(size, _) => !Small(size) || ClassOf(size) != c
    case Release(ptr, size) => ptr == 0 || size > MAX_SLOT || ClassOf(size) != c
  }

  lemma ElsewhereKeeps(h: Heap, r: Request, c: nat)
    requires Shape(h) && Legal(h, r) && Elsewhere(r, c) && c < POOLS
    ensures Apply(h, r).pools[c] == h.pools[c]
  {
  }

  // ---------------------------------------------------------------- histories

  ghost predicate StepAt(hs: seq<Heap>, rs: seq<Request>, i: nat)
    requires |hs| == |rs| + 1 && i < |rs|
  {
    Shape(hs[i]) && Legal(hs[i], rs[i]) && hs[i + 1] == Apply(hs[i], rs[i])
  }

  ghost predicate IsRun(hs: seq<Heap>, rs: seq<Request>) {
    && |hs| == |rs| + 1
    && hs[0] == Start()
    && (forall i :: 0 <= i < |rs| ==> StepAt(hs, rs, i))
  }

  lemma {:induction false} HeapInvInRun(hs: seq<Heap>, rs: seq<Request>, k: nat)
    requires IsRun(hs, rs) && k < |hs|
    ensures HeapInv(hs[k])
  {
    if k == 0 {
      StartInv();
    } else {
      HeapInvInRun(hs, rs, k - 1);
      assert StepAt(hs, rs, k - 1);
      HeapStep(hs[k - 1], rs[k - 1]);
    }
  }

  /** In every history of requests, no two things that callers hold share a byte. */
  lemma NothingSharedInRun(hs: seq<Heap>, rs: seq<Request>, k: nat, a: nat, c: nat)
    requires IsRun(hs, rs) && k < |hs| && a in hs[k].held && c in hs[k].held && a != c
    ensures Apart(a, hs[k].held[a], c, hs[k].held[c])
  {
    HeapInvInRun(hs, rs, k);
    HeldApart(hs[k], a, c);
  }
}
