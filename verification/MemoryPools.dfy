/**
 MemoryPool and HashBucket with their fields. Both lists are threaded through the memory they
 manage: the first word of a block points to the next block, the first word of a free slot to
 the next free slot.
 */
module MemoryPools {
  import opened SlotPadding
  import M = MemoryPoolModel
  import H = MemoryHeapModel

  /** The words of the process's memory, by address. */
  class Memory {
    var words: map<nat, nat>

    constructor ()
      ensures words == map[]
    {
      words := map[];
    }
  }

  /** The list from `head` through the first words is `s`. */
  ghost predicate Chain(words: map<nat, nat>, head: nat, s: seq<nat>)
    decreases s
  {
    if s == [] then head == 0
    else head == s[0] && head != 0 && head in words && Chain(words, words[head], s[1..])
  }

  /** A list stays what it is when its own words do. */
  lemma {:induction false} ChainSame(words: map<nat, nat>, words': map<nat, nat>, head: nat, s: seq<nat>)
    requires Chain(words, head, s)
    requires forall x | x in s :: x in words && x in words' && words'[x] == words[x]
    ensures Chain(words', head, s)
    decreases s
  {
    if s != [] {
      assert s[0] in s;
      ChainSame(words, words', words[head], s[1..]);
    }
  }

  lemma {:induction false} ChainWords(words: map<nat, nat>, head: nat, s: seq<nat>)
    requires Chain(words, head, s)
    ensures forall x | x in s :: x in words && x > 0
    decreases s
  {
    if s != [] {
      ChainWords(words, words[head], s[1..]);
      assert s == [s[0]] + s[1..];
    }
  }

  /** Storing anywhere but in the list's words. */
  lemma ChainStore(words: map<nat, nat>, head: nat, s: seq<nat>, w: nat, v: nat)
    requires Chain(words, head, s) && w !in s
    ensures Chain(words[w := v], head, s)
  {
    ChainWords(words, head, s);
    ChainSame(words, words[w := v], head, s);
  }

  /** Linking `w` in front of the list. */
  lemma ChainPush(words: map<nat, nat>, head: nat, s: seq<nat>, w: nat)
    requires Chain(words, head, s) && w !in s && w > 0
    ensures Chain(words[w := head], w, [w] + s)
  {
    ChainStore(words, head, s, w, head);
    assert ([w] + s)[1..] == s;
  }

  /** Both lists of a pool. */
  ghost predicate Lists(words: map<nat, nat>, firstBlock: nat, freeList: nat, p: M.Pool) {
    Chain(words, firstBlock, p.blocks) && Chain(words, freeList, p.free)
  }

  /** The words that hold a pool's lists: block headers and free slots, all inside its blocks. */
  lemma ListWords(p: M.Pool, w: nat) returns (j: nat)
    requires M.Inv(p) && (w in p.blocks || w in p.free)
    ensures j < |p.blocks| && p.blocks[j] <= w && w + WORD <= p.blocks[j] + BLOCK
  {
    if w in p.blocks {
      j :| 0 <= j < |p.blocks| && p.blocks[j] == w;
    } else {
      M.HeldCarved(p, w);
      j := M.CarvedPlace(p, w);
    }
  }

  lemma NewBlockLists(words: map<nat, nat>, firstBlock: nat, p: M.Pool, b: nat)
    requires M.Inv(p) && Lists(words, firstBlock, 0, p) && M.Opens(p) && M.Legal(p, M.Alloc(b))
    ensures Lists(words[b := firstBlock], b, 0, M.NewBlock(p, b))
  {
    forall i | 0 <= i < |p.blocks| ensures p.blocks[i] != b {
      assert M.Apart(b, BLOCK, p.blocks[i], BLOCK);
    }
    ChainPush(words, firstBlock, p.blocks, b);
  }

  lemma DeallocateLists(words: map<nat, nat>, firstBlock: nat, freeList: nat, p: M.Pool, a: nat)
    requires M.Inv(p) && Lists(words, firstBlock, freeList, p) && a in p.live
    ensures Lists(words[a := freeList], firstBlock, a, M.Deallocate(p, a))
  {
    M.HeldCarved(p, a);
    var j := M.CarvedPlace(p, a);
    ChainStore(words, firstBlock, p.blocks, a, freeList);
    ChainPush(words, freeList, p.free, a);
  }

  class MemoryPool {
    const mem: Memory
    const slotSize: nat
    var firstBlock: nat
    var curSlot: nat
    var freeList: nat
    var lastSlot: nat

    ghost predicate Shows(p: M.Pool)
      reads this, mem
    {
      p.slot == slotSize && p.cur == curSlot && p.last == lastSlot && Lists(mem.words, firstBlock, freeList, p)
    }

    constructor (mem: Memory, size: nat)
      ensures this.mem == mem && slotSize == size && Shows(M.Init(size))
    {
      this.mem := mem;
      slotSize := size;
      firstBlock, curSlot, freeList, lastSlot := 0, 0, 0, 0;
    }

    /** `newBlock` is what operator new returns. */
    method AllocateNewBlock(newBlock: nat, ghost p: M.Pool)
      requires Shows(p) && M.Inv(p) && M.Opens(p) && M.Legal(p, M.Alloc(newBlock))
      modifies this, mem
      ensures Shows(M.NewBlock(p, newBlock))
      ensures mem.words == old(mem.words)[newBlock := old(firstBlock)]
      ensures freeList == old(freeList)
    {
      NewBlockLists(mem.words, firstBlock, p, newBlock);
      mem.words := mem.words[newBlock := firstBlock];
      firstBlock := newBlock;
      var body := newBlock + WORD;
      var paddingSize := PadPointer(body, slotSize);
      curSlot := body + paddingSize;
      lastSlot := newBlock + BLOCK - slotSize + 1;
      freeList := 0;
    }

    method Allocate(newBlock: nat, ghost p: M.Pool) returns (temp: nat)
      requires Shows(p) && M.Inv(p) && M.Legal(p, M.Alloc(newBlock))
      modifies this, mem
      ensures Shows(M.Allocate(p, newBlock)) && temp == M.Allocated(p, newBlock)
      ensures mem.words == if M.Opens(p) then old(mem.words)[newBlock := old(firstBlock)] else old(mem.words)
    {
      if freeList != 0 {
        temp := freeList;
        freeList := mem.words[freeList];
        return;
      }
      if curSlot >= lastSlot {
        AllocateNewBlock(newBlock, p);
      }
      temp := curSlot;
      curSlot := curSlot + slotSize / WORD * WORD;
    }

    method Deallocate(ptr: nat, ghost p: M.Pool)
      requires Shows(p) && M.Inv(p) && M.Legal(p, M.Free(ptr))
      modifies this, mem
      ensures Shows(M.Deallocate(p, ptr))
      ensures mem.words == if ptr != 0 then old(mem.words)[ptr := old(freeList)] else old(mem.words)
      ensures ptr != 0 ==> freeList == ptr
    {
      if ptr != 0 {
        DeallocateLists(mem.words, firstBlock, freeList, p, ptr);
        mem.words := mem.words[ptr := freeList];
        freeList := ptr;
      }
    }

    /** The destructor: every block goes back to the system once, its next pointer read first. */
    method Destroy(ghost p: M.Pool) returns (released: seq<nat>)
      requires Shows(p) && M.Inv(p)
      modifies mem
      ensures released == p.blocks
    {
      released := [];
      var cur := firstBlock;
      ghost var k := 0;
      while cur != 0
        invariant k <= |p.blocks| && released == p.blocks[..k]
        invariant Chain(mem.words, cur, p.blocks[k..])
        decreases |p.blocks| - k
      {
        var next := mem.words[cur];
        assert p.blocks[k..][1..] == p.blocks[k + 1..];
        ReturnBlock(p, cur, next, k);
        released := released + [cur];
        cur := next;
        k := k + 1;
      }
    }

    /** operator delete: the words of the block are gone. */
    method ReturnBlock(ghost p: M.Pool, b: nat, ghost next: nat, ghost k: nat)
      requires M.Inv(p) && k < |p.blocks| && p.blocks[k] == b && Chain(mem.words, next, p.blocks[k + 1..])
      modifies mem
      ensures Chain(mem.words, next, p.blocks[k + 1..])
    {
      ghost var before, rest := mem.words, p.blocks[k + 1..];
      mem.words := map w | w in mem.words && M.Apart(w, WORD, b, BLOCK) :: mem.words[w];
      ChainWords(before, next, rest);
      forall x | x in rest ensures x in mem.words && mem.words[x] == before[x] {
        var i :| 0 <= i < |rest| && rest[i] == x;
        assert x == p.blocks[k + 1 + i];
        assert M.Apart(p.blocks[k], BLOCK, p.blocks[k + 1 + i], BLOCK);
      }
      ChainSame(before, mem.words, next, rest);
    }
  }

  // ---------------------------------------------------------------- the shared memory

  /** The two memories agree on every word that lies apart from the range. */
  ghost predicate SameOutside(words: map<nat, nat>, words': map<nat, nat>, a: nat, n: nat) {
    forall w | w in words && M.Apart(w, WORD, a, n) :: w in words' && words'[w] == words[w]
  }

  /** A pool whose list words all lie apart from the range that changes keeps its lists. */
  lemma ListsOutside(words: map<nat, nat>, words': map<nat, nat>, a: nat, n: nat, first: nat, free: nat, p: M.Pool)
    requires Lists(words, first, free, p) && SameOutside(words, words', a, n)
    requires forall w: nat | w in p.blocks || w in p.free :: M.Apart(w, WORD, a, n)
    ensures Lists(words', first, free, p)
  {
    ChainWords(words, first, p.blocks);
    ChainWords(words, free, p.free);
    ChainSame(words, words', first, p.blocks);
    ChainSame(words, words', free, p.free);
  }

  /** What callers hold lies apart from every list word of every pool. */
  lemma HeldOffLists(h: H.Heap, k: nat, a: nat, w: nat)
    requires H.HeapInv(h) && k < H.POOLS && a in h.held && (w in h.pools[k].blocks || w in h.pools[k].free)
    ensures M.Apart(w, WORD, a, h.held[a])
  {
    var p := h.pools[k];
    var l := ListWords(p, w);
    if H.Small(h.held[a]) {
      var j := H.HeldPlace(h, a);
      if H.ClassOf(h.held[a]) == k {
        OffOwnLists(p, a, w);
      }
    } else {
      assert M.Apart(a, h.held[a], p.blocks[l], BLOCK);
    }
  }

  lemma OffOwnLists(p: M.Pool, a: nat, w: nat)
    requires M.Inv(p) && a in p.live && (w in p.blocks || w in p.free)
    ensures M.Apart(w, WORD, a, p.slot)
  {
    M.HeldCarved(p, a);
    if w in p.blocks {
      var j := M.CarvedPlace(p, a);
    } else {
      M.HeldCarved(p, w);
      M.CarvedApart(p, a, w);
    }
  }

  /**
   Whatever callers write into memory that they hold, the lists of all 64 pools survive: the
   free list is threaded only through slots that nobody holds.
   */
  lemma CallerWritesKeepLists(words: map<nat, nat>, words': map<nat, nat>, h: H.Heap, a: nat, k: nat, first: nat, free: nat)
    requires H.HeapInv(h) && a in h.held && k < H.POOLS
    requires SameOutside(words, words', a, h.held[a]) && Lists(words, first, free, h.pools[k])
    ensures Lists(words', first, free, h.pools[k])
  {
    forall w: nat | w in h.pools[k].blocks || w in h.pools[k].free ensures M.Apart(w, WORD, a, h.held[a]) {
      HeldOffLists(h, k, a, w);
    }
    ListsOutside(words, words', a, h.held[a], first, free, h.pools[k]);
  }

  /** Opening a block changes a word of unused memory: no other pool notices. */
  lemma OpenKeepsLists(words: map<nat, nat>, h: H.Heap, b: nat, v: nat, k: nat, first: nat, free: nat)
    requires H.HeapInv(h) && k < H.POOLS && H.Unused(h, b, BLOCK) && Lists(words, first, free, h.pools[k])
    ensures Lists(words[b := v], first, free, h.pools[k])
  {
    forall w: nat | w in h.pools[k].blocks || w in h.pools[k].free ensures M.Apart(w, WORD, b, WORD) {
      var l := ListWords(h.pools[k], w);
      assert M.Apart(b, BLOCK, h.pools[k].blocks[l], BLOCK);
    }
    ListsOutside(words, words[b := v], b, WORD, first, free, h.pools[k]);
  }

  /** Freeing writes the first word of a slot that its caller held: no other pool notices. */
  lemma FreeKeepsLists(words: map<nat, nat>, h: H.Heap, a: nat, v: nat, k: nat, first: nat, free: nat)
    requires H.HeapInv(h) && a in h.held && H.Small(h.held[a]) && H.ClassOf(h.held[a]) != k && k < H.POOLS
    requires Lists(words, first, free, h.pools[k])
    ensures Lists(words[a := v], first, free, h.pools[k])
  {
    var j := H.HeldPlace(h, a);
    forall w: nat | w in h.pools[k].blocks || w in h.pools[k].free ensures M.Apart(w, WORD, a, WORD) {
      var l := ListWords(h.pools[k], w);
      assert M.Apart(h.pools[H.ClassOf(h.held[a])].blocks[j], BLOCK, h.pools[k].blocks[l], BLOCK);
    }
    ListsOutside(words, words[a := v], a, WORD, first, free, h.pools[k]);
  }

  class HashBucket {
    const mem: Memory
    const pools: seq<MemoryPool>

    ghost predicate Wired() {
      && |pools| == H.POOLS
      && (forall i :: 0 <= i < |pools| ==> pools[i].mem == mem)
      && (forall i, j :: 0 <= i < j < |pools| ==> pools[i] != pools[j])
    }

    ghost predicate Shows(ps: seq<M.Pool>)
      reads pools, mem
    {
      Wired() && |ps| == H.POOLS && forall i :: 0 <= i < |pools| ==> pools[i].Shows(ps[i])
    }

    /** initMemoryPool */
    constructor (mem: Memory)
      ensures this.mem == mem && fresh(pools) && Shows(H.Start().pools)
    {
      var ps: seq<MemoryPool> := [];
      for i := 0 to H.POOLS
        invariant |ps| == i
        invariant forall k :: 0 <= k < i ==> fresh(ps[k]) && ps[k].mem == mem && ps[k].Shows(H.Start().pools[k])
        invariant forall j, k :: 0 <= j < k < i ==> ps[j] != ps[k]
      {
        var p := new MemoryPool(mem, (i + 1) * WORD);
        ps := ps + [p];
      }
      this.mem := mem;
      pools := ps;
    }

    /** `addr` is what operator new returns if it is called. */
    method UseMemory(size: nat, addr: nat, ghost h: H.Heap) returns (ptr: nat)
      requires Shows(h.pools) && H.HeapInv(h) && H.Legal(h, H.Use(size, addr))
      modifies pools, mem
      ensures Shows(H.Apply(h, H.Use(size, addr)).pools) && ptr == H.Used(h, size, addr)
    {
      if size <= 0 {
        return 0;
      }
      if size > MAX_SLOT {
        return addr;
      }
      ptr := AllocateFrom((size + 7) / WORD - 1, addr, h);
    }

    /** getMemoryPool(i).allocate() */
    method AllocateFrom(i: nat, addr: nat, ghost h: H.Heap) returns (ptr: nat)
      requires Shows(h.pools) && H.HeapInv(h) && i < H.POOLS
      requires M.Opens(h.pools[i]) ==> M.BlockAddress(addr) && H.Unused(h, addr, BLOCK)
      modifies pools, mem
      ensures Shows(h.pools[i := M.Allocate(h.pools[i], addr)]) && ptr == M.Allocated(h.pools[i], addr)
    {
      ghost var p := h.pools[i];
      ghost var before := mem.words;
      ptr := pools[i].Allocate(addr, p);
      forall k | 0 <= k < |pools| && k != i ensures pools[k].Shows(h.pools[k]) {
        assert old(pools[k].Shows(h.pools[k]));
        if M.Opens(p) {
          OpenKeepsLists(before, h, addr, old(pools[i].firstBlock), k, pools[k].firstBlock, pools[k].freeList);
        }
      }
    }

    method FreeMemory(ptr: nat, size: nat, ghost h: H.Heap)
      requires Shows(h.pools) && H.HeapInv(h) && H.Legal(h, H.Release(ptr, size))
      modifies pools, mem
      ensures Shows(H.Apply(h, H.Release(ptr, size)).pools)
      ensures ptr != 0 && H.Small(size) ==>
        pools[H.ClassOf(size)].freeList == ptr && ptr in mem.words && mem.words[ptr] == old(pools[H.ClassOf(size)].freeList)
    {
      if ptr == 0 {
        return;
      }
      if size > MAX_SLOT {
        return;
      }
      DeallocateTo((size + 7) / WORD - 1, ptr, h);
    }

    /** getMemoryPool(i).deallocate(ptr) */
    method DeallocateTo(i: nat, ptr: nat, ghost h: H.Heap)
      requires Shows(h.pools) && H.HeapInv(h) && i < H.POOLS
      requires ptr in h.held && H.Small(h.held[ptr]) && H.ClassOf(h.held[ptr]) == i
      modifies pools, mem
      ensures Shows(h.pools[i := M.Deallocate(h.pools[i], ptr)])
      ensures ptr != 0 ==> pools[i].freeList == ptr && ptr in mem.words && mem.words[ptr] == old(pools[i].freeList)
    {
      ghost var before := mem.words;
      pools[i].Deallocate(ptr, h.pools[i]);
      forall k | 0 <= k < |pools| && k != i ensures pools[k].Shows(h.pools[k]) {
        assert old(pools[k].Shows(h.pools[k]));
        FreeKeepsLists(before, h, ptr, old(pools[i].freeList), k, pools[k].firstBlock, pools[k].freeList);
      }
    }

    /** Callers store what they like into memory that they hold. */
    method CallerWrites(words: map<nat, nat>, ghost a: nat, ghost h: H.Heap)
      requires Shows(h.pools) && H.HeapInv(h) && a in h.held && SameOutside(mem.words, words, a, h.held[a])
      modifies mem
      ensures Shows(h.pools)
    {
      ghost var before := mem.words;
      mem.words := words;
      forall k | 0 <= k < |pools| ensures pools[k].Shows(h.pools[k]) {
        assert old(pools[k].Shows(h.pools[k]));
        CallerWritesKeepLists(before, words, h, a, k, pools[k].firstBlock, pools[k].freeList);
      }
    }
  }

  // ---------------------------------------------------------------- histories

  /** A request, or a store of callers into the `patch` of words of something that they hold. */
  datatype Action = Ask(request: H.Request) | Store(a: nat, patch: map<nat, nat>)

  ghost predicate StepAt(hs: seq<H.Heap>, acts: seq<Action>, i: nat)
    requires |hs| == |acts| + 1 && i < |acts|
  {
    H.Shape(hs[i]) &&
    match acts[i]
    case Ask(r) => H.Legal(hs[i], r) && hs[i + 1] == H.Apply(hs[i], r)
    case Store(a, patch) =>
      && a in hs[i].held && hs[i + 1] == hs[i]
      && forall w | w in patch :: !M.Apart(w, WORD, a, hs[i].held[a])
  }

  /** Requests and stores in any order. */
  ghost predicate IsHistory(hs: seq<H.Heap>, acts: seq<Action>) {
    && |hs| == |acts| + 1 && hs[0] == H.Start()
    && forall i :: 0 <= i < |acts| ==> StepAt(hs, acts, i)
  }

  lemma {:induction false} HeapInvInHistory(hs: seq<H.Heap>, acts: seq<Action>, k: nat)
    requires IsHistory(hs, acts) && k < |hs|
    ensures H.HeapInv(hs[k])
  {
    if k == 0 {
      H.StartInv();
    } else {
      HeapInvInHistory(hs, acts, k - 1);
      assert StepAt(hs, acts, k - 1);
      if acts[k - 1].Ask? {
        H.HeapStep(hs[k - 1], acts[k - 1].request);
      }
    }
  }

  /** A store changes no word apart from what it stores into. */
  lemma StoreOutside(words: map<nat, nat>, a: nat, n: nat, patch: map<nat, nat>)
    requires forall w | w in patch :: !M.Apart(w, WORD, a, n)
    ensures SameOutside(words, words + patch, a, n)
  {
  }

  /** What an action returns in the state `h`. */
  ghost function Answer(h: H.Heap, act: Action): nat
    requires H.Shape(h)
  {
    if act.Ask? && act.request.Use? then H.Used(h, act.request.size, act.request.addr) else 0
  }

  /** Action `i` frees a slot, action `j` asks for a size of the same class, and in between the
      class is left alone. */
  predicate FreedThenAsked(acts: seq<Action>, i: nat, j: nat) {
    && i < j < |acts| && acts[i].Ask? && acts[i].request.Release? && acts[j].Ask? && acts[j].request.Use?
    && acts[i].request.ptr != 0 && H.Small(acts[i].request.size) && H.Small(acts[j].request.size)
    && var c := H.ClassOf(acts[i].request.size);
       && H.ClassOf(acts[j].request.size) == c
       && forall k | i < k < j :: acts[k].Ask? ==> H.Elsewhere(acts[k].request, c)
  }

  /** Until the class is used again the freed slot is the first of its free list. */
  lemma {:induction false} FreedStaysFirst(hs: seq<H.Heap>, acts: seq<Action>, i: nat, j: nat, c: nat)
    requires IsHistory(hs, acts) && i < j < |hs| && c < H.POOLS
    requires acts[i].Ask? && acts[i].request.Release? && acts[i].request.ptr != 0
    requires H.Small(acts[i].request.size) && c == H.ClassOf(acts[i].request.size)
    requires forall k | i < k < j :: acts[k].Ask? ==> H.Elsewhere(acts[k].request, c)
    ensures H.Shape(hs[j]) && hs[j].pools[c].free != [] && hs[j].pools[c].free[0] == acts[i].request.ptr
  {
    HeapInvInHistory(hs, acts, j);
    HeapInvInHistory(hs, acts, j - 1);
    assert StepAt(hs, acts, j - 1);
    if j == i + 1 {
      H.FreedComesBack(hs[i], acts[i].request.ptr, acts[i].request.size, acts[i].request.size, 0);
    } else {
      FreedStaysFirst(hs, acts, i, j - 1, c);
      if acts[j - 1].Ask? {
        H.ElsewhereKeeps(hs[j - 1], acts[j - 1].request, c);
      }
    }
  }

  /** In every history, memory that is freed is what the next request of its class returns,
      whatever happens to other classes in between. */
  lemma FreedIsReused(hs: seq<H.Heap>, acts: seq<Action>, i: nat, j: nat)
    requires IsHistory(hs, acts) && FreedThenAsked(acts, i, j)
    ensures H.Shape(hs[j]) && Answer(hs[j], acts[j]) == acts[i].request.ptr
  {
    H.ClassFits(acts[i].request.size);
    FreedStaysFirst(hs, acts, i, j, H.ClassOf(acts[i].request.size));
  }

  method Perform(bucket: HashBucket, act: Action, ghost hs: seq<H.Heap>, ghost acts: seq<Action>, ghost i: nat)
    returns (answer: nat)
    requires IsHistory(hs, acts) && i < |acts| && acts[i] == act && bucket.Shows(hs[i].pools)
    modifies bucket.pools, bucket.mem
    ensures bucket.Shows(hs[i + 1].pools) && H.Shape(hs[i]) && answer == Answer(hs[i], act)
  {
    assert StepAt(hs, acts, i);
    HeapInvInHistory(hs, acts, i);
    answer := 0;
    match act {
      case Ask(Use(size, addr)) => answer := bucket.UseMemory(size, addr, hs[i]);
      case Ask(Release(ptr, size)) => bucket.FreeMemory(ptr, size, hs[i]);
      case Store(a, patch) =>
        StoreOutside(bucket.mem.words, a, hs[i].held[a], patch);
        bucket.CallerWrites(bucket.mem.words + patch, a, hs[i]);
    }
  }

  /** The implementation follows every history of requests and of stores between them, pointer
      for pointer; and what was freed is what the next request of its class returns. */
  method Replay(acts: seq<Action>, ghost hs: seq<H.Heap>) returns (answers: seq<nat>)
    requires IsHistory(hs, acts)
    ensures |answers| == |acts|
    ensures forall i :: 0 <= i < |acts| ==> H.Shape(hs[i]) && answers[i] == Answer(hs[i], acts[i])
    ensures forall i: nat, j: nat | FreedThenAsked(acts, i, j) :: answers[j] == acts[i].request.ptr
  {
    var mem := new Memory();
    var bucket := new HashBucket(mem);
    answers := [];
    for i := 0 to |acts|
      invariant fresh(mem) && fresh(bucket) && bucket.mem == mem && fresh(bucket.pools)
      invariant bucket.Shows(hs[i].pools) && |answers| == i
      invariant forall k :: 0 <= k < i ==> H.Shape(hs[k]) && answers[k] == Answer(hs[k], acts[k])
    {
      var answer := Perform(bucket, acts[i], hs, acts, i);
      answers := answers + [answer];
    }
    forall i: nat, j: nat | FreedThenAsked(acts, i, j) ensures answers[j] == acts[i].request.ptr {
      FreedIsReused(hs, acts, i, j);
    }
  }
}
