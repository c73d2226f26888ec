/**
 What every operation of the cache keeps: nodes and frequency lists agree, the cached
 minimum is exact, and the running total bounds the sum of the frequencies.
 */
module LfuInvariant {
  import opened Seqs
  import opened LfuModel

  // ---------------------------------------------------------------- nodes and lists agree

  /** How often `k` occurs in the list of frequency `f`. */
  ghost function Count(lists: Lists, f: int, k: Key): nat {
    if f in lists then multiset(lists[f])[k] else 0
  }

  /** Every key is in exactly one list, the one of its own frequency, exactly once. */
  ghost predicate Linked(nodes: map<Key, Entry>, lists: Lists) {
    forall f, k :: Count(lists, f, k) == if k in nodes && nodes[k].freq == f then 1 else 0
  }

  ghost predicate WellLinked(c: Cache) {
    Linked(c.nodes, c.lists) && AllListed(c) && forall k | k in c.nodes :: c.nodes[k].freq >= 1
  }

  lemma CountTakeOut(lists: Lists, f: int, k: Key)
    requires f in lists && k in lists[f]
    ensures forall g, j :: Count(TakeOut(lists, f, k), g, j) == Count(lists, g, j) - if g == f && j == k then 1 else 0
  {
    WithoutCount(lists[f], k);
  }

  lemma CountPutIn(lists: Lists, f: int, k: Key)
    ensures forall g, j :: Count(PutIn(lists, f, k), g, j) == Count(lists, g, j) + if g == f && j == k then 1 else 0
  {
  }

  lemma LinkedMember(nodes: map<Key, Entry>, lists: Lists, k: Key)
    requires Linked(nodes, lists) && k in nodes
    ensures nodes[k].freq in lists && k in lists[nodes[k].freq]
  {
    assert Count(lists, nodes[k].freq, k) == 1;
  }

  lemma LinkedBack(nodes: map<Key, Entry>, lists: Lists, f: int, k: Key)
    requires Linked(nodes, lists) && f in lists && k in lists[f]
    ensures k in nodes && nodes[k].freq == f
  {
    assert Count(lists, f, k) > 0;
  }

  /** Well-linked lists repeat no key. */
  lemma LinkedDistinct(nodes: map<Key, Entry>, lists: Lists, f: int)
    requires Linked(nodes, lists) && f in lists
    ensures Distinct(lists[f])
  {
    forall k | k in lists[f] ensures multiset(lists[f])[k] <= 1 {
      assert Count(lists, f, k) <= 1;
    }
    CountDistinct(lists[f]);
  }

  lemma MoveKeeps(c: Cache, k: Key, f: int)
    requires WellLinked(c) && k in c.nodes && f >= 1
    ensures HasList(c, k) && WellLinked(Move(c, k, f))
  {
    LinkedMember(c.nodes, c.lists, k);
    CountTakeOut(c.lists, c.nodes[k].freq, k);
    CountPutIn(TakeOut(c.lists, c.nodes[k].freq, k), f, k);
  }

  lemma EvictKeeps(c: Cache)
    requires WellLinked(c) && CanEvict(c)
    ensures WellLinked(Evict(c))
    ensures Victim(c) in c.nodes && c.nodes[Victim(c)].freq == c.minFreq
  {
    LinkedBack(c.nodes, c.lists, c.minFreq, Victim(c));
    CountTakeOut(c.lists, c.minFreq, Victim(c));
  }

  lemma InsertKeeps(c: Cache, k: Key, v: Value)
    requires WellLinked(c) && k !in c.nodes
    ensures WellLinked(Insert(c, k, v))
  {
    CountPutIn(c.lists, 1, k);
  }

  /** `b` is the smallest frequency of any node. */
  ghost predicate Least(nodes: map<Key, Entry>, b: int) {
    && (exists k :: k in nodes && nodes[k].freq == b)
    && (forall k | k in nodes :: b <= nodes[k].freq)
  }

  /** The cached minimum is right whenever there is anything to evict. */
  ghost predicate ExactMin(c: Cache) {
    c.nodes != map[] ==> Least(c.nodes, c.minFreq)
  }

  // ---------------------------------------------------------------- aging

  /** The aging pass lowers each visited node once and keeps nodes and lists in agreement. */
  lemma {:induction false} AgeAllKeeps(c: Cache, order: seq<Key>)
    requires WellLinked(c) && Distinct(order)
    requires forall k | k in order :: k in c.nodes
    ensures WellLinked(AgeAll(c, order))
    ensures forall k | k in c.nodes ::
      AgeAll(c, order).nodes[k] ==
      if k in order then c.nodes[k].(freq := Aged(c.maxAverage, c.nodes[k].freq)) else c.nodes[k]
    ensures AgeAll(c, order) == c.(nodes := AgeAll(c, order).nodes, lists := AgeAll(c, order).lists)
  {
    if order != [] {
      var n := |order| - 1;
      assert order == order[..n] + [order[n]];
      assert order[n] !in order[..n];
      AgeAllKeeps(c, order[..n]);
      var p := AgeAll(c, order[..n]);
      MoveKeeps(p, order[n], Aged(c.maxAverage, p.nodes[order[n]].freq));
    }
  }

  /** Half the limit, rounded toward zero, is taken off, but nothing goes below 1. */
  predicate Lowered(m: int, f: int, g: int) {
    var h := if m >= 0 then m / 2 else -(-m / 2);
    if f - h >= 1 then g == f - h else g == 1
  }

  /** What the aging pass does to each node: exactly half the limit less, or 1. */
  lemma AgeAllLowers(c: Cache, order: seq<Key>)
    requires WellLinked(c) && IsOrder(order, c.nodes.Keys)
    ensures
      var d := AgeAll(c, order);
      && d.nodes.Keys == c.nodes.Keys
      && forall k | k in c.nodes ::
           && Lowered(c.maxAverage, c.nodes[k].freq, d.nodes[k].freq) && d.nodes[k].value == c.nodes[k].value
           && d.nodes[k].freq >= 1 && (c.maxAverage >= 0 ==> d.nodes[k].freq <= c.nodes[k].freq)
  {
    AgeAllKeeps(c, order);
  }

  /** The search for the minimum is exact below INT8_MAX and answers 1 from there on. */
  lemma UpdateMinResult(c: Cache, b: int)
    requires WellLinked(c) && Least(c.nodes, b)
    ensures UpdateMin(c).minFreq == if b < INT8_MAX then b else 1
  {
    var k :| k in c.nodes && c.nodes[k].freq == b;
    LinkedMember(c.nodes, c.lists, k);
    assert b in Used(c.lists);
    var m := MinCapped(Used(c.lists));
    if m != INT8_MAX {
      LinkedBack(c.nodes, c.lists, m, c.lists[m][0]);
    }
  }

  // ---------------------------------------------------------------- the running total

  ghost function Sum(nodes: map<Key, Entry>): int
    decreases |nodes|
  {
    if nodes == map[] then 0 else
      var k :| k in nodes;
      nodes[k].freq + Sum(nodes - {k})
  }

  lemma {:induction false} SumRemove(nodes: map<Key, Entry>, k: Key)
    requires k in nodes
    ensures Sum(nodes) == nodes[k].freq + Sum(nodes - {k})
    decreases |nodes|
  {
    var j: Key :| j in nodes && Sum(nodes) == nodes[j].freq + Sum(nodes - {j});
    if j != k {
      SumRemove(nodes - {j}, k);
      SumRemove(nodes - {k}, j);
      assert nodes - {j} - {k} == nodes - {k} - {j};
    }
  }

  lemma SumUpdate(nodes: map<Key, Entry>, k: Key, e: Entry)
    ensures Sum(nodes[k := e]) == Sum(nodes) + e.freq - (if k in nodes then nodes[k].freq else 0)
  {
    SumRemove(nodes[k := e], k);
    assert nodes[k := e] - {k} == nodes - {k};
    if k in nodes {
      SumRemove(nodes, k);
    } else {
      assert nodes - {k} == nodes;
    }
  }

  lemma {:induction false} SumShrinks(a: map<Key, Entry>, b: map<Key, Entry>)
    requires a.Keys == b.Keys && forall k | k in a :: a[k].freq <= b[k].freq
    ensures Sum(a) <= Sum(b)
    decreases |a|
  {
    if a == map[] {
      assert b == map[];
    } else {
      var k :| k in a;
      SumRemove(a, k);
      SumRemove(b, k);
      SumShrinks(a - {k}, b - {k});
    }
  }

  lemma RemoveSize(nodes: map<Key, Entry>, k: Key)
    requires k in nodes
    ensures |nodes - {k}| == |nodes| - 1
  {
    assert (nodes - {k}).Keys == nodes.Keys - {k};
    assert |nodes.Keys - {k}| == |nodes.Keys| - 1;
  }

  /** Pigeonhole: a total of less than (m + 1) per node leaves some node at m or below. */
  lemma {:induction false} SumAtLeast(nodes: map<Key, Entry>, b: int)
    requires forall k | k in nodes :: b <= nodes[k].freq
    ensures Sum(nodes) >= b * |nodes|
    decreases |nodes|
  {
    if nodes != map[] {
      var k :| k in nodes;
      SumRemove(nodes, k);
      RemoveSize(nodes, k);
      SumAtLeast(nodes - {k}, b);
      OneMore(b, |nodes|);
    }
  }

  lemma OneMore(b: int, n: int)
    ensures b * n == b * (n - 1) + b
  {
  }

  lemma QuotientBound(total: int, n: nat, m: int, b: int)
    requires n > 0 && total / n <= m && b * n <= total
    ensures b <= m
  {
    assert total == total / n * n + total % n;
    assert total / n * n <= m * n;
    assert b * n < (m + 1) * n;
  }

  // ---------------------------------------------------------------- the invariant

  ghost predicate InRange(maxAverage: int) { 2 <= maxAverage <= 250 }

  ghost predicate Inv(c: Cache) {
    && WellLinked(c)
    && ExactMin(c)
    && c.minFreq >= 1
    && c.total >= Sum(c.nodes)
    && (c.nodes != map[] ==> c.minFreq <= c.maxAverage)
    && (c.capacity >= 0 ==> |c.nodes| <= c.capacity)
  }

  /** The whole aging pass: the least frequency is aged, and found again. */
  lemma AgeResult(d: Cache, order: seq<Key>, b: int)
    requires WellLinked(d) && IsOrder(order, d.nodes.Keys) && Least(d.nodes, b)
    ensures var e := UpdateMin(AgeAll(d, order)); var b' := Aged(d.maxAverage, b);
      && WellLinked(e) && Least(e.nodes, b')
      && e.minFreq == (if b' < INT8_MAX then b' else 1)
      && e.nodes.Keys == d.nodes.Keys
      && (forall k | k in d.nodes :: e.nodes[k] == d.nodes[k].(freq := Aged(d.maxAverage, d.nodes[k].freq)))
      && e == d.(minFreq := e.minFreq, nodes := e.nodes, lists := e.lists)
  {
    var low :| low in d.nodes && d.nodes[low].freq == b;
    AgeAllKeeps(d, order);
    var a := AgeAll(d, order);
    assert a.nodes[low].freq == Aged(d.maxAverage, b);
    UpdateMinResult(a, Aged(d.maxAverage, b));
  }

  /** Counting an access that triggers aging. */
  lemma AgingKeeps(d: Cache, order: seq<Key>, b: int)
    requires WellLinked(d) && IsOrder(order, d.nodes.Keys) && Least(d.nodes, b)
    requires 1 <= b <= d.maxAverage + 1 && InRange(d.maxAverage) && d.total >= Sum(d.nodes)
    ensures
      var e, b' := UpdateMin(AgeAll(d, order)), Aged(d.maxAverage, b);
      && WellLinked(e) && Least(e.nodes, b') && 1 <= b' <= d.maxAverage && e.minFreq == b'
      && e.total == d.total >= Sum(e.nodes) && e.nodes.Keys == d.nodes.Keys
      && e.capacity == d.capacity && e.maxAverage == d.maxAverage
  {
    AgeResult(d, order, b);
    SumShrinks(UpdateMin(AgeAll(d, order)).nodes, d.nodes);
  }

  /** Counting an access, with or without aging, when the least frequency is `b`. */
  lemma AddFreqNumKeeps(d: Cache, order: seq<Key>, b: int)
    requires WellLinked(d) && IsOrder(order, d.nodes.Keys) && Least(d.nodes, b)
    requires 1 <= b <= d.maxAverage + 1 && InRange(d.maxAverage) && d.total + 1 >= Sum(d.nodes)
    ensures
      var e := AddFreqNum(d, order);
      var b' := if Overflows(d) then Aged(d.maxAverage, b) else b;
      && WellLinked(e) && Least(e.nodes, b') && 1 <= b' <= d.maxAverage
      && e.minFreq == (if Overflows(d) then b' else d.minFreq)
      && e.total >= Sum(e.nodes) && e.nodes.Keys == d.nodes.Keys
      && e.capacity == d.capacity && e.maxAverage == d.maxAverage
  {
    if Overflows(d) {
      AgingKeeps(Ticked(d), order, b);
    } else {
      SumAtLeast(d.nodes, b);
      QuotientBound(d.total + 1, |d.nodes|, d.maxAverage, b);
    }
  }

  /** getInternal before the access is counted. */
  lemma PromoteKeeps(c: Cache, k: Key)
    requires WellLinked(c) && Least(c.nodes, c.minFreq) && k in c.nodes
    ensures var d := Promote(c, k);
      && WellLinked(d) && Least(d.nodes, d.minFreq)
      && c.minFreq <= d.minFreq <= c.minFreq + 1
      && d.nodes == c.nodes[k := c.nodes[k].(freq := c.nodes[k].freq + 1)]
      && Sum(d.nodes) == Sum(c.nodes) + 1
      && d == c.(nodes := d.nodes, lists := d.lists, minFreq := d.minFreq)
  {
    var f := c.nodes[k].freq;
    var e := c.nodes[k].(freq := f + 1);
    MoveKeeps(c, k, f + 1);
    SumUpdate(c.nodes, k, e);
    var d := Promote(c, k);
    assert d.nodes[k].freq == f + 1;
    if f == c.minFreq {
      if d.lists[f] == [] {
        forall j | j in d.nodes ensures f + 1 <= d.nodes[j].freq {
          LinkedMember(d.nodes, d.lists, j);
        }
      } else {
        LinkedBack(d.nodes, d.lists, f, d.lists[f][0]);
      }
    } else {
      var low :| low in c.nodes && c.nodes[low].freq == c.minFreq;
      assert d.nodes[low] == c.nodes[low];
    }
  }

  /** In a reachable state a non-empty cache always finds its victim. */
  lemma InvCanEvict(c: Cache)
    requires Inv(c) && c.nodes != map[]
    ensures CanEvict(c)
  {
    var low :| low in c.nodes && c.nodes[low].freq == c.minFreq;
    LinkedMember(c.nodes, c.lists, low);
    LinkedBack(c.nodes, c.lists, c.minFreq, c.lists[c.minFreq][0]);
  }

  /** An eviction takes one node off the count and its frequency off the total. */
  lemma EvictBudget(c: Cache)
    requires Inv(c) && CanEvict(c)
    ensures WellLinked(Evict(c)) && |Evict(c).nodes| == |c.nodes| - 1
    ensures Evict(c).total >= Sum(Evict(c).nodes)
  {
    EvictKeeps(c);
    SumRemove(c.nodes, Victim(c));
    RemoveSize(c.nodes, Victim(c));
  }

  lemma InsertBudget(c: Cache, k: Key, v: Value)
    requires WellLinked(c) && k !in c.nodes && c.total >= Sum(c.nodes)
    ensures var d := Insert(c, k, v);
      && WellLinked(d) && Least(d.nodes, 1) && |d.nodes| == |c.nodes| + 1
      && d.total + 1 >= Sum(d.nodes)
  {
    InsertKeeps(c, k, v);
    SumUpdate(c.nodes, k, Entry(v, 1));
    var d := Insert(c, k, v);
    assert d.nodes[k].freq == 1;
    assert d.nodes.Keys == c.nodes.Keys + {k};
    assert |d.nodes.Keys| == |c.nodes.Keys| + 1;
  }

  /** putInternal up to the point where it counts the access. */
  lemma InsertFreshKeeps(c: Cache, k: Key, v: Value)
    requires Inv(c) && c.capacity != 0 && k !in c.nodes
    ensures Ready(c, Put(k, v))
    ensures var d := Touched(c, Put(k, v));
      && WellLinked(d) && Least(d.nodes, 1)
      && d.total + 1 >= Sum(d.nodes)
      && (c.capacity > 0 ==> |d.nodes| <= c.capacity)
      && d.minFreq == c.minFreq && d.maxAverage == c.maxAverage && d.capacity == c.capacity
  {
    if |c.nodes| == c.capacity {
      InvCanEvict(c);
      EvictBudget(c);
      InsertBudget(Evict(c), k, v);
    } else {
      InsertBudget(c, k, v);
    }
  }

  /** getInternal with the access counted. */
  lemma HitKeeps(c: Cache, k: Key, order: seq<Key>)
    requires Inv(c) && InRange(c.maxAverage) && k in c.nodes
    ensures HasList(c, k) && WellLinked(Promote(c, k)) && Promote(c, k).nodes.Keys == c.nodes.Keys
    ensures IsOrder(order, c.nodes.Keys) ==>
      var e := AddFreqNum(Promote(c, k), order);
      Inv(e) && e.maxAverage == c.maxAverage && e.capacity == c.capacity
  {
    PromoteKeeps(c, k);
    var d := Promote(c, k);
    assert d.nodes.Keys == c.nodes.Keys;
    if IsOrder(order, c.nodes.Keys) {
      AddFreqNumKeeps(d, order, d.minFreq);
      assert |d.nodes.Keys| == |AddFreqNum(d, order).nodes.Keys|;
    }
  }

  lemma WithValueKeeps(c: Cache, k: Key, v: Value)
    requires Inv(c) && k in c.nodes
    ensures Inv(WithValue(c, k, v)) && WithValue(c, k, v).nodes.Keys == c.nodes.Keys
  {
    var s := WithValue(c, k, v);
    var low :| low in c.nodes && c.nodes[low].freq == c.minFreq;
    assert s.nodes[low].freq == c.minFreq;
    assert s.nodes.Keys == c.nodes.Keys;
    assert |s.nodes.Keys| == |c.nodes.Keys|;
    SumUpdate(c.nodes, k, s.nodes[k]);
  }

  lemma MissKeeps(c: Cache, k: Key, v: Value, order: seq<Key>)
    requires Inv(c) && InRange(c.maxAverage) && c.capacity != 0 && k !in c.nodes
    ensures Ready(c, Put(k, v)) && WellLinked(Touched(c, Put(k, v)))
    ensures IsOrder(order, Touched(c, Put(k, v)).nodes.Keys) ==>
      var e := AddFreqNum(Touched(c, Put(k, v)), order);
      Inv(FloorMin(e)) && e.maxAverage == c.maxAverage && e.capacity == c.capacity
  {
    InsertFreshKeeps(c, k, v);
    var d := Touched(c, Put(k, v));
    if IsOrder(order, d.nodes.Keys) {
      AddFreqNumKeeps(d, order, 1);
      assert |d.nodes.Keys| == |AddFreqNum(d, order).nodes.Keys|;
    }
  }

  /** Every operation, in every aging order, keeps the invariant and never gets stuck. */
  lemma InvStep(c: Cache, op: Op, order: seq<Key>)
    requires Inv(c) && InRange(c.maxAverage)
    ensures Ready(c, op) && WellLinked(Touched(c, op))
    ensures IsOrder(order, Touched(c, op).nodes.Keys) ==>
      var d := Apply(c, op, order);
      Inv(d) && d.maxAverage == c.maxAverage && d.capacity == c.capacity
  {
    if !Counts(c, op) {
      SumAtLeast(c.nodes, 0);
    } else if op.key !in c.nodes {
      MissKeeps(c, op.key, op.value, order);
    } else if op.Put? {
      WithValueKeeps(c, op.key, op.value);
      HitKeeps(WithValue(c, op.key, op.value), op.key, order);
    } else {
      HitKeeps(c, op.key, order);
    }
  }
}
