/**
 What the frequencies are: which accesses are counted, when aging runs and what it leaves, in
 terms of the states and the operations alone.
 */
module LfuFrequency {
  import opened Seqs
  import opened LfuModel
  import opened LfuInvariant
  import opened LfuRuns
  import opened LfuHistory

  /** The access is counted: a put into a cache that can hold anything, a get that finds its key. */
  predicate IsAccess(c: Cache, op: Op) {
    (op.Put? && c.capacity != 0) || (op.Get? && op.key in c.nodes)
  }

  /** A new key and no room for it. */
  predicate Full(c: Cache, op: Op) {
    op.Put? && op.key !in c.nodes && |c.nodes| == c.capacity
  }

  /** The frequency of `k` with the access counted: one more for the key itself, 1 if it is new. */
  function Raised(c: Cache, op: Op, k: Key): int
    requires !op.Purge?
  {
    if k !in c.nodes then 1 else if k == op.key then c.nodes[k].freq + 1 else c.nodes[k].freq
  }

  /** The accesses counted so far are more than the limit per cached key allows. */
  predicate Exceeds(c: Cache) {
    c.total >= (c.maxAverage + 1) * |c.nodes|
  }

  lemma QuotientAbove(x: int, n: nat, m: int)
    requires n > 0
    ensures x / n > m <==> x >= (m + 1) * n
  {
    assert x == x / n * n + x % n;
    if x / n > m {
      assert x / n * n >= (m + 1) * n;
    } else {
      assert x / n * n <= m * n;
      OneMore(n, m + 1);
    }
  }

  lemma NotEmpty(nodes: map<Key, Entry>)
    requires nodes != map[]
    ensures |nodes| > 0
  {
    assert nodes.Keys != {};
  }

  /** The test of the average, without the division. */
  lemma OverflowsAbove(d: Cache)
    requires d.nodes != map[]
    ensures Overflows(d) <==> d.total + 1 >= (d.maxAverage + 1) * |d.nodes|
  {
    NotEmpty(d.nodes);
    QuotientAbove(d.total + 1, |d.nodes|, d.maxAverage);
  }

  lemma TotalCounted(d: Cache, order: seq<Key>)
    requires WellLinked(d) && IsOrder(order, d.nodes.Keys)
    ensures
      var e := AddFreqNum(d, order);
      && e.total == d.total + 1 && e.nodes.Keys == d.nodes.Keys && |e.nodes| == |d.nodes|
      && e.maxAverage == d.maxAverage && e.average == Average(e.total, |d.nodes|)
  {
    AgeAllKeeps(Ticked(d), order);
    assert |AddFreqNum(d, order).nodes.Keys| == |d.nodes.Keys|;
  }

  lemma ExceedsIff(d: Cache, order: seq<Key>)
    requires WellLinked(d) && IsOrder(order, d.nodes.Keys) && d.nodes != map[]
    ensures Exceeds(AddFreqNum(d, order)) <==> Overflows(d)
  {
    TotalCounted(d, order);
    OverflowsAbove(d);
  }

  lemma NodesCounted(d: Cache, order: seq<Key>)
    requires WellLinked(d) && IsOrder(order, d.nodes.Keys) && d.nodes != map[]
    ensures
      var e := AddFreqNum(d, order);
      if Overflows(d) then
        && e.nodes.Keys == d.nodes.Keys
        && forall k | k in d.nodes :: Lowered(d.maxAverage, d.nodes[k].freq, e.nodes[k].freq)
      else e.nodes == d.nodes
  {
    if Overflows(d) {
      AgeAllLowers(Ticked(d), order);
    }
  }

  /** Counting an access: the total grows by one, and all nodes are aged, once, exactly if the
      total then exceeds the limit; otherwise no node changes. */
  lemma CountedOnce(d: Cache, order: seq<Key>)
    requires WellLinked(d) && IsOrder(order, d.nodes.Keys) && d.nodes != map[]
    ensures
      var e := AddFreqNum(d, order);
      && e.total == d.total + 1 && e.nodes.Keys == d.nodes.Keys && e.maxAverage == d.maxAverage
      && (Exceeds(e) ==> forall k | k in d.nodes :: Lowered(d.maxAverage, d.nodes[k].freq, e.nodes[k].freq))
      && (!Exceeds(e) ==> e.nodes == d.nodes)
  {
    TotalCounted(d, order);
    ExceedsIff(d, order);
    NodesCounted(d, order);
  }

  /** The cached average is the quotient. */
  lemma AverageIs(d: Cache, order: seq<Key>)
    requires WellLinked(d) && IsOrder(order, d.nodes.Keys) && d.nodes != map[]
    ensures var e := AddFreqNum(d, order); e.average * |e.nodes| <= e.total < (e.average + 1) * |e.nodes|
  {
    var e, n := AddFreqNum(d, order), |d.nodes|;
    TotalCounted(d, order);
    NotEmpty(d.nodes);
    assert e.total == e.total / n * n + e.total % n;
  }

  lemma TouchedLinked(c: Cache, op: Op)
    requires WellLinked(c) && Ready(c, op)
    ensures var d := Touched(c, op); WellLinked(d) && d.maxAverage == c.maxAverage && d.capacity == c.capacity
  {
    if op.Purge? || (op.Put? && c.capacity == 0) {
    } else if op.key in c.nodes {
      var s := if op.Put? then WithValue(c, op.key, op.value) else c;
      MoveKeeps(s, op.key, s.nodes[op.key].freq + 1);
    } else if op.Put? {
      var b := if |c.nodes| == c.capacity then Evict(c) else c;
      if |c.nodes| == c.capacity {
        EvictKeeps(c);
      }
      InsertKeeps(b, op.key, op.value);
    }
  }

  /** The state in which an access is counted. */
  lemma TouchedFacts(c: Cache, op: Op)
    requires WellLinked(c) && Ready(c, op) && IsAccess(c, op)
    ensures WellLinked(Touched(c, op))
    ensures
      var d := Touched(c, op);
      && op.key in d.nodes && d.maxAverage == c.maxAverage && d.capacity == c.capacity
      && d.total == c.total - (if Full(c, op) then c.minFreq else 0)
      && (forall k | k in d.nodes :: d.nodes[k].freq == Raised(c, op, k))
      && (!Full(c, op) ==> d.nodes.Keys == c.nodes.Keys + {op.key})
  {
    TouchedLinked(c, op);
    if op.key in c.nodes {
      HitFacts(c, op);
    } else {
      MissFacts(c, op);
    }
  }

  lemma MissFacts(c: Cache, op: Op)
    requires WellLinked(c) && IsAccess(c, op) && op.key !in c.nodes && Ready(c, op)
    ensures
      var d := Touched(c, op);
      && op.key in d.nodes && d.maxAverage == c.maxAverage && d.capacity == c.capacity
      && d.total == c.total - (if Full(c, op) then c.minFreq else 0)
      && (forall k | k in d.nodes :: d.nodes[k].freq == Raised(c, op, k))
      && (!Full(c, op) ==> d.nodes.Keys == c.nodes.Keys + {op.key})
  {
    if Full(c, op) {
      EvictKeeps(c);
    }
  }

  lemma HitFacts(c: Cache, op: Op)
    requires IsAccess(c, op) && op.key in c.nodes && Ready(c, op)
    ensures
      var d, k := Touched(c, op), op.key;
      && d.total == c.total && d.maxAverage == c.maxAverage && d.capacity == c.capacity
      && d.nodes.Keys == c.nodes.Keys && d.nodes[k].freq == c.nodes[k].freq + 1
      && forall j | j in c.nodes && j != k :: d.nodes[j] == c.nodes[j]
  {
  }

  /** What the operation `op` does to total and frequencies. */
  ghost predicate Frequencies(c: Cache, op: Op, d: Cache) {
    if !IsAccess(c, op) then d.total == c.total && d.nodes == (if op.Purge? then map[] else c.nodes)
    else
      && d.total == c.total + 1 - (if Full(c, op) then c.minFreq else 0)
      && (!Full(c, op) ==> d.nodes.Keys == c.nodes.Keys + {op.key})
      && (forall k | k in d.nodes ::
           if Exceeds(d) then Lowered(c.maxAverage, Raised(c, op, k), d.nodes[k].freq)
           else d.nodes[k].freq == Raised(c, op, k))
  }

  /** `t` is the state in which the access is counted, `d` the state afterwards. */
  lemma Combined(c: Cache, op: Op, t: Cache, d: Cache)
    requires IsAccess(c, op) && t.maxAverage == c.maxAverage
    requires t.total == c.total - (if Full(c, op) then c.minFreq else 0)
    requires forall k | k in t.nodes :: t.nodes[k].freq == Raised(c, op, k)
    requires !Full(c, op) ==> t.nodes.Keys == c.nodes.Keys + {op.key}
    requires d.total == t.total + 1 && d.nodes.Keys == t.nodes.Keys
    requires Exceeds(d) ==> forall k | k in t.nodes :: Lowered(t.maxAverage, t.nodes[k].freq, d.nodes[k].freq)
    requires !Exceeds(d) ==> d.nodes == t.nodes
    ensures Frequencies(c, op, d)
  {
  }

  /** The floor of putInternal touches nothing but the minimum. */
  lemma CountedResult(c: Cache, e: Call, d: Cache)
    requires Next(c, e, d) && IsAccess(c, e.op)
    ensures
      var a := AddFreqNum(Touched(c, e.op), e.order);
      d.nodes == a.nodes && d.total == a.total && d.maxAverage == a.maxAverage
  {
  }

  lemma NotCounted(c: Cache, e: Call, d: Cache)
    requires Next(c, e, d) && !IsAccess(c, e.op)
    ensures Frequencies(c, e.op, d)
  {
  }

  lemma CountedFrequencies(c: Cache, op: Op, order: seq<Key>, t: Cache, a: Cache)
    requires IsAccess(c, op) && WellLinked(t) && op.key in t.nodes && IsOrder(order, t.nodes.Keys)
    requires t.total == c.total - (if Full(c, op) then c.minFreq else 0) && t.maxAverage == c.maxAverage
    requires forall k | k in t.nodes :: t.nodes[k].freq == Raised(c, op, k)
    requires !Full(c, op) ==> t.nodes.Keys == c.nodes.Keys + {op.key}
    requires a == AddFreqNum(t, order)
    ensures Frequencies(c, op, a)
  {
    CountedOnce(t, order);
    Combined(c, op, t, a);
  }

  lemma SameFrequencies(c: Cache, op: Op, a: Cache, d: Cache)
    requires IsAccess(c, op) && Frequencies(c, op, a)
    requires d.nodes == a.nodes && d.total == a.total && d.maxAverage == a.maxAverage
    ensures Frequencies(c, op, d)
  {
  }

  lemma ApplyFrequencies(c: Cache, e: Call, d: Cache)
    requires WellLinked(c) && Next(c, e, d)
    ensures Frequencies(c, e.op, d)
  {
    if !IsAccess(c, e.op) {
      NotCounted(c, e, d);
    } else {
      TouchedFacts(c, e.op);
      CountedResult(c, e, d);
      var a := AddFreqNum(Touched(c, e.op), e.order);
      CountedFrequencies(c, e.op, e.order, Touched(c, e.op), a);
      SameFrequencies(c, e.op, a, d);
    }
  }

  /** Whatever the limit, nodes and lists agree in every state of every run. */
  lemma {:induction false} LinkedInRun(capacity: int, m: int, ss: seq<Cache>, es: seq<Call>, i: nat)
    requires IsRun(capacity, m, ss, es) && i < |ss|
    ensures WellLinked(ss[i]) && ss[i].maxAverage == m && ss[i].capacity == capacity
  {
    if i > 0 {
      LinkedInRun(capacity, m, ss, es, i - 1);
      assert StepAt(ss, es, i - 1);
      LinkedStep(ss[i - 1], es[i - 1], ss[i]);
    }
  }

  lemma CountLinked(d: Cache, order: seq<Key>)
    requires WellLinked(d) && IsOrder(order, d.nodes.Keys)
    ensures var e := AddFreqNum(d, order); WellLinked(e) && e.maxAverage == d.maxAverage && e.capacity == d.capacity
  {
    AgeAllKeeps(Ticked(d), order);
  }

  /** The new state is the touched one, with or without the access counted and the minimum floored. */
  lemma NextIs(c: Cache, e: Call, d: Cache)
    requires Next(c, e, d)
    ensures
      var t := Touched(c, e.op);
      d == t || d == AddFreqNum(t, e.order) || d == FloorMin(AddFreqNum(t, e.order))
  {
  }

  lemma LinkedStep(c: Cache, e: Call, d: Cache)
    requires WellLinked(c) && Next(c, e, d)
    ensures WellLinked(d) && d.maxAverage == c.maxAverage && d.capacity == c.capacity
  {
    TouchedLinked(c, e.op);
    NextIs(c, e, d);
    CountLinked(Touched(c, e.op), e.order);
  }

  /** In every run, whatever the limit: an access that is counted adds one to the total, less the frequency of the
      evicted key, and one to its key; and if the total then exceeds the limit per key, every
      frequency is lowered by half the limit but not below 1. Other operations change no
      frequency. */
  lemma FrequencyStep(capacity: int, m: int, ss: seq<Cache>, es: seq<Call>, i: nat)
    requires IsRun(capacity, m, ss, es) && i < |es|
    ensures Frequencies(ss[i], es[i].op, ss[i + 1]) && ss[i].maxAverage == m && ss[i].capacity == capacity
  {
    assert StepAt(ss, es, i);
    LinkedInRun(capacity, m, ss, es, i);
    ApplyFrequencies(ss[i], es[i], ss[i + 1]);
  }

  /** Aging keeps the ranking: of two keys that an operation does not touch, the one used more is
      not behind afterwards, and two keys above half the limit keep their distance. */
  lemma RankingKept(capacity: int, m: int, ss: seq<Cache>, es: seq<Call>, i: nat, j: Key, k: Key)
    requires IsRun(capacity, m, ss, es) && i < |es| && !es[i].op.Purge?
    requires j in ss[i].nodes && j in ss[i + 1].nodes && k in ss[i].nodes && k in ss[i + 1].nodes
    requires j != es[i].op.key && k != es[i].op.key
    ensures
      var f, g := ss[i].nodes, ss[i + 1].nodes;
      && (f[j].freq <= f[k].freq ==> g[j].freq <= g[k].freq)
      && (f[j].freq > m / 2 && f[k].freq > m / 2 ==> g[j].freq - g[k].freq == f[j].freq - f[k].freq)
  {
    LinkedInRun(capacity, m, ss, es, i);
    FrequencyStep(capacity, m, ss, es, i);
  }

  // ---------------------------------------------------------------- before aging

  /** How often `k` was accessed since it was put, if that was after the last purge. */
  function Accesses(ops: seq<Op>, k: Key): nat {
    if ops == [] then 0 else
      var n := Accesses(ops[..|ops| - 1], k);
      match ops[|ops| - 1]
      case Put(j, _) => if j == k then n + 1 else n
      case Get(j) => if j == k && n > 0 then n + 1 else n
      case Purge => 0
  }

  lemma {:induction false} AccessedKeys(ops: seq<Op>, k: Key)
    ensures Accesses(ops, k) > 0 <==> k in PutKeys(ops)
  {
    if ops != [] {
      AccessedKeys(ops[..|ops| - 1], k);
    }
  }

  lemma AccessStep(ops: seq<Op>, op: Op, c: Cache, d: Cache, k: Key)
    requires Frequencies(c, op, d) && c.capacity != 0 && (IsAccess(c, op) ==> !Exceeds(d))
    requires k in d.nodes && (k in c.nodes <==> Accesses(ops, k) > 0) && (k !in c.nodes ==> op.Put? && k == op.key)
    requires k in c.nodes ==> c.nodes[k].freq == Accesses(ops, k)
    ensures d.nodes[k].freq == Accesses(ops + [op], k)
  {
    assert (ops + [op])[..|ops|] == ops;
  }

  /** As long as the keys fit and aging has not run, a key's frequency is the number of its
      accesses. */
  lemma {:induction false} FrequencyIsAccesses(capacity: int, m: int, ss: seq<Cache>, es: seq<Call>, i: nat)
    requires InRange(m) && IsRun(capacity, m, ss, es) && i < |ss| && capacity > 0
    requires forall t | 0 <= t <= i :: |PutKeys(Ops(es[..t]))| <= capacity
    requires forall t | 0 <= t < i :: IsAccess(ss[t], es[t].op) ==> !Exceeds(ss[t + 1])
    ensures forall k | k in ss[i].nodes :: ss[i].nodes[k].freq == Accesses(Ops(es[..i]), k)
  {
    if i > 0 {
      var before := Ops(es[..i - 1]);
      FrequencyIsAccesses(capacity, m, ss, es, i - 1);
      KeysWhileItFits(capacity, m, ss, es, i - 1);
      KeysWhileItFits(capacity, m, ss, es, i);
      FrequencyStep(capacity, m, ss, es, i - 1);
      OpsPrefix(es, i);
      forall k | k in ss[i].nodes ensures ss[i].nodes[k].freq == Accesses(Ops(es[..i]), k) {
        AccessedKeys(before, k);
        AccessStep(before, es[i - 1].op, ss[i - 1], ss[i], k);
      }
    }
  }
}
