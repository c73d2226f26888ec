/**
 The cache against its plain specification: a map with least-used eviction. What one
 eviction removes, in which order aging leaves the lists, and what a get returns over a whole
 history.
 */
module LfuHistory {
  import opened Options
  import opened Seqs
  import opened LfuModel
  import opened LfuInvariant
  import opened LfuRuns

  // ---------------------------------------------------------------- order after aging

  function Listing(lists: Lists, f: int): seq<Key> {
    if f in lists then lists[f] else []
  }

  /** The keys of `order` that aging sends to frequency `f`, in that order. */
  function Arrivals(order: seq<Key>, nodes: map<Key, Entry>, m: int, f: int): seq<Key>
    requires forall k | k in order :: k in nodes
  {
    if order == [] then [] else
      var n := |order| - 1;
      Arrivals(order[..n], nodes, m, f) + if Aged(m, nodes[order[n]].freq) == f then [order[n]] else []
  }

  /** `s` without the keys of `gone`. */
  function Minus(s: seq<Key>, gone: seq<Key>): seq<Key> {
    if gone == [] then s else Without(Minus(s, gone[..|gone| - 1]), gone[|gone| - 1])
  }

  lemma {:induction false} WithoutFirst(a: seq<Key>, b: seq<Key>, k: Key)
    requires k in a
    ensures Without(a + b, k) == Without(a, k) + b
  {
    if a[0] == k {
      assert (a + b)[1..] == a[1..] + b;
    } else {
      assert (a + b)[1..] == a[1..] + b;
      WithoutFirst(a[1..], b, k);
    }
  }

  lemma {:induction false} MinusCount(s: seq<Key>, gone: seq<Key>, k: Key)
    requires Distinct(gone)
    ensures k !in gone ==> multiset(Minus(s, gone))[k] == multiset(s)[k]
    ensures k in gone && multiset(s)[k] <= 1 ==> k !in Minus(s, gone)
  {
    if gone != [] {
      var n := |gone| - 1;
      assert gone == gone[..n] + [gone[n]];
      var before := Minus(s, gone[..n]);
      MinusCount(s, gone[..n], k);
      WithoutCount(before, gone[n]);
      if k == gone[n] {
        assert k !in gone[..n];
        assert multiset(Without(before, k))[k] == if multiset(before)[k] > 0 then multiset(before)[k] - 1 else 0;
      } else {
        assert multiset(Without(before, gone[n]))[k] == multiset(before)[k];
      }
    }
  }

  lemma MoveListing(c: Cache, k: Key, f: int, g: int)
    requires HasList(c, k)
    ensures Listing(Move(c, k, f).lists, g) ==
      (if c.nodes[k].freq == g then Without(Listing(c.lists, g), k) else Listing(c.lists, g))
      + if f == g then [k] else []
  {
  }

  /** What visiting one more key does to a list. */
  lemma AgeOneMore(c: Cache, p: seq<Key>, k: Key, f: int)
    requires WellLinked(c) && Distinct(p) && k !in p && forall j | j in p + [k] :: j in c.nodes
    ensures forall j | j in p :: j in c.nodes
    ensures k in c.nodes
    ensures
      var before := Listing(AgeAll(c, p).lists, f);
      Listing(AgeAll(c, p + [k]).lists, f) ==
      (if c.nodes[k].freq == f then Without(before, k) else before)
      + if Aged(c.maxAverage, c.nodes[k].freq) == f then [k] else []
  {
    assert k in p + [k] && forall j | j in p :: j in p + [k];
    assert (p + [k])[..|p|] == p;
    var a := AgeAll(c, p);
    AgeAllKeeps(c, p);
    MoveListing(a, k, Aged(c.maxAverage, a.nodes[k].freq), f);
  }

  /** Midway through the pass a list holds what it has left, then its arrivals so far. */
  lemma {:induction false} AgeListing(c: Cache, order: seq<Key>, f: int)
    requires WellLinked(c) && Distinct(order)
    requires forall k | k in order :: k in c.nodes
    ensures Listing(AgeAll(c, order).lists, f) ==
      Minus(Listing(c.lists, f), order) + Arrivals(order, c.nodes, c.maxAverage, f)
  {
    if order != [] {
      var n := |order| - 1;
      var p, k := order[..n], order[n];
      assert order == p + [k] && k !in p;
      AgeListing(c, p, f);
      AgeOneMore(c, p, k, f);
      LeftStep(c, p, k, f, Arrivals(p, c.nodes, c.maxAverage, f));
    }
  }

  lemma LeftStep(c: Cache, p: seq<Key>, k: Key, f: int, arrived: seq<Key>)
    requires Linked(c.nodes, c.lists) && Distinct(p) && k in c.nodes && k !in p
    ensures
      var left := Minus(Listing(c.lists, f), p);
      (if c.nodes[k].freq == f then Without(left + arrived, k) else left + arrived) == Without(left, k) + arrived
  {
    var left := Minus(Listing(c.lists, f), p);
    MinusCount(Listing(c.lists, f), p, k);
    assert Count(c.lists, f, k) == multiset(Listing(c.lists, f))[k];
    if c.nodes[k].freq == f {
      WithoutFirst(left, arrived, k);
    } else {
      WithoutAbsent(left, k);
    }
  }

  /** After aging every list holds exactly the keys now at its frequency, in the order in
      which the pass visited them. */
  lemma AgedOrder(c: Cache, order: seq<Key>, f: int)
    requires WellLinked(c) && IsOrder(order, c.nodes.Keys)
    ensures Listing(AgeAll(c, order).lists, f) == Arrivals(order, c.nodes, c.maxAverage, f)
  {
    AgeListing(c, order, f);
    var left := Minus(Listing(c.lists, f), order);
    forall k ensures multiset(left)[k] == 0 {
      assert Count(c.lists, f, k) == multiset(Listing(c.lists, f))[k];
      MinusCount(Listing(c.lists, f), order, k);
    }
    assert multiset(left) == multiset{};
    assert |left| == |multiset(left)|;
  }

  // ---------------------------------------------------------------- one operation

  lemma AddFreqNumValues(d: Cache, order: seq<Key>)
    requires WellLinked(d) && IsOrder(order, d.nodes.Keys)
    ensures AddFreqNum(d, order).nodes.Keys == d.nodes.Keys
    ensures forall k | k in d.nodes :: AddFreqNum(d, order).nodes[k].value == d.nodes[k].value
    ensures !Overflows(d) ==> AddFreqNum(d, order).nodes == d.nodes && AddFreqNum(d, order).lists == d.lists
  {
    AgeAllKeeps(Ticked(d), order);
  }

  /** The state in which a put of a new key into a full cache counts its access. */
  lemma FullPutTouched(c: Cache, k: Key, v: Value)
    requires Inv(c) && k !in c.nodes && |c.nodes| == c.capacity && c.capacity > 0
    ensures CanEvict(c) && WellLinked(Touched(c, Put(k, v)))
    ensures
      var out, d := Victim(c), Touched(c, Put(k, v));
      && out in c.nodes && c.nodes[out].freq == c.minFreq
      && d.nodes == (c.nodes - {out})[k := Entry(v, 1)]
      && d.lists == PutIn(TakeOut(c.lists, c.minFreq, out), 1, k)
  {
    InvCanEvict(c);
    EvictKeeps(c);
    InsertFreshKeeps(c, k, v);
  }

  /** A new key put into a full cache costs exactly one key: a least used one, the first in
      its list. Every other value stays. */
  lemma PutEvictsOne(c: Cache, k: Key, v: Value, order: seq<Key>)
    requires Inv(c) && c.capacity > 0
    requires k !in c.nodes && |c.nodes| == c.capacity
    requires Enabled(c, Call(Put(k, v), order))
    ensures CanEvict(c)
    ensures
      var out, d := Victim(c), Apply(c, Put(k, v), order).nodes;
      && Least(c.nodes, c.nodes[out].freq) && out == c.lists[c.nodes[out].freq][0]
      && d.Keys == c.nodes.Keys - {out} + {k} && d[k].value == v
      && (forall j | j in c.nodes && j != out :: d[j].value == c.nodes[j].value)
  {
    FullPutTouched(c, k, v);
    MissValues(c, k, v, order);
  }

  /** Counting the access of a put changes neither keys nor values. */
  lemma MissValues(c: Cache, k: Key, v: Value, order: seq<Key>)
    requires Enabled(c, Call(Put(k, v), order)) && c.capacity != 0 && k !in c.nodes && WellLinked(Touched(c, Put(k, v)))
    ensures
      var d, e := Touched(c, Put(k, v)).nodes, Apply(c, Put(k, v), order).nodes;
      e.Keys == d.Keys && forall j | j in d :: e[j].value == d[j].value
  {
    AddFreqNumValues(Touched(c, Put(k, v)), order);
  }

  /** Unless aging runs, such a put leaves every other node's frequency alone, only shortens
      the victim's list by its head and only extends the list of frequency 1 by the new key. */
  lemma PutKeepsOrder(c: Cache, k: Key, v: Value, order: seq<Key>)
    requires Inv(c) && c.capacity > 0
    requires k !in c.nodes && |c.nodes| == c.capacity
    requires Enabled(c, Call(Put(k, v), order)) && !Overflows(Touched(c, Put(k, v)))
    ensures CanEvict(c)
    ensures
      var out, d := Victim(c), Apply(c, Put(k, v), order);
      && (forall j | j in c.nodes && j != out :: d.nodes[j] == c.nodes[j])
      && (forall f ::
           Listing(d.lists, f) ==
           (if f == c.minFreq then c.lists[f][1..] else Listing(c.lists, f)) + if f == 1 then [k] else [])
  {
    FullPutTouched(c, k, v);
    AddFreqNumValues(Touched(c, Put(k, v)), order);
  }

  /** The key leaves its place and goes to the end of the next list. */
  lemma HitListing(c: Cache, op: Op, f: int, i: nat, g: int)
    requires WellLinked(c) && !op.Purge? && op.key in c.nodes && c.capacity != 0 && Ready(c, op)
    requires f == c.nodes[op.key].freq && f in c.lists && i < |c.lists[f]| && c.lists[f][i] == op.key
    ensures Listing(Touched(c, op).lists, g) ==
      (if g == f then c.lists[g][..i] + c.lists[g][i + 1..] else Listing(c.lists, g))
      + if g == f + 1 then [op.key] else []
  {
    LinkedDistinct(c.nodes, c.lists, f);
    WithoutAt(c.lists[f], i);
    MoveListing(c, op.key, f + 1, g);
  }

  /** Unless aging runs, an access to a cached key changes nothing but its node … */
  lemma HitNodes(c: Cache, op: Op, order: seq<Key>)
    requires Inv(c) && InRange(c.maxAverage) && !op.Purge? && op.key in c.nodes && c.capacity != 0
    requires Enabled(c, Call(op, order)) && !Overflows(Touched(c, op))
    ensures
      var d, t := Apply(c, op, order), Touched(c, op);
      d.lists == t.lists && forall j | j in c.nodes && j != op.key :: j in d.nodes && d.nodes[j] == c.nodes[j]
  {
    InvStep(c, op, order);
    AddFreqNumValues(Touched(c, op), order);
  }

  /** … and moves only that key: from its place in the list of its frequency to the end of the
      next one. */
  lemma HitKeepsOrder(c: Cache, op: Op, order: seq<Key>, i: nat)
    requires Inv(c) && InRange(c.maxAverage) && !op.Purge? && op.key in c.nodes && c.capacity != 0
    requires Enabled(c, Call(op, order)) && !Overflows(Touched(c, op))
    requires var f := c.nodes[op.key].freq; f in c.lists && i < |c.lists[f]| && c.lists[f][i] == op.key
    ensures
      var f, d := c.nodes[op.key].freq, Apply(c, op, order);
      && (forall j | j in c.nodes && j != op.key :: j in d.nodes && d.nodes[j] == c.nodes[j])
      && (forall g ::
           Listing(d.lists, g) ==
           (if g == f then c.lists[g][..i] + c.lists[g][i + 1..] else Listing(c.lists, g))
           + if g == f + 1 then [op.key] else [])
  {
    HitNodes(c, op, order);
    forall g {
      HitListing(c, op, c.nodes[op.key].freq, i, g);
    }
  }

  /** What an operation does to the plain map behind the cache. */
  ghost predicate MapStep(c: Cache, op: Op, d: Cache) {
    match op
    case Put(k, v) =>
      if c.capacity == 0 then d.nodes == c.nodes else
        && k in d.nodes && d.nodes[k].value == v
        && (forall j | j in d.nodes && j != k :: j in c.nodes && d.nodes[j].value == c.nodes[j].value)
        && (k in c.nodes || |c.nodes| != c.capacity ==> d.nodes.Keys == c.nodes.Keys + {k})
    case Get(k) =>
      d.nodes.Keys == c.nodes.Keys && forall j | j in d.nodes :: d.nodes[j].value == c.nodes[j].value
    case Purge => d.nodes == map[]
  }

  lemma InsertIsMapStep(c: Cache, b: Cache, k: Key, v: Value)
    requires b == c || (CanEvict(c) && b == Evict(c) && |c.nodes| == c.capacity)
    requires c.capacity != 0 && k !in c.nodes
    ensures MapStep(c, Put(k, v), Insert(b, k, v))
  {
    assert forall j | j in b.nodes :: j in c.nodes && b.nodes[j] == c.nodes[j];
  }

  lemma HitIsMapStep(c: Cache, op: Op)
    requires op.Put? || op.Get?
    requires HasList(c, op.key) && c.capacity != 0
    ensures MapStep(c, op, Touched(c, op))
  {
  }

  lemma TouchedIsMapStep(c: Cache, op: Op)
    requires Ready(c, op) && (c.capacity == 0 ==> c.nodes == map[])
    ensures MapStep(c, op, Touched(c, op))
  {
    if op.Purge? || c.capacity == 0 {
    } else if op.key in c.nodes {
      HitIsMapStep(c, op);
    } else if op.Put? {
      InsertIsMapStep(c, if |c.nodes| == c.capacity then Evict(c) else c, op.key, op.value);
    }
  }

  lemma ApplyIsMapStep(c: Cache, e: Call)
    requires Inv(c) && InRange(c.maxAverage) && Enabled(c, e)
    ensures MapStep(c, e.op, Apply(c, e.op, e.order))
  {
    EmptyAtZero(c);
    TouchedIsMapStep(c, e.op);
    var d := Touched(c, e.op);
    assert WellLinked(d) by { InvStep(c, e.op, e.order); }
    AddFreqNumValues(d, e.order);
  }

  // ---------------------------------------------------------------- histories

  /** The operations of a history, without the aging orders. */
  function Ops(es: seq<Call>): seq<Op> { seq(|es|, i requires 0 <= i < |es| => es[i].op) }

  lemma OpsPrefix(es: seq<Call>, i: nat)
    requires 0 < i <= |es|
    ensures Ops(es[..i]) == Ops(es[..i - 1]) + [es[i - 1].op] && Ops(es[..i])[..i - 1] == Ops(es[..i - 1])
  {
  }

  /** The value of the last put of `k` since the last purge. */
  function LastPut(ops: seq<Op>, k: Key): Option<Value> {
    if ops == [] then None else
      match ops[|ops| - 1]
      case Put(j, v) => if j == k then Some(v) else LastPut(ops[..|ops| - 1], k)
      case Get(_) => LastPut(ops[..|ops| - 1], k)
      case Purge => None
  }

  /** A get answers only with the value most recently put. */
  lemma {:induction false} GetReturnsLastPut(capacity: int, m: int, ss: seq<Cache>, es: seq<Call>, i: nat, k: Key)
    requires InRange(m) && IsRun(capacity, m, ss, es) && i < |ss|
    ensures Lookup(ss[i], k).Some? ==> Lookup(ss[i], k) == LastPut(Ops(es[..i]), k)
  {
    InvInRun(capacity, m, ss, es, i);
    if i > 0 {
      GetReturnsLastPut(capacity, m, ss, es, i - 1, k);
      InvInRun(capacity, m, ss, es, i - 1);
      assert StepAt(ss, es, i - 1);
      ApplyIsMapStep(ss[i - 1], es[i - 1]);
      OpsPrefix(es, i);
      EmptyAtZero(ss[i]);
    }
  }

  lemma EmptyAtZero(c: Cache)
    requires Inv(c)
    ensures c.capacity == 0 ==> c.nodes == map[]
  {
    if c.capacity == 0 {
      assert |c.nodes.Keys| == 0;
    }
  }

  /** The keys put since the last purge. */
  function PutKeys(ops: seq<Op>): set<Key> {
    if ops == [] then {} else
      match ops[|ops| - 1]
      case Put(k, _) => PutKeys(ops[..|ops| - 1]) + {k}
      case Get(_) => PutKeys(ops[..|ops| - 1])
      case Purge => {}
  }

  /** As long as the keys put since the last purge fit, nothing is ever lost: the cache is
      then an ordinary map. */
  lemma NothingLostWhileItFits(capacity: int, m: int, ss: seq<Cache>, es: seq<Call>, i: nat)
    requires InRange(m) && IsRun(capacity, m, ss, es) && i < |ss|
    requires capacity != 0 && (capacity > 0 ==> |PutKeys(Ops(es[..i]))| <= capacity)
    ensures ss[i].nodes.Keys == PutKeys(Ops(es[..i]))
    ensures forall k :: Lookup(ss[i], k) == LastPut(Ops(es[..i]), k)
  {
    KeysWhileItFits(capacity, m, ss, es, i);
    forall k ensures Lookup(ss[i], k) == LastPut(Ops(es[..i]), k) {
      GetReturnsLastPut(capacity, m, ss, es, i, k);
      LastPutKeys(Ops(es[..i]), k);
    }
  }

  lemma {:induction false} KeysWhileItFits(capacity: int, m: int, ss: seq<Cache>, es: seq<Call>, i: nat)
    requires InRange(m) && IsRun(capacity, m, ss, es) && i < |ss|
    requires capacity != 0 && (capacity > 0 ==> |PutKeys(Ops(es[..i]))| <= capacity)
    ensures ss[i].nodes.Keys == PutKeys(Ops(es[..i]))
  {
    if i > 0 {
      var e, before := es[i - 1], PutKeys(Ops(es[..i - 1]));
      OpsPrefix(es, i);
      InvInRun(capacity, m, ss, es, i - 1);
      assert StepAt(ss, es, i - 1);
      ApplyIsMapStep(ss[i - 1], e);
      if !e.op.Purge? {
        SubsetSize(before, PutKeys(Ops(es[..i])));
        KeysWhileItFits(capacity, m, ss, es, i - 1);
        KeysStep(ss[i - 1], e.op, ss[i]);
      }
    }
  }

  lemma KeysStep(c: Cache, op: Op, d: Cache)
    requires MapStep(c, op, d) && c.capacity != 0 && !op.Purge?
    requires op.Put? && c.capacity > 0 ==> |c.nodes.Keys + {op.key}| <= c.capacity
    ensures d.nodes.Keys == c.nodes.Keys + if op.Put? then {op.key} else {}
  {
    if op.Put? && op.key !in c.nodes {
      assert |c.nodes.Keys + {op.key}| == |c.nodes.Keys| + 1;
    }
  }

  lemma {:induction false} LastPutKeys(ops: seq<Op>, k: Key)
    ensures LastPut(ops, k).Some? <==> k in PutKeys(ops)
  {
    if ops != [] {
      LastPutKeys(ops[..|ops| - 1], k);
    }
  }

  lemma SubsetSize<T>(a: set<T>, b: set<T>)
    requires a <= b
    ensures |a| <= |b|
  {
    assert b == a + (b - a);
  }
}
