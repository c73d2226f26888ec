/**
 Whole histories of the cache: the invariant holds in every state of every run, the
 cached minimum is exact in all runs for precisely the aging limits 2..250.
 */
module LfuRuns {
  import opened Seqs
  import opened LfuModel
  import opened LfuInvariant

  /** An operation together with the order in which aging, if it runs, visits the nodes. */
  datatype Call = Call(op: Op, order: seq<Key>)

  ghost predicate Enabled(c: Cache, e: Call) {
    && Ready(c, e.op) && AllListed(Touched(c, e.op))
    && IsOrder(e.order, Touched(c, e.op).nodes.Keys)
  }

  ghost predicate Next(c: Cache, e: Call, d: Cache) {
    Enabled(c, e) && d == Apply(c, e.op, e.order)
  }

  /** Step `i` of a run. */
  ghost predicate StepAt(ss: seq<Cache>, es: seq<Call>, i: nat)
    requires i < |es| < |ss|
  {
    Next(ss[i], es[i], ss[i + 1])
  }

  ghost predicate IsRun(capacity: int, m: int, ss: seq<Cache>, es: seq<Call>) {
    && |ss| == |es| + 1 && ss[0] == Fresh(capacity, m)
    && forall i | 0 <= i < |es| :: StepAt(ss, es, i)
  }

  lemma NextKeeps(c: Cache, e: Call, d: Cache)
    requires Inv(c) && InRange(c.maxAverage) && Next(c, e, d)
    ensures Inv(d) && d.maxAverage == c.maxAverage && d.capacity == c.capacity
  {
    InvStep(c, e.op, e.order);
  }

  lemma FreshInv(capacity: int, m: int)
    ensures Inv(Fresh(capacity, m))
  {
    assert Sum(Fresh(capacity, m).nodes) == 0;
  }

  lemma {:induction false} InvInRun(capacity: int, m: int, ss: seq<Cache>, es: seq<Call>, i: nat)
    requires InRange(m) && IsRun(capacity, m, ss, es) && i < |ss|
    ensures Inv(ss[i]) && ss[i].maxAverage == m && ss[i].capacity == capacity
  {
    if i == 0 {
      FreshInv(capacity, m);
    } else {
      InvInRun(capacity, m, ss, es, i - 1);
      assert StepAt(ss, es, i - 1);
      NextKeeps(ss[i - 1], es[i - 1], ss[i]);
    }
  }

  /** No reachable state makes an operation read a missing list or an empty one. */
  lemma NeverStuck(capacity: int, m: int, ss: seq<Cache>, es: seq<Call>, op: Op) returns (d: Cache)
    requires InRange(m) && IsRun(capacity, m, ss, es)
    ensures exists order :: Next(ss[|es|], Call(op, order), d)
  {
    var c := ss[|es|];
    InvInRun(capacity, m, ss, es, |es|);
    InvStep(c, op, []);
    var order := OrderExists(Touched(c, op).nodes.Keys);
    d := Apply(c, op, order);
    assert Next(c, Call(op, order), d);
  }

  /** In every reachable state each cached key sits once, in the list of its own frequency
      and in no other, and the cached minimum is the least frequency in use. */
  lemma EveryStateConsistent(capacity: int, m: int, ss: seq<Cache>, es: seq<Call>, i: nat)
    requires InRange(m) && IsRun(capacity, m, ss, es) && i < |ss|
    ensures forall f | f in ss[i].lists :: Distinct(ss[i].lists[f])
    ensures forall f, k :: (f in ss[i].lists && k in ss[i].lists[f]) <==> (k in ss[i].nodes && ss[i].nodes[k].freq == f)
    ensures ss[i].nodes != map[] ==>
      && ss[i].minFreq in Used(ss[i].lists)
      && forall f | f in Used(ss[i].lists) :: ss[i].minFreq <= f
    ensures ss[i].nodes != map[] ==> 1 <= ss[i].minFreq <= m
    ensures ss[i].total >= Sum(ss[i].nodes) >= 0
    ensures capacity >= 0 ==> |ss[i].nodes| <= capacity
  {
    InvInRun(capacity, m, ss, es, i);
    var c := ss[i];
    forall f | f in c.lists ensures Distinct(c.lists[f]) {
      LinkedDistinct(c.nodes, c.lists, f);
    }
    forall f, k ensures (f in c.lists && k in c.lists[f]) <==> (k in c.nodes && c.nodes[k].freq == f) {
      assert Count(c.lists, f, k) == if k in c.nodes && c.nodes[k].freq == f then 1 else 0;
    }
    SumAtLeast(c.nodes, 0);
    if c.nodes != map[] {
      InvCanEvict(c);
      forall f | f in Used(c.lists) ensures c.minFreq <= f {
        LinkedBack(c.nodes, c.lists, f, c.lists[f][0]);
      }
    }
  }

  // ---------------------------------------------------------------- exactly which limits work

  /** One cached key of frequency `f`, with everything in order. */
  ghost predicate Solo(c: Cache, k: Key, v: Value, f: int) {
    WellLinked(c) && c.nodes == map[k := Entry(v, f)] && c.minFreq == f && c.total == f
  }

  lemma SoloLeast(c: Cache, k: Key, v: Value, f: int)
    requires c.nodes == map[k := Entry(v, f)]
    ensures Least(c.nodes, f) && IsOrder([k], c.nodes.Keys)
    ensures forall g | Least(c.nodes, g) :: g == f
  {
    assert k in c.nodes;
  }

  /** Counting the `f`-th access to the only key. */
  lemma SoloTick(t: Cache, k: Key, v: Value, f: int)
    requires WellLinked(t) && t.nodes == map[k := Entry(v, f)] && t.total == f - 1
    ensures IsOrder([k], t.nodes.Keys)
    ensures
      var e, m := AddFreqNum(t, [k]), t.maxAverage;
      var f' := if f > m then Aged(m, f) else f;
      && WellLinked(e) && e.nodes == map[k := Entry(v, f')] && e.total == f
      && e.minFreq == (if f <= m then t.minFreq else if f' < INT8_MAX then f' else 1)
      && e.capacity == t.capacity && e.maxAverage == m
  {
    SoloLeast(t, k, v, f);
    assert |t.nodes| == 1;
    if f > t.maxAverage {
      AgeResult(Ticked(t), [k], f);
      assert AddFreqNum(t, [k]).nodes == map[k := Entry(v, Aged(t.maxAverage, f))];
    }
  }

  lemma SoloPut(capacity: int, m: int, k: Key, v: Value)
    requires capacity != 0
    ensures Enabled(Fresh(capacity, m), Call(Put(k, v), [k]))
    ensures
      var d := Apply(Fresh(capacity, m), Put(k, v), [k]);
      && d.capacity == capacity && d.maxAverage == m
      && (m >= -1 ==> Solo(d, k, v, 1)) && (m < -1 ==> !ExactMin(d))
  {
    var c := Fresh(capacity, m);
    InsertKeeps(c, k, v);
    var t := Insert(c, k, v);
    assert Touched(c, Put(k, v)) == t;
    SoloTick(t, k, v, 1);
    var e := AddFreqNum(t, [k]);
    var d := Apply(c, Put(k, v), [k]);
    assert d == FloorMin(e);
    SoloLeast(d, k, v, if 1 > m then Aged(m, 1) else 1);
  }

  lemma SoloGet(c: Cache, k: Key, v: Value, f: int)
    requires Solo(c, k, v, f)
    ensures Enabled(c, Call(Get(k), [k]))
    ensures
      var d, m := Apply(c, Get(k), [k]), c.maxAverage;
      var f' := if f >= m then Aged(m, f + 1) else f + 1;
      && d.capacity == c.capacity && d.maxAverage == m
      && WellLinked(d) && d.nodes == map[k := Entry(v, f')] && d.total == f + 1
      && d.minFreq == (if f < m || f' < INT8_MAX then f' else 1)
  {
    SoloLeast(c, k, v, f);
    PromoteKeeps(c, k);
    var t := Promote(c, k);
    assert Touched(c, Get(k)) == t && t.nodes == map[k := Entry(v, f + 1)];
    SoloTick(t, k, v, f + 1);
    assert Apply(c, Get(k), [k]) == AddFreqNum(t, [k]);
  }

  /** The run that puts one key into a fresh cache. */
  lemma SoloStart(capacity: int, m: int, k: Key, v: Value) returns (ss: seq<Cache>, es: seq<Call>)
    requires capacity != 0
    ensures IsRun(capacity, m, ss, es)
    ensures var d := ss[|es|];
      && d.capacity == capacity && d.maxAverage == m
      && (m >= -1 ==> Solo(d, k, v, 1)) && (m < -1 ==> !ExactMin(d))
  {
    SoloPut(capacity, m, k, v);
    es := [Call(Put(k, v), [k])];
    ss := [Fresh(capacity, m), Apply(Fresh(capacity, m), Put(k, v), [k])];
    assert StepAt(ss, es, 0);
  }

  /** Any run can be extended by an operation its last state allows. */
  lemma ExtendRun(capacity: int, m: int, ss: seq<Cache>, es: seq<Call>, e: Call, d: Cache)
    requires IsRun(capacity, m, ss, es) && Next(ss[|es|], e, d)
    ensures IsRun(capacity, m, ss + [d], es + [e])
  {
    var ss', es' := ss + [d], es + [e];
    forall i | 0 <= i < |es'| ensures StepAt(ss', es', i) {
      if i < |es| {
        assert StepAt(ss, es, i);
      }
    }
  }

  /** One more get of the only key. */
  lemma SoloMore(capacity: int, m: int, ss: seq<Cache>, es: seq<Call>, k: Key, v: Value, f: int)
    returns (ss': seq<Cache>, es': seq<Call>)
    requires IsRun(capacity, m, ss, es) && Solo(ss[|es|], k, v, f)
    requires ss[|es|].maxAverage == m && ss[|es|].capacity == capacity
    ensures IsRun(capacity, m, ss', es')
    ensures
      var d := ss'[|es'|];
      var f' := if f >= m then Aged(m, f + 1) else f + 1;
      && d.capacity == capacity && d.maxAverage == m
      && WellLinked(d) && d.nodes == map[k := Entry(v, f')] && d.total == f + 1
      && d.minFreq == (if f < m || f' < INT8_MAX then f' else 1)
  {
    SoloGet(ss[|es|], k, v, f);
    var d := Apply(ss[|es|], Get(k), [k]);
    ExtendRun(capacity, m, ss, es, Call(Get(k), [k]), d);
    ss', es' := ss + [d], es + [Call(Get(k), [k])];
  }

  /** Put one key and get it f - 1 times. */
  lemma {:induction false} SoloRun(capacity: int, m: int, k: Key, v: Value, f: nat)
    returns (ss: seq<Cache>, es: seq<Call>)
    requires capacity != 0 && f >= 1 && m >= -1
    requires f <= m || (m <= 1 && f < INT8_MAX)
    ensures IsRun(capacity, m, ss, es) && Solo(ss[|es|], k, v, f)
    ensures ss[|es|].maxAverage == m && ss[|es|].capacity == capacity
  {
    if f == 1 {
      ss, es := SoloStart(capacity, m, k, v);
    } else {
      ss, es := SoloRun(capacity, m, k, v, f - 1);
      ss, es := SoloMore(capacity, m, ss, es, k, v, f - 1);
    }
  }

  /** Outside 2..250 one key is enough to make the cached minimum wrong. */
  lemma InexactRun(capacity: int, m: int, k: Key, v: Value) returns (ss: seq<Cache>, es: seq<Call>)
    requires capacity != 0 && !InRange(m)
    ensures IsRun(capacity, m, ss, es) && !ExactMin(ss[|es|])
  {
    if m < -1 {
      ss, es := SoloStart(capacity, m, k, v);
    } else {
      var f := if m <= 1 then INT8_MAX - 1 else m;
      ss, es := SoloRun(capacity, m, k, v, f);
      ss, es := SoloMore(capacity, m, ss, es, k, v, f);
      SoloLeast(ss[|es|], k, v, if m <= 1 then INT8_MAX else Aged(m, m + 1));
    }
  }

  ghost predicate AlwaysExact(capacity: int, m: int) {
    forall ss, es, i: nat | IsRun(capacity, m, ss, es) && i < |ss| :: ExactMin(ss[i])
  }

  /** The cached minimum is exact in every state of every run if and only if the aging limit
      lies in 2..250. */
  lemma ExactIffInRange(capacity: int, m: int, k: Key, v: Value)
    requires capacity != 0
    ensures AlwaysExact(capacity, m) <==> InRange(m)
  {
    if InRange(m) {
      forall ss, es, i: nat | IsRun(capacity, m, ss, es) && i < |ss| ensures ExactMin(ss[i]) {
        InvInRun(capacity, m, ss, es, i);
      }
    } else {
      var ss, es := InexactRun(capacity, m, k, v);
    }
  }
}
