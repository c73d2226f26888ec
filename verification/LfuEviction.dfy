/**
 When eviction can go wrong. kickOut takes the first node of the list for the cached minimum;
 if that list is empty it takes a sentinel. For every positive capacity this never happens if
 and only if the aging limit lies in 2..250.
 */
module LfuEviction {
  import opened Seqs
  import opened LfuModel
  import opened LfuInvariant
  import opened LfuRuns

  // ---------------------------------------------------------------- counting an access

  /** The frequency of a node after an access to the cache has been counted. */
  function Counted(d: Cache, f: int): int {
    if Overflows(d) then Aged(d.maxAverage, f) else f
  }

  lemma AfterCounting(d: Cache, order: seq<Key>)
    requires WellLinked(d) && IsOrder(order, d.nodes.Keys) && d.nodes != map[]
    ensures
      var e := AddFreqNum(d, order);
      && WellLinked(e) && e.nodes.Keys == d.nodes.Keys
      && (forall k | k in d.nodes :: e.nodes[k].freq == Counted(d, d.nodes[k].freq))
      && e.total == d.total + 1 && e.capacity == d.capacity && e.maxAverage == d.maxAverage
  {
    AgeAllKeeps(Ticked(d), order);
  }

  /** The list of a frequency that no node has is empty. */
  lemma NoneAt(c: Cache, f: int)
    requires WellLinked(c) && forall k | k in c.nodes :: c.nodes[k].freq != f
    ensures f in c.lists ==> c.lists[f] == []
  {
    if f in c.lists && c.lists[f] != [] {
      LinkedBack(c.nodes, c.lists, f, c.lists[f][0]);
    }
  }

  lemma UsedFrequency(c: Cache, f: int)
    requires WellLinked(c) && f in Used(c.lists)
    ensures exists k :: k in c.nodes && c.nodes[k].freq == f
  {
    LinkedBack(c.nodes, c.lists, f, c.lists[f][0]);
  }

  /** The search for the minimum never goes below 1, and answers 1 if all are at INT8_MAX. */
  lemma FoundMinimum(c: Cache)
    requires WellLinked(c)
    ensures UpdateMin(c).minFreq >= 1
    ensures (forall k | k in c.nodes :: c.nodes[k].freq >= INT8_MAX) ==> UpdateMin(c).minFreq == 1
  {
    var m := MinCapped(Used(c.lists));
    if m != INT8_MAX {
      UsedFrequency(c, m);
    }
  }

  // ---------------------------------------------------------------- all keys in turn

  /** The cache holds exactly `keys`, the first `n` of them at frequency f + 1, the rest at f. */
  ghost predicate Levels(c: Cache, keys: seq<Key>, n: nat, f: int)
    requires n <= |keys|
  {
    && WellLinked(c)
    && (forall k :: k in keys <==> k in c.nodes)
    && (forall i | 0 <= i < |keys| :: keys[i] in c.nodes && c.nodes[keys[i]].freq == if i < n then f + 1 else f)
  }

  /** A run that has used the keys in turn, the last access being number `total`. */
  ghost predicate InTurn(capacity: int, m: int, keys: seq<Key>, n: nat, f: int, ss: seq<Cache>, es: seq<Call>)
    requires n <= |keys|
  {
    && IsRun(capacity, m, ss, es)
    && ss[|es|].capacity == capacity && ss[|es|].maxAverage == m && ss[|es|].total == |keys| * f + n
    && Levels(ss[|es|], keys, n, f)
  }

  lemma SizeOf(c: Cache, keys: seq<Key>)
    requires Distinct(keys) && forall k :: k in keys <==> k in c.nodes
    ensures |c.nodes| == |keys|
  {
    assert IsOrder(keys, c.nodes.Keys);
    OrderLength(keys, c.nodes.Keys);
    assert |c.nodes| == |c.nodes.Keys|;
  }

  lemma AverageAt(size: nat, f: int, n: nat)
    requires n < size
    ensures (size * f + n + 1) / size == if n + 1 == size then f + 1 else f
  {
    var x := size * f + n + 1;
    if n + 1 == size {
      assert x == size * (f + 1);
      DivideExactly(size, f + 1, 0, x);
    } else {
      DivideExactly(size, f, n + 1, x);
    }
  }

  lemma DivideExactly(size: nat, q: int, r: nat, x: int)
    requires size > r && x == size * q + r
    ensures x / size == q
  {
    var d := q - x / size;
    assert x == size * (x / size) + x % size;
    assert size * d == x % size - r;
    MulBound(size, d);
  }

  lemma MulBound(a: nat, b: int)
    ensures b >= 1 ==> a * b >= a
    ensures b <= -1 ==> a * b <= 0 - a
  {
  }

  /** A get of the next key, up to the count. */
  lemma UseNext(c: Cache, keys: seq<Key>, n: nat, f: int)
    requires Distinct(keys) && n < |keys| && Levels(c, keys, n, f)
    ensures HasList(c, keys[n]) && Touched(c, Get(keys[n])) == Promote(c, keys[n])
    ensures Levels(Promote(c, keys[n]), keys, n + 1, f) && Promote(c, keys[n]).nodes.Keys == c.nodes.Keys
  {
    var k := keys[n];
    MoveKeeps(c, k, f + 1);
  }

  /** What the access to key number `n` makes of the average. */
  lemma UseOverflows(c: Cache, keys: seq<Key>, n: nat, f: int)
    requires Distinct(keys) && n < |keys| && Levels(c, keys, n, f) && c.total == |keys| * f + n
    requires HasList(c, keys[n])
    ensures Overflows(Promote(c, keys[n])) <==> (if n + 1 == |keys| then f + 1 else f) > c.maxAverage
  {
    UseNext(c, keys, n, f);
    SizeOf(Promote(c, keys[n]), keys);
    AverageAt(|keys|, f, n);
  }

  /** The run continued by a get of the next key; `d` is the state before the count. */
  lemma ExtendByGet(capacity: int, m: int, keys: seq<Key>, n: nat, f: int, ss: seq<Cache>, es: seq<Call>)
    returns (ss': seq<Cache>, es': seq<Call>, d: Cache, order: seq<Key>)
    requires Distinct(keys) && n < |keys| && InTurn(capacity, m, keys, n, f, ss, es)
    ensures IsRun(capacity, m, ss', es') && IsOrder(order, d.nodes.Keys) && Levels(d, keys, n + 1, f)
    ensures ss'[|es'|] == AddFreqNum(d, order) && d.total == |keys| * f + n
    ensures d.capacity == capacity && d.maxAverage == m
    ensures Overflows(d) <==> (if n + 1 == |keys| then f + 1 else f) > m
  {
    var c, k := ss[|es|], keys[n];
    UseNext(c, keys, n, f);
    UseOverflows(c, keys, n, f);
    d := Promote(c, k);
    order := OrderExists(d.nodes.Keys);
    var e := Call(Get(k), order);
    assert Next(c, e, AddFreqNum(d, order));
    ExtendRun(capacity, m, ss, es, e, AddFreqNum(d, order));
    ss', es' := ss + [AddFreqNum(d, order)], es + [e];
  }

  /** If counting leaves the frequencies alone, the keys are one access further. */
  lemma UseQuietly(capacity: int, m: int, keys: seq<Key>, n: nat, f: int, ss: seq<Cache>, es: seq<Call>)
    returns (ss': seq<Cache>, es': seq<Call>)
    requires Distinct(keys) && n < |keys| && f >= 1 && InTurn(capacity, m, keys, n, f, ss, es)
    requires Half(m) == 0 || (if n + 1 == |keys| then f + 1 else f) <= m
    ensures InTurn(capacity, m, keys, n + 1, f, ss', es')
  {
    var d, order;
    ss', es', d, order := ExtendByGet(capacity, m, keys, n, f, ss, es);
    assert keys[n] in d.nodes;
    AfterCounting(d, order);
  }

  /** After a full turn all keys are one level up. */
  lemma NextTurn(capacity: int, m: int, keys: seq<Key>, f: int, ss: seq<Cache>, es: seq<Call>)
    requires InTurn(capacity, m, keys, |keys|, f, ss, es)
    ensures InTurn(capacity, m, keys, 0, f + 1, ss, es)
  {
    assert |keys| * f + |keys| == |keys| * (f + 1);
  }

  // ---------------------------------------------------------------- filling the cache

  lemma PutNew(c: Cache, k: Key, v: Value, n: nat)
    requires WellLinked(c) && k !in c.nodes && |c.nodes| == n < c.capacity && c.total == n
    ensures
      var d := Insert(c, k, v);
      && Ready(c, Put(k, v)) && Touched(c, Put(k, v)) == d && WellLinked(d)
      && (Overflows(d) <==> 1 > c.maxAverage) && d.total == n
  {
    InsertKeeps(c, k, v);
    var d := Insert(c, k, v);
    assert d.nodes.Keys == c.nodes.Keys + {k};
    assert |d.nodes| == |d.nodes.Keys| == |c.nodes.Keys| + 1 == n + 1;
    OneEach(d);
  }

  /** One access to each key makes an average of 1. */
  lemma OneEach(d: Cache)
    requires |d.nodes| == d.total + 1 > 0
    ensures Overflows(d) <==> 1 > d.maxAverage
  {
    DivideExactly(|d.nodes|, 1, 0, d.total + 1);
  }

  /** The run continued by a put of a new key while there is room. */
  lemma ExtendByPut(capacity: int, m: int, n: nat, k: Key, v: Value, ss: seq<Cache>, es: seq<Call>)
    returns (ss': seq<Cache>, es': seq<Call>, order: seq<Key>)
    requires IsRun(capacity, m, ss, es) && WellLinked(ss[|es|]) && k !in ss[|es|].nodes
    requires |ss[|es|].nodes| == n < capacity && ss[|es|].total == n && ss[|es|].capacity == capacity
    requires ss[|es|].maxAverage == m
    ensures
      var d := Insert(ss[|es|], k, v);
      && IsRun(capacity, m, ss', es') && WellLinked(d) && IsOrder(order, d.nodes.Keys)
      && ss'[|es'|] == FloorMin(AddFreqNum(d, order)) && (Overflows(d) <==> 1 > m) && d.total == n
  {
    var c := ss[|es|];
    PutNew(c, k, v, n);
    var d := Insert(c, k, v);
    order := OrderExists(d.nodes.Keys);
    var e := Call(Put(k, v), order);
    assert Next(c, e, FloorMin(AddFreqNum(d, order)));
    ExtendRun(capacity, m, ss, es, e, FloorMin(AddFreqNum(d, order)));
    ss', es' := ss + [FloorMin(AddFreqNum(d, order))], es + [e];
  }

  /** All keys put once, with a limit that leaves them at frequency 1. */
  lemma {:induction false} Fill(capacity: int, m: int, keys: seq<Key>, v: Value)
    returns (ss: seq<Cache>, es: seq<Call>)
    requires Distinct(keys) && |keys| <= capacity && m >= -1
    ensures InTurn(capacity, m, keys, 0, 1, ss, es)
  {
    if keys == [] {
      ss, es := [Fresh(capacity, m)], [];
    } else {
      var n := |keys| - 1;
      assert keys == keys[..n] + [keys[n]];
      ss, es := Fill(capacity, m, keys[..n], v);
      ss, es := FillOne(capacity, m, keys[..n], keys[n], v, ss, es);
    }
  }

  lemma FillOne(capacity: int, m: int, rest: seq<Key>, k: Key, v: Value, ss: seq<Cache>, es: seq<Call>)
    returns (ss': seq<Cache>, es': seq<Call>)
    requires Distinct(rest) && k !in rest && |rest| < capacity && m >= -1
    requires InTurn(capacity, m, rest, 0, 1, ss, es)
    ensures InTurn(capacity, m, rest + [k], 0, 1, ss', es')
  {
    var c := ss[|es|];
    SizeOf(c, rest);
    var d := Insert(c, k, v);
    var order;
    ss', es', order := ExtendByPut(capacity, m, |rest|, k, v, ss, es);
    assert k in d.nodes;
    AfterCounting(d, order);
    FilledOnce(c, d, AddFreqNum(d, order), rest, k, v);
  }

  lemma FilledOnce(c: Cache, d: Cache, e: Cache, rest: seq<Key>, k: Key, v: Value)
    requires Levels(c, rest, 0, 1) && d == Insert(c, k, v) && WellLinked(e) && e.nodes.Keys == d.nodes.Keys
    requires forall j | j in d.nodes :: e.nodes[j].freq == d.nodes[j].freq
    requires k !in rest
    ensures Levels(FloorMin(e), rest + [k], 0, 1)
  {
    var keys := rest + [k];
    forall j ensures j in keys <==> j in e.nodes {
      assert j in rest <==> j in c.nodes;
      assert j in d.nodes <==> j == k || j in c.nodes;
    }
  }

  /** The keys put once and then used in turn, as long as no aging changes a frequency. */
  lemma {:induction false} Turns(capacity: int, m: int, keys: seq<Key>, v: Value, n: nat, f: nat)
    returns (ss: seq<Cache>, es: seq<Call>)
    requires Distinct(keys) && 0 < |keys| <= capacity && m >= -1 && n < |keys| && f >= 1
    requires Half(m) == 0 || f <= m
    ensures InTurn(capacity, m, keys, n, f, ss, es)
    decreases f, n
  {
    if n > 0 {
      ss, es := Turns(capacity, m, keys, v, n - 1, f);
      ss, es := UseQuietly(capacity, m, keys, n - 1, f, ss, es);
    } else if f > 1 {
      ss, es := Turns(capacity, m, keys, v, |keys| - 1, f - 1);
      ss, es := UseQuietly(capacity, m, keys, |keys| - 1, f - 1, ss, es);
      NextTurn(capacity, m, keys, f - 1, ss, es);
    } else {
      ss, es := Fill(capacity, m, keys, v);
    }
  }

  // ---------------------------------------------------------------- a full cache without a victim

  /** A run that ends with a full cache in which the list for the cached minimum is empty. */
  ghost predicate Stuck(capacity: int, m: int, ss: seq<Cache>, es: seq<Call>) {
    && IsRun(capacity, m, ss, es) && ss[|es|].capacity == capacity
    && |ss[|es|].nodes| == capacity && !CanEvict(ss[|es|])
  }

  /** The access that makes all frequencies INT8_MAX or more. */
  lemma LastAccess(d: Cache, order: seq<Key>, keys: seq<Key>, f: int)
    requires Distinct(keys) && keys != [] && Levels(d, keys, |keys|, f) && IsOrder(order, d.nodes.Keys)
    requires Overflows(d) && Aged(d.maxAverage, f + 1) >= INT8_MAX
    ensures var e := AddFreqNum(d, order); |e.nodes| == |keys| && e.capacity == d.capacity && !CanEvict(e)
  {
    var e, a := AddFreqNum(d, order), AgeAll(Ticked(d), order);
    assert keys[0] in d.nodes;
    AfterCounting(d, order);
    SizeOf(e, keys);
    assert e == UpdateMin(a);
    assert WellLinked(a) && a.nodes == e.nodes by {
      AgeAllKeeps(Ticked(d), order);
    }
    forall k | k in e.nodes ensures e.nodes[k].freq >= INT8_MAX {
      assert k in d.nodes && k in keys;
    }
    FoundMinimum(a);
    NoneAt(e, 1);
  }

  /** Limits that are too large, or at which aging subtracts nothing. */
  lemma StuckByUse(capacity: int, m: int, keys: seq<Key>, v: Value) returns (ss: seq<Cache>, es: seq<Call>)
    requires Distinct(keys) && |keys| == capacity > 0 && !InRange(m) && m >= -1
    ensures Stuck(capacity, m, ss, es)
  {
    var f, n := if m <= 1 then INT8_MAX - 1 else m, |keys| - 1;
    ss, es := Turns(capacity, m, keys, v, n, f);
    var d, order;
    ss, es, d, order := ExtendByGet(capacity, m, keys, n, f, ss, es);
    LastAccess(d, order, keys, f);
  }

  /** With a negative limit aging raises the frequencies: a new key does not stay at 1. */
  ghost predicate Raised(capacity: int, m: int, keys: seq<Key>, ss: seq<Cache>, es: seq<Call>) {
    && IsRun(capacity, m, ss, es)
    && ss[|es|].capacity == capacity && ss[|es|].maxAverage == m && ss[|es|].total == |keys|
    && RaisedState(ss[|es|], keys)
  }

  ghost predicate RaisedState(c: Cache, keys: seq<Key>) {
    && WellLinked(c) && (forall k :: k in keys <==> k in c.nodes)
    && (forall k | k in c.nodes :: c.nodes[k].freq >= 2) && (keys != [] ==> c.minFreq == 1)
  }

  lemma {:induction false} FillRaised(capacity: int, m: int, keys: seq<Key>, v: Value)
    returns (ss: seq<Cache>, es: seq<Call>)
    requires Distinct(keys) && |keys| <= capacity && m < -1
    ensures Raised(capacity, m, keys, ss, es)
  {
    if keys == [] {
      ss, es := [Fresh(capacity, m)], [];
    } else {
      var n := |keys| - 1;
      assert keys == keys[..n] + [keys[n]];
      ss, es := FillRaised(capacity, m, keys[..n], v);
      ss, es := RaiseOne(capacity, m, keys[..n], keys[n], v, ss, es);
    }
  }

  lemma RaiseOne(capacity: int, m: int, rest: seq<Key>, k: Key, v: Value, ss: seq<Cache>, es: seq<Call>)
    returns (ss': seq<Cache>, es': seq<Call>)
    requires Distinct(rest) && k !in rest && |rest| < capacity && m < -1
    requires Raised(capacity, m, rest, ss, es)
    ensures Raised(capacity, m, rest + [k], ss', es')
  {
    var c := ss[|es|];
    SizeOf(c, rest);
    var d := Insert(c, k, v);
    var order;
    ss', es', order := ExtendByPut(capacity, m, |rest|, k, v, ss, es);
    assert k in d.nodes;
    AfterCounting(d, order);
    RaisedMinimum(d, order);
    RaisedOnce(c, d, AddFreqNum(d, order), rest, k, v);
  }

  lemma RaisedMinimum(d: Cache, order: seq<Key>)
    requires WellLinked(d) && IsOrder(order, d.nodes.Keys) && d.nodes != map[] && Overflows(d)
    ensures AddFreqNum(d, order).minFreq >= 1
  {
    AgeAllKeeps(Ticked(d), order);
    FoundMinimum(AgeAll(Ticked(d), order));
  }

  lemma RaisedOnce(c: Cache, d: Cache, e: Cache, rest: seq<Key>, k: Key, v: Value)
    requires RaisedState(c, rest) && d == Insert(c, k, v) && WellLinked(e) && e.nodes.Keys == d.nodes.Keys
    requires forall j | j in d.nodes :: e.nodes[j].freq > d.nodes[j].freq
    requires k !in rest && e.minFreq >= 1
    ensures RaisedState(FloorMin(e), rest + [k])
  {
    var keys := rest + [k];
    forall j ensures j in keys <==> j in e.nodes {
      assert j in rest <==> j in c.nodes;
      assert j in d.nodes <==> j == k || j in c.nodes;
    }
  }

  lemma StuckByFilling(capacity: int, m: int, keys: seq<Key>, v: Value) returns (ss: seq<Cache>, es: seq<Call>)
    requires Distinct(keys) && |keys| == capacity > 0 && m < -1
    ensures Stuck(capacity, m, ss, es)
  {
    ss, es := FillRaised(capacity, m, keys, v);
    SizeOf(ss[|es|], keys);
    NoneAt(ss[|es|], 1);
  }

  // ---------------------------------------------------------------- exactly which limits are safe

  /** In every run a full cache has a node to evict. */
  ghost predicate AlwaysEvicts(capacity: int, m: int) {
    forall ss: seq<Cache>, es, i: nat | IsRun(capacity, m, ss, es) && i < |ss| && |ss[i].nodes| == capacity :: CanEvict(ss[i])
  }

  /** For every positive capacity that the keys can fill, a full cache always has a node to evict
      if and only if the aging limit lies in 2..250. */
  lemma EvictsIffInRange(capacity: int, m: int, keys: seq<Key>, v: Value)
    requires Distinct(keys) && |keys| == capacity > 0
    ensures AlwaysEvicts(capacity, m) <==> InRange(m)
  {
    if InRange(m) {
      forall ss: seq<Cache>, es, i: nat | IsRun(capacity, m, ss, es) && i < |ss| && |ss[i].nodes| == capacity
        ensures CanEvict(ss[i])
      {
        InvInRun(capacity, m, ss, es, i);
        InvCanEvict(ss[i]);
      }
    } else {
      var ss, es := StuckRun(capacity, m, keys, v);
    }
  }

  lemma StuckRun(capacity: int, m: int, keys: seq<Key>, v: Value) returns (ss: seq<Cache>, es: seq<Call>)
    requires Distinct(keys) && |keys| == capacity > 0 && !InRange(m)
    ensures Stuck(capacity, m, ss, es)
  {
    if m < -1 {
      ss, es := StuckByFilling(capacity, m, keys, v);
    } else {
      ss, es := StuckByUse(capacity, m, keys, v);
    }
  }

  /** In every run every operation finds the nodes and lists it reads. */
  ghost predicate AlwaysReady(capacity: int, m: int) {
    forall ss, es, i: nat, op | IsRun(capacity, m, ss, es) && i < |ss| :: Ready(ss[i], op)
  }

  /** With one key more than fits, that is the same as no operation ever reading a sentinel. */
  lemma ReadyIffInRange(capacity: int, m: int, keys: seq<Key>, v: Value)
    requires Distinct(keys) && |keys| == capacity + 1 > 1
    ensures AlwaysReady(capacity, m) <==> InRange(m)
  {
    if InRange(m) {
      forall ss, es, i: nat, op | IsRun(capacity, m, ss, es) && i < |ss| ensures Ready(ss[i], op) {
        InvInRun(capacity, m, ss, es, i);
        InvStep(ss[i], op, []);
      }
    } else {
      var ss, es := StuckRun(capacity, m, keys[..capacity], v);
      var c := ss[|es|];
      var k := OneMissing(c.nodes.Keys, keys);
      assert !Ready(c, Put(k, v));
    }
  }

  /** Of more distinct keys than a set has elements, one is not in the set. */
  lemma {:induction false} OneMissing(s: set<Key>, keys: seq<Key>) returns (k: Key)
    requires Distinct(keys) && |keys| > |s|
    ensures k in keys && k !in s
  {
    var n := |keys| - 1;
    k := keys[n];
    if k in s {
      k := OneMissing(s - {k}, keys[..n]);
      assert k in keys[..n] && k != keys[n];
    }
  }
}
