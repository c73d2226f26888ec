/** KHashLfuCache: one LFU cache per slice, each key routed by its hash. */
module LfuSharded {
  import opened Options
  import opened Remainders
  import opened LfuModel
  import opened LfuInvariant
  import opened LfuRuns
  import opened LfuHistory

  /** The capacity of each slice: the total divided by the slices, rounded up. */
  function SliceSize(capacity: nat, n: nat): (r: nat)
    requires n > 0
    ensures capacity <= n * r < capacity + n
  {
    (capacity + n - 1) / n
  }

  function Route(hash: Key -> nat, n: nat, k: Key): (i: nat)
    requires n > 0
    ensures i < n
  {
    hash(k) % n
  }

  ghost predicate ShardNext(hash: Key -> nat, c: seq<Cache>, e: Call, d: seq<Cache>) {
    && |d| == |c| > 0
    && forall i | 0 <= i < |c| ::
         if e.op.Purge? then d[i] == Touched(c[i], Purge)
         else if i == Route(hash, |c|, e.op.key) then Next(c[i], e, d[i])
         else d[i] == c[i]
  }

  ghost predicate IsShardRun(hash: Key -> nat, capacity: nat, n: nat, m: int, ss: seq<seq<Cache>>, es: seq<Call>) {
    && n > 0 && |ss| == |es| + 1
    && ss[0] == seq(n, _ => Fresh(SliceSize(capacity, n), m))
    && forall i | 0 <= i < |es| :: ShardNext(hash, ss[i], es[i], ss[i + 1])
  }

  /** Every slice is a sound cache of its own size that holds only keys routed to it. */
  ghost predicate SliceOk(hash: Key -> nat, n: nat, size: nat, m: int, i: nat, c: Cache)
    requires n > 0
  {
    && Inv(c) && c.maxAverage == m && c.capacity == size
    && forall k | k in c.nodes :: Route(hash, n, k) == i
  }

  lemma {:induction false} SlicesOkInRun(hash: Key -> nat, capacity: nat, n: nat, m: int,
                                         ss: seq<seq<Cache>>, es: seq<Call>, t: nat)
    requires InRange(m) && IsShardRun(hash, capacity, n, m, ss, es) && t < |ss|
    ensures |ss[t]| == n && forall i | 0 <= i < n :: SliceOk(hash, n, SliceSize(capacity, n), m, i, ss[t][i])
  {
    if t > 0 {
      SlicesOkInRun(hash, capacity, n, m, ss, es, t - 1);
      var c, e, d := ss[t - 1], es[t - 1], ss[t];
      assert ShardNext(hash, c, e, d);
      forall i | 0 <= i < n ensures SliceOk(hash, n, SliceSize(capacity, n), m, i, d[i]) {
        SliceStep(hash, n, SliceSize(capacity, n), m, i, c[i], e, d[i]);
      }
    }
  }

  lemma SliceStep(hash: Key -> nat, n: nat, size: nat, m: int, i: nat, c: Cache, e: Call, d: Cache)
    requires InRange(m) && i < n && SliceOk(hash, n, size, m, i, c)
    requires if e.op.Purge? then d == Touched(c, Purge)
             else if i == Route(hash, n, e.op.key) then Next(c, e, d) else d == c
    ensures SliceOk(hash, n, size, m, i, d)
  {
    if e.op.Purge? {
      InvStep(c, Purge, []);
    } else if i == Route(hash, n, e.op.key) {
      InvStep(c, e.op, e.order);
      ApplyIsMapStep(c, e);
    }
  }

  ghost function Entries(c: seq<Cache>): nat {
    if c == [] then 0 else Entries(c[..|c| - 1]) + |c[|c| - 1].nodes|
  }

  lemma {:induction false} EntriesBound(c: seq<Cache>, size: nat)
    requires forall i | 0 <= i < |c| :: |c[i].nodes| <= size
    ensures Entries(c) <= |c| * size
  {
    if c != [] {
      EntriesBound(c[..|c| - 1], size);
    }
  }

  /** Rounding up the slice size costs less than one entry per slice. */
  lemma ShardedSize(hash: Key -> nat, capacity: nat, n: nat, m: int, ss: seq<seq<Cache>>, es: seq<Call>, t: nat)
    requires InRange(m) && IsShardRun(hash, capacity, n, m, ss, es) && t < |ss|
    ensures Entries(ss[t]) < capacity + n
  {
    SlicesOkInRun(hash, capacity, n, m, ss, es, t);
    forall i | 0 <= i < n ensures |ss[t][i].nodes| <= SliceSize(capacity, n) {
      assert SliceOk(hash, n, SliceSize(capacity, n), m, i, ss[t][i]);
    }
    EntriesBound(ss[t], SliceSize(capacity, n));
  }

  /** The sharded cache, too, answers only with the value most recently put. */
  lemma {:induction false} ShardedGet(hash: Key -> nat, capacity: nat, n: nat, m: int,
                                      ss: seq<seq<Cache>>, es: seq<Call>, t: nat, k: Key)
    requires InRange(m) && IsShardRun(hash, capacity, n, m, ss, es) && t < |ss|
    ensures |ss[t]| == n
    ensures Lookup(ss[t][Route(hash, n, k)], k).Some? ==>
              Lookup(ss[t][Route(hash, n, k)], k) == LastPut(Ops(es[..t]), k)
  {
    SlicesOkInRun(hash, capacity, n, m, ss, es, t);
    var i := Route(hash, n, k);
    if t > 0 {
      SlicesOkInRun(hash, capacity, n, m, ss, es, t - 1);
      ShardedGet(hash, capacity, n, m, ss, es, t - 1, k);
      var c, e, d := ss[t - 1][i], es[t - 1], ss[t][i];
      OpsPrefix(es, t);
      assert SliceOk(hash, n, SliceSize(capacity, n), m, i, c) && SliceOk(hash, n, SliceSize(capacity, n), m, i, d);
      assert ShardNext(hash, ss[t - 1], e, ss[t]);
      if !e.op.Purge? && i == Route(hash, n, e.op.key) {
        ApplyIsMapStep(c, e);
        EmptyAtZero(d);
      }
    }
  }

  /** A key is only ever cached in its own slice. */
  lemma OneSlicePerKey(hash: Key -> nat, capacity: nat, n: nat, m: int,
                       ss: seq<seq<Cache>>, es: seq<Call>, t: nat, i: nat, k: Key)
    requires InRange(m) && IsShardRun(hash, capacity, n, m, ss, es) && t < |ss|
    ensures i < |ss[t]| && k in ss[t][i].nodes ==> i == Route(hash, n, k)
  {
    SlicesOkInRun(hash, capacity, n, m, ss, es, t);
  }

  // ---------------------------------------------------------------- when nothing is lost

  /** The keys put since the last purge that belong to slice `i`. */
  function Share(hash: Key -> nat, n: nat, i: nat, ops: seq<Op>): set<Key>
    requires n > 0
  {
    set k | k in PutKeys(ops) && Route(hash, n, k) == i
  }

  lemma ShareGrows(hash: Key -> nat, n: nat, i: nat, ops: seq<Op>, op: Op)
    requires n > 0
    ensures Share(hash, n, i, ops + [op]) ==
      if op.Purge? then {}
      else Share(hash, n, i, ops) + if op.Put? && Route(hash, n, op.key) == i then {op.key} else {}
  {
    assert (ops + [op])[..|ops|] == ops;
  }

  /** One step of a slice that held exactly its share, which still fits. */
  lemma ShareStep(hash: Key -> nat, n: nat, size: nat, m: int, i: nat, c: Cache, e: Call, d: Cache, share: set<Key>)
    requires InRange(m) && i < n && size > 0 && SliceOk(hash, n, size, m, i, c) && c.nodes.Keys == share
    requires !e.op.Purge? && if i == Route(hash, n, e.op.key) then Next(c, e, d) else d == c
    requires e.op.Put? && Route(hash, n, e.op.key) == i ==> |share + {e.op.key}| <= size
    ensures d.nodes.Keys == share + if e.op.Put? && Route(hash, n, e.op.key) == i then {e.op.key} else {}
  {
    if i == Route(hash, n, e.op.key) {
      ApplyIsMapStep(c, e);
      KeysStep(c, e.op, d);
    }
  }

  /** A slice whose share fits holds exactly its share. */
  lemma {:induction false} ShareKept(hash: Key -> nat, capacity: nat, n: nat, m: int,
                                     ss: seq<seq<Cache>>, es: seq<Call>, t: nat, i: nat)
    requires InRange(m) && IsShardRun(hash, capacity, n, m, ss, es) && t < |ss| && capacity > 0 && i < n
    requires |Share(hash, n, i, Ops(es[..t]))| <= SliceSize(capacity, n)
    ensures |ss[t]| == n && ss[t][i].nodes.Keys == Share(hash, n, i, Ops(es[..t]))
  {
    SlicesOkInRun(hash, capacity, n, m, ss, es, t);
    if t > 0 {
      SlicesOkInRun(hash, capacity, n, m, ss, es, t - 1);
      var e, ops := es[t - 1], Ops(es[..t - 1]);
      OpsPrefix(es, t);
      ShareGrows(hash, n, i, ops, e.op);
      assert ShardNext(hash, ss[t - 1], e, ss[t]);
      if !e.op.Purge? {
        SubsetSize(Share(hash, n, i, ops), Share(hash, n, i, Ops(es[..t])));
        ShareKept(hash, capacity, n, m, ss, es, t - 1, i);
        ShareStep(hash, n, SliceSize(capacity, n), m, i, ss[t - 1][i], e, ss[t][i], Share(hash, n, i, ops));
      }
    }
  }

  /** Of any numbers in a window of `len`, a slice gets at most its part. */
  lemma {:induction false} FairShare(hash: Key -> nat, n: nat, i: nat, keys: set<Key>, a: nat, len: nat)
    requires n > 0 && len > 0 && forall k | k in keys :: a <= hash(k) < a + len && hash(k) % n == i
    requires forall j, k | j in keys && k in keys && j != k :: hash(j) != hash(k)
    ensures |keys| <= SliceSize(len, n)
    decreases len
  {
    var low := set k | k in keys && hash(k) + n < a + len;
    var high := keys - low;
    forall j, k | j in high && k in high ensures j == k {
      if j != k {
        if hash(j) < hash(k) {
          ModApart(hash(j), hash(k), n);
        } else {
          ModApart(hash(k), hash(j), n);
        }
      }
    }
    AtMostOne(high);
    assert keys == low + high;
    if len > n {
      FairShare(hash, n, i, low, a, len - n);
      DivShift(len - 1, 1, n);
    } else {
      assert low == {};
      assert SliceSize(len, n) >= 1;
    }
  }

  lemma AtMostOne(s: set<Key>)
    requires forall j, k | j in s && k in s :: j == k
    ensures |s| <= 1
  {
    if j :| j in s {
      assert s == {j};
    }
  }

  /** The sliced cache is an ordinary map as long as each slice's share fits … */
  lemma ShardedKeepsShares(hash: Key -> nat, capacity: nat, n: nat, m: int,
                           ss: seq<seq<Cache>>, es: seq<Call>, t: nat, k: Key)
    requires InRange(m) && IsShardRun(hash, capacity, n, m, ss, es) && t < |ss| && capacity > 0
    requires |Share(hash, n, Route(hash, n, k), Ops(es[..t]))| <= SliceSize(capacity, n)
    ensures |ss[t]| == n && Lookup(ss[t][Route(hash, n, k)], k) == LastPut(Ops(es[..t]), k)
  {
    ShareKept(hash, capacity, n, m, ss, es, t, Route(hash, n, k));
    ShardedGet(hash, capacity, n, m, ss, es, t, k);
    LastPutKeys(Ops(es[..t]), k);
  }

  /** … and that is so whenever the keys' hashes are different numbers in a window no longer than
      the capacity, wherever it lies. */
  lemma ShardedKeepsSpread(hash: Key -> nat, capacity: nat, n: nat, m: int,
                           ss: seq<seq<Cache>>, es: seq<Call>, t: nat, a: nat, k: Key)
    requires InRange(m) && IsShardRun(hash, capacity, n, m, ss, es) && t < |ss| && capacity > 0
    requires forall j | j in PutKeys(Ops(es[..t])) :: a <= hash(j) < a + capacity
    requires forall i, j | i in PutKeys(Ops(es[..t])) && j in PutKeys(Ops(es[..t])) && i != j :: hash(i) != hash(j)
    ensures |ss[t]| == n && Lookup(ss[t][Route(hash, n, k)], k) == LastPut(Ops(es[..t]), k)
  {
    var i := Route(hash, n, k);
    FairShare(hash, n, i, Share(hash, n, i, Ops(es[..t])), a, capacity);
    ShardedKeepsShares(hash, capacity, n, m, ss, es, t, k);
  }
}
