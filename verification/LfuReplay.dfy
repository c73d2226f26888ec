/** The heap cache over whole histories: what its gets return, in terms of the operations alone. */
module LfuReplay {
  import opened Options
  import opened LfuModel
  import opened LfuInvariant
  import opened LfuRuns
  import opened LfuHistory
  import opened LfuCache

  /** The answer of `op` in state `c`: what a get returns. */
  function Answer(c: Cache, op: Op): Option<Value> {
    if op.Get? then Lookup(c, op.key) else None
  }

  /** `es` are the operations `ops`, and `answers` what they returned in the states `ss`. */
  ghost predicate Answered(ops: seq<Op>, ss: seq<Cache>, es: seq<Call>, answers: seq<Option<Value>>) {
    && |ops| == |es| == |answers| < |ss|
    && forall i | 0 <= i < |ops| :: es[i].op == ops[i] && answers[i] == Answer(ss[i], ops[i])
  }

  lemma AnsweredNext(ops: seq<Op>, n: nat, ss: seq<Cache>, es: seq<Call>, answers: seq<Option<Value>>, e: Call, d: Cache)
    requires n < |ops| && Answered(ops[..n], ss, es, answers) && |ss| == n + 1 && e.op == ops[n]
    ensures Answered(ops[..n + 1], ss + [d], es + [e], answers + [Answer(ss[n], e.op)])
  {
  }

  /** The answers of a run against the plain operations: a get that succeeds returns the last
      value put, and as long as the keys fit it is the lookup in an ordinary map. */
  lemma AnswersAreLastPuts(capacity: int, m: int, ops: seq<Op>, ss: seq<Cache>, es: seq<Call>, answers: seq<Option<Value>>, i: nat)
    requires InRange(m) && IsRun(capacity, m, ss, es) && Answered(ops, ss, es, answers) && i < |ops| && ops[i].Get?
    ensures answers[i].Some? ==> answers[i] == LastPut(ops[..i], ops[i].key)
    ensures 0 < capacity && |PutKeys(ops[..i])| <= capacity ==> answers[i] == LastPut(ops[..i], ops[i].key)
  {
    assert Ops(es[..i]) == ops[..i];
    GetReturnsLastPut(capacity, m, ss, es, i, ops[i].key);
    if 0 < capacity && |PutKeys(ops[..i])| <= capacity {
      NothingLostWhileItFits(capacity, m, ss, es, i);
    }
  }

  /** Any sequence of operations on a new cache, with the answers of its gets. */
  method Replay(capacity: int, maxAverageNum: int, ops: seq<Op>)
    returns (answers: seq<Option<Value>>, ghost ss: seq<Cache>, ghost es: seq<Call>)
    requires InRange(maxAverageNum)
    ensures IsRun(capacity, maxAverageNum, ss, es) && Answered(ops, ss, es, answers)
    ensures |answers| == |ops|
    ensures forall i | 0 <= i < |ops| && ops[i].Get? ::
      && (answers[i].Some? ==> answers[i] == LastPut(ops[..i], ops[i].key))
      && (0 < capacity && |PutKeys(ops[..i])| <= capacity ==> answers[i] == LastPut(ops[..i], ops[i].key))
  {
    var cache := new KLfuCache(capacity, maxAverageNum);
    answers, ss, es := [], [Fresh(capacity, maxAverageNum)], [];
    for n := 0 to |ops|
      invariant IsRun(capacity, maxAverageNum, ss, es) && Answered(ops[..n], ss, es, answers)
      invariant fresh(cache) && cache.Shows(ss[n])
      invariant (forall o | o in cache.cells :: fresh(o)) && forall o | o in cache.chains :: fresh(o)
    {
      var answer;
      ghost var d, e;
      answer, d, e := Perform(cache, ops[n], capacity, maxAverageNum, ss, es);
      AnsweredNext(ops, n, ss, es, answers, e, d);
      answers, ss, es := answers + [answer], ss + [d], es + [e];
    }
    assert ops[..|ops|] == ops;
    forall i | 0 <= i < |ops| && ops[i].Get?
      ensures answers[i].Some? ==> answers[i] == LastPut(ops[..i], ops[i].key)
      ensures 0 < capacity && |PutKeys(ops[..i])| <= capacity ==> answers[i] == LastPut(ops[..i], ops[i].key)
    {
      AnswersAreLastPuts(capacity, maxAverageNum, ops, ss, es, answers, i);
    }
  }

  /** One operation of a run. */
  method Perform(cache: KLfuCache, op: Op, ghost capacity: int, ghost m: int, ghost ss: seq<Cache>, ghost es: seq<Call>)
    returns (answer: Option<Value>, ghost d: Cache, ghost e: Call)
    requires InRange(m) && IsRun(capacity, m, ss, es) && cache.Shows(ss[|es|])
    modifies cache, cache.cells, cache.chains
    ensures cache.Shows(d) && cache.OnlyNew()
    ensures e.op == op && IsRun(capacity, m, ss + [d], es + [e])
    ensures answer == Answer(ss[|es|], op)
  {
    InvInRun(capacity, m, ss, es, |es|);
    InvStep(ss[|es|], op, []);
    ghost var order;
    answer, d, order := Dispatch(cache, op, ss[|es|]);
    e := Call(op, order);
    ExtendRun(capacity, m, ss, es, e, d);
  }

  method Dispatch(cache: KLfuCache, op: Op, ghost c: Cache)
    returns (answer: Option<Value>, ghost d: Cache, ghost order: seq<Key>)
    requires cache.Shows(c) && WellLinked(c) && Ready(c, op)
    modifies cache, cache.cells, cache.chains
    ensures cache.Shows(d) && cache.OnlyNew() && Next(c, Call(op, order), d)
    ensures answer == Answer(c, op)
  {
    answer := None;
    match op
    case Put(k, v) => d, order := cache.Put(k, v, c);
    case Get(k) => answer, d, order := cache.Get(k, c);
    case Purge => d := cache.Purge(c); order := [];
  }
}
