/**
 * Sending several SOAP requests through the single-request use case, one after the other or in
 * parallel, counting successes and failures and, on request, stopping at the first failure.
 *
 * Parallel sending is modelled by the order in which the requests complete, a permutation of
 * their indices given as a parameter: the results are collected in that order with the same
 * accounting as the sequential loop. Threads, the worker limit and the cancellation of futures
 * are not modelled.
 */
module BatchSendUseCase {
  import opened Wrappers
  import opened Values
  import U = SendSoapRequestUseCase
  import V = ValidationService

  /** `BatchSendCommand` */
  datatype BatchCommand = BatchCommand(requests: seq<U.Command>, parallel: bool, maxWorkers: int, stopOnError: bool)

  /** `BatchSendResult` */
  datatype BatchResult = BatchResult(total: int, successful: int, failed: int, results: seq<U.SendResult>)

  /** The result the single-request use case returns for one command. */
  function Outcome(service: U.Service, c: U.Command): U.SendResult {
    U.Decide(service, c, V.EndpointErrors(c.endpoint))
  }

  /** The result of every command, in the order of the commands. */
  function Outcomes(service: U.Service, cs: seq<U.Command>): (o: seq<U.SendResult>)
    ensures |o| == |cs|
    decreases |cs|
  {
    if |cs| == 0 then [] else Outcomes(service, cs[..|cs| - 1]) + [Outcome(service, cs[|cs| - 1])]
  }

  /** Each command's result sits at the command's own index. */
  lemma {:induction false} OutcomeAt(service: U.Service, cs: seq<U.Command>, i: nat)
    requires i < |cs|
    ensures Outcomes(service, cs)[i] == Outcome(service, cs[i])
    decreases |cs|
  {
    if i < |cs| - 1 {
      OutcomeAt(service, cs[..|cs| - 1], i);
    }
  }

  /** How many of the results are successes. */
  function CountSuccess(rs: seq<U.SendResult>): (n: nat)
    ensures n <= |rs|
    decreases |rs|
  {
    if |rs| == 0 then 0 else CountSuccess(rs[..|rs| - 1]) + (if rs[|rs| - 1].success then 1 else 0)
  }

  predicate AllSucceed(rs: seq<U.SendResult>) {
    forall i :: 0 <= i < |rs| ==> rs[i].success
  }

  /** The index of the first failure, or the length when every result is a success. */
  function FirstFailure(rs: seq<U.SendResult>): (k: nat)
    ensures k <= |rs| && AllSucceed(rs[..k]) && (k < |rs| ==> !rs[k].success)
    decreases |rs|
  {
    if |rs| == 0 then 0
    else if !rs[0].success then 0
    else
      var k := FirstFailure(rs[1..]);
      assert forall i :: 1 <= i < k + 1 ==> rs[i] == rs[1..][..k][i - 1];
      k + 1
  }

  /** The results collected: all of them, or with stop-on-error those up to and including the first failure. */
  function Kept(rs: seq<U.SendResult>, stop: bool): seq<U.SendResult> {
    if stop && FirstFailure(rs) < |rs| then rs[..FirstFailure(rs) + 1] else rs
  }

  /** The batch result over the results in the order they are collected. */
  function Accumulate(rs: seq<U.SendResult>, stop: bool, total: int): BatchResult {
    var k := Kept(rs, stop);
    BatchResult(total, CountSuccess(k), |k| - CountSuccess(k), k)
  }

  /** A completion order: every index below `n` exactly once. */
  predicate IsOrder(order: seq<nat>, n: nat) {
    && |order| == n
    && (forall i :: 0 <= i < n ==> order[i] < n)
    && (forall j :: 0 <= j < n ==> j in order)
    && (forall i, k :: 0 <= i < k < n ==> order[i] != order[k])
  }

  /** The order of the commands themselves. */
  function InOrder(n: nat): (order: seq<nat>)
    ensures IsOrder(order, n) && forall i :: 0 <= i < n ==> order[i] == i
  {
    var order := seq(n, i requires 0 <= i < n => i);
    assert forall j :: 0 <= j < n ==> j in order by {
      forall j | 0 <= j < n ensures j in order {
        assert order[j] == j;
      }
    }
    order
  }

  /** The results in a completion order. */
  function Completed(o: seq<U.SendResult>, order: seq<nat>): (c: seq<U.SendResult>)
    requires forall i :: 0 <= i < |order| ==> order[i] < |o|
    ensures |c| == |order| && forall i :: 0 <= i < |order| ==> c[i] == o[order[i]]
  {
    seq(|order|, i requires 0 <= i < |order| => o[order[i]])
  }

  /** What `run` gives for the commands in a completion order. */
  ghost function Collected(run: U.Command -> U.SendResult, requests: seq<U.Command>, order: seq<nat>): (c: seq<U.SendResult>)
    requires forall i :: 0 <= i < |order| ==> order[i] < |requests|
    ensures |c| == |order| && forall i :: 0 <= i < |order| ==> c[i] == run(requests[order[i]])
  {
    seq(|order|, i requires 0 <= i < |order| => run(requests[order[i]]))
  }

  /** One call of the single-request use case; `run` stands for what it returns. */
  method SendOne(service: U.Service, c: U.Command, ghost run: U.Command -> U.SendResult) returns (r: U.SendResult)
    requires forall c' {:trigger Outcome(service, c')} :: run(c') == Outcome(service, c')
    ensures r == run(c)
  {
    r := U.Execute(service, c);
    assert r == Outcome(service, c);
  }

  /**
   * The collecting loop shared by `_execute_sequential` (commands in their own order) and
   * `_execute_parallel` (commands in completion order).
   */
  method Gather(service: U.Service, requests: seq<U.Command>, order: seq<nat>, stop: bool,
                ghost run: U.Command -> U.SendResult) returns (r: BatchResult)
    requires forall i :: 0 <= i < |order| ==> order[i] < |requests|
    requires forall c' {:trigger Outcome(service, c')} :: run(c') == Outcome(service, c')
    ensures r == Accumulate(Collected(run, requests, order), stop, |requests|)
  {
    ghost var done := Collected(run, requests, order);
    var results: seq<U.SendResult> := [];
    var successful, failed := 0, 0;
    var i := 0;
    while i < |order|
      invariant 0 <= i <= |order|
      invariant results == done[..i]
      invariant stop ==> AllSucceed(results)
      invariant successful == CountSuccess(results)
      invariant successful + failed == i
    {
      var result := SendOne(service, requests[order[i]], run);
      GatherStep(done, i, results, result);
      results := results + [result];
      if result.success {
        successful := successful + 1;
      } else {
        failed := failed + 1;
        if stop {
          assert FirstFailure(done) == i by { FirstFailureAt(done, i); }
          return BatchResult(|requests|, successful, failed, results);
        }
      }
      i := i + 1;
    }
    assert done[..i] == done;
    r := BatchResult(|requests|, successful, failed, results);
  }

  /** One more collected result extends the collected prefix and its counts. */
  lemma GatherStep(done: seq<U.SendResult>, i: nat, results: seq<U.SendResult>, result: U.SendResult)
    requires i < |done| && results == done[..i] && result == done[i]
    ensures results + [result] == done[..i + 1]
    ensures CountSuccess(results + [result]) == CountSuccess(results) + (if result.success then 1 else 0)
    ensures AllSucceed(results) && result.success ==> AllSucceed(results + [result])
  {
    assert (results + [result])[..i] == results;
  }

  /** Collecting the use case's results in a completion order is reordering the results of the commands. */
  lemma CollectedOutcomes(service: U.Service, requests: seq<U.Command>, order: seq<nat>)
    requires forall i :: 0 <= i < |order| ==> order[i] < |requests|
    ensures Collected(c => Outcome(service, c), requests, order) == Completed(Outcomes(service, requests), order)
  {
    forall i | 0 <= i < |order|
      ensures Completed(Outcomes(service, requests), order)[i] == Outcome(service, requests[order[i]])
    {
      OutcomeAt(service, requests, order[i]);
    }
  }

  /** A failure after only successes is the first failure. */
  lemma FirstFailureAt(rs: seq<U.SendResult>, i: nat)
    requires i < |rs| && AllSucceed(rs[..i]) && !rs[i].success
    ensures FirstFailure(rs) == i
  {
  }

  /** `execute`: sequential unless parallel is asked for; `order` is the completion order of a parallel run. */
  method ExecuteBatch(service: U.Service, c: BatchCommand, order: seq<nat>) returns (r: BatchResult)
    requires c.parallel ==> IsOrder(order, |c.requests|)
    ensures !c.parallel ==> r == Accumulate(Outcomes(service, c.requests), c.stopOnError, |c.requests|)
    ensures c.parallel ==> r == Accumulate(Completed(Outcomes(service, c.requests), order), c.stopOnError, |c.requests|)
  {
    ghost var run := c' => Outcome(service, c');
    if c.parallel {
      r := Gather(service, c.requests, order, c.stopOnError, run);
      CollectedOutcomes(service, c.requests, order);
    } else {
      var o := InOrder(|c.requests|);
      r := Gather(service, c.requests, o, c.stopOnError, run);
      CollectedOutcomes(service, c.requests, o);
      assert Completed(Outcomes(service, c.requests), o) == Outcomes(service, c.requests);
    }
  }

  // ---------------------------------------------------------------------------
  // Accounting

  lemma {:induction false} CountAllSucceed(rs: seq<U.SendResult>)
    requires AllSucceed(rs)
    ensures CountSuccess(rs) == |rs|
    decreases |rs|
  {
    if |rs| > 0 {
      CountAllSucceed(rs[..|rs| - 1]);
    }
  }

  /**
   * Every collected result is counted once, as a success or a failure; the results are the first of
   * those in collection order; without stop-on-error they are all of them; with it, at most one
   * failure is collected and it is the last result.
   */
  lemma AccumulateCounts(rs: seq<U.SendResult>, stop: bool, total: int)
    ensures var b := Accumulate(rs, stop, total);
            && b.successful + b.failed == |b.results| && 0 <= b.failed
            && b.results <= rs
            && (!stop ==> b.results == rs)
            && (stop ==> b.failed <= 1 && AllSucceed(b.results[..|b.results| - b.failed]))
            && (stop && b.failed == 1 ==> !b.results[|b.results| - 1].success)
            && (stop && AllSucceed(rs) ==> b.results == rs && b.failed == 0)
  {
    var k := FirstFailure(rs);
    if stop && k < |rs| {
      var kept := rs[..k + 1];
      assert kept[..k] == rs[..k];
      CountAllSucceed(rs[..k]);
      assert CountSuccess(kept) == k;
    } else if stop {
      assert rs[..k] == rs;
      CountAllSucceed(rs);
    }
    if stop && AllSucceed(rs) && k < |rs| {
      assert false;
    }
  }

  // ---------------------------------------------------------------------------
  // Parallel and sequential totals agree

  /** The successful indices among those a completion order has reached. */
  function Reached(o: seq<U.SendResult>, order: seq<nat>): set<nat>
    requires forall i :: 0 <= i < |order| ==> order[i] < |o|
  {
    set j | j in order && j < |o| && o[j].success
  }

  /** Extending a completion order by one index adds that index to the reached successes when it succeeded. */
  lemma ReachedStep(o: seq<U.SendResult>, p: seq<nat>, x: nat)
    requires forall i :: 0 <= i < |p| ==> p[i] < |o|
    requires x < |o| && x !in p
    ensures Reached(o, p + [x]) == if o[x].success then Reached(o, p) + {x} else Reached(o, p)
    ensures x !in Reached(o, p)
  {
    forall j ensures j in p + [x] <==> j in p || j == x {
    }
  }

  lemma {:induction false} CountCompleted(o: seq<U.SendResult>, order: seq<nat>)
    requires forall i :: 0 <= i < |order| ==> order[i] < |o|
    requires forall i, k :: 0 <= i < k < |order| ==> order[i] != order[k]
    ensures CountSuccess(Completed(o, order)) == |Reached(o, order)|
    decreases |order|
  {
    if |order| > 0 {
      var m := |order| - 1;
      var p := order[..m];
      var x := order[m];
      CountCompleted(o, p);
      var c := Completed(o, order);
      assert c[..m] == Completed(o, p);
      assert CountSuccess(c) == CountSuccess(Completed(o, p)) + (if o[x].success then 1 else 0);
      assert x !in p;
      assert order == p + [x];
      ReachedStep(o, p, x);
    }
  }

  /** Without stop-on-error, a parallel run reports the same totals as a sequential one. */
  lemma ParallelSameTotals(o: seq<U.SendResult>, order: seq<nat>, total: int)
    requires IsOrder(order, |o|)
    ensures Accumulate(Completed(o, order), false, total).successful == Accumulate(o, false, total).successful
    ensures Accumulate(Completed(o, order), false, total).failed == Accumulate(o, false, total).failed
  {
    var id := InOrder(|o|);
    CountCompleted(o, order);
    CountCompleted(o, id);
    assert Completed(o, id) == o;
    assert Reached(o, order) == Reached(o, id);
  }

  /**
   * Three requests where the second fails: all three are sent with two successes and one failure;
   * with stop-on-error only the first two are collected.
   */
  lemma ThreeRequestsOneFailing(r1: U.SendResult, r2: U.SendResult, r3: U.SendResult)
    requires r1.success && !r2.success && r3.success
    ensures Accumulate([r1, r2, r3], false, 3) == BatchResult(3, 2, 1, [r1, r2, r3])
    ensures Accumulate([r1, r2, r3], true, 3) == BatchResult(3, 1, 1, [r1, r2])
  {
    var rs := [r1, r2, r3];
    FirstFailureAt(rs, 1);
    assert rs[..2] == [r1, r2] && [r1, r2][..1] == [r1] && [r1][..0] == [];
    assert CountSuccess([r1]) == 1 && CountSuccess([r1, r2]) == 1;
  }

  // ---------------------------------------------------------------------------
  // to_dict

  /** `BatchSendResult.to_dict` */
  function BatchToDict(b: BatchResult): (d: seq<(string, Value)>)
    ensures |d| == 4 && d[3].0 == "results" && d[3].1.VList? && |d[3].1.items| == |b.results|
    ensures forall i :: 0 <= i < |b.results| ==> d[3].1.items[i] == VDict(U.ResultToDict(b.results[i]))
  {
    [("total", VInt(b.total)), ("successful", VInt(b.successful)), ("failed", VInt(b.failed)),
     ("results", VList(seq(|b.results|, i requires 0 <= i < |b.results| => VDict(U.ResultToDict(b.results[i])))))]
  }
}
