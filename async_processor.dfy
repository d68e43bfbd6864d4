/**
 The aggregation engine: one request fanned out to N services, each call
 bounded by a per-call timeout, and the N outcomes combined under one of
 four policies (fail-fast, fail-partial, fail-soft, completion order).

 The threads are not modelled. What a service does is given by its
 `Completion` (value or failure, and when), and the order in which calls
 finish is a permutation supplied by the caller of the model.
 */
module AsyncProcessor {
  import opened Strings
  import opened Microservice

  /** The fixed per-call deadline, in milliseconds. */
  const PerServiceTimeoutMs: nat := 500

  const SizeMismatch: string := "Services and messages size mismatch"

  /** The settled state of one timed call. */
  datatype Outcome = Ok(value: string) | Failed(message: string) | TimedOut

  datatype Error =
    | InvalidArgument(message: string)  // the pre-check on list lengths
    | CallFailure(message: string)      // a call completed with an error
    | CallTimeout                       // a call missed its deadline

  datatype Result<T> = Success(value: T) | Failure(error: Error)

  predicate AllOk(os: seq<Outcome>)
  {
    forall i :: 0 <= i < |os| ==> os[i].Ok?
  }

  /** The error a failed or timed-out call reports. */
  function ErrorOf(o: Outcome): Error
    requires !o.Ok?
  {
    if o.Failed? then CallFailure(o.message) else CallTimeout
  }

  // ---------------------------------------------------------------------
  // The per-call timeout
  // ---------------------------------------------------------------------

  /** `timedRetrieve`: the call raced against the deadline. A call that has
      not settled strictly before the deadline is a timeout, and whatever it
      does later is discarded. */
  function TimedRetrieve(c: Completion): (o: Outcome)
    ensures c.Hangs? ==> o.TimedOut?
    ensures o.Ok? <==> c.Completes? && c.atMs < PerServiceTimeoutMs
    ensures o.Failed? <==> c.Fails? && c.atMs < PerServiceTimeoutMs
    ensures o.Ok? ==> o.value == c.value
    ensures o.Failed? ==> o.message == c.message
  {
    match c
    case Completes(v, t) => if t < PerServiceTimeoutMs then Ok(v) else TimedOut
    case Fails(m, t) => if t < PerServiceTimeoutMs then Failed(m) else TimedOut
    case Hangs => TimedOut
  }

  /** When the timed call settles: its own time, or the deadline. */
  function SettleTime(c: Completion): (t: nat)
    ensures t <= PerServiceTimeoutMs
    ensures TimedRetrieve(c).TimedOut? <==> t == PerServiceTimeoutMs
  {
    match c
    case Hangs => PerServiceTimeoutMs
    case _ => if c.atMs < PerServiceTimeoutMs then c.atMs else PerServiceTimeoutMs
  }

  /** When `allOf` over the timed calls settles: once every call has. */
  function AllSettled(calls: seq<Completion>): (t: nat)
    ensures t <= PerServiceTimeoutMs
    ensures forall i :: 0 <= i < |calls| ==> SettleTime(calls[i]) <= t
    ensures |calls| > 0 ==> exists i :: 0 <= i < |calls| && t == SettleTime(calls[i])
  {
    if |calls| == 0 then 0
    else
      var rest := AllSettled(calls[1..]);
      var first := SettleTime(calls[0]);
      assert forall i :: 1 <= i < |calls| ==> calls[i] == calls[1..][i - 1];
      if first < rest then rest else first
  }

  // ---------------------------------------------------------------------
  // Dispatch
  // ---------------------------------------------------------------------

  /** Every service called with the message at its own position. */
  function Dispatch(services: seq<Service>, messages: seq<string>): seq<Completion>
    requires |services| == |messages|
  {
    seq(|services|, i requires 0 <= i < |services| => services[i](messages[i]))
  }

  /** The same message sent to every service. */
  function Broadcast(services: seq<Service>, message: string): seq<Completion>
  {
    seq(|services|, i requires 0 <= i < |services| => services[i](message))
  }

  function Settle(calls: seq<Completion>): seq<Outcome>
  {
    seq(|calls|, i requires 0 <= i < |calls| => TimedRetrieve(calls[i]))
  }

  // ---------------------------------------------------------------------
  // Combining outcomes
  // ---------------------------------------------------------------------

  /** The index of the first failed or timed-out outcome, or |os| if none. */
  function FirstFailure(os: seq<Outcome>): (k: nat)
    ensures k <= |os|
    ensures forall i :: 0 <= i < k ==> os[i].Ok?
    ensures k < |os| ==> !os[k].Ok?
  {
    if |os| == 0 || !os[0].Ok? then 0
    else
      var k := FirstFailure(os[1..]);
      assert forall i :: 1 <= i < k + 1 ==> os[i] == os[1..][i - 1];
      1 + k
  }

  /** The values of the `Ok` outcomes, in input order (a filter). */
  function OkValues(os: seq<Outcome>): (r: seq<string>)
    ensures |r| <= |os|
  {
    if |os| == 0 then []
    else
      var init := OkValues(os[..|os| - 1]);
      match os[|os| - 1]
      case Ok(v) => init + [v]
      case _ => init
  }

  /** The input positions of the `Ok` outcomes, in increasing order. */
  function OkPositions(os: seq<Outcome>): (p: seq<nat>)
    ensures forall j :: 0 <= j < |p| ==> p[j] < |os| && os[p[j]].Ok?
    ensures forall j, k :: 0 <= j < k < |p| ==> p[j] < p[k]
    ensures forall i :: 0 <= i < |os| && os[i].Ok? ==> i in p
  {
    if |os| == 0 then []
    else
      var n := |os| - 1;
      var init := OkPositions(os[..n]);
      assert forall i :: 0 <= i < n ==> os[..n][i] == os[i];
      if os[n].Ok? then init + [n] else init
  }

  /** Fail-fast: the values joined by single spaces, or the error of a
      failing call. */
  function FailFast(os: seq<Outcome>): (r: Result<string>)
    ensures r.Success? <==> AllOk(os)
    ensures r.Success? ==> r.value == Join(OkValues(os), " ")
    ensures r.Failure? ==> exists i :: 0 <= i < |os| && !os[i].Ok? && r.error == ErrorOf(os[i])
  {
    var k := FirstFailure(os);
    if k < |os| then Failure(ErrorOf(os[k])) else Success(Join(OkValues(os), " "))
  }

  /** Each failed or timed-out position replaced by the fallback. */
  function Substitute(os: seq<Outcome>, fallback: string): seq<string>
  {
    seq(|os|, i requires 0 <= i < |os| => if os[i].Ok? then os[i].value else fallback)
  }

  /** Fail-soft: the substituted values joined by single spaces. */
  function FailSoft(os: seq<Outcome>, fallback: string): (r: string)
    ensures |os| == 1 ==> r == if os[0].Ok? then os[0].value else fallback
  {
    Join(Substitute(os, fallback), " ")
  }

  /** The outcomes rearranged into the order in which the calls finished. */
  function Reorder(os: seq<Outcome>, order: seq<nat>): seq<Outcome>
    requires forall k :: 0 <= k < |order| ==> order[k] < |os|
  {
    seq(|order|, k requires 0 <= k < |order| => os[order[k]])
  }

  function Indices(n: nat): seq<nat>
  {
    seq(n, i requires 0 <= i < n => i)
  }

  /** `order` lists every index below n exactly once. */
  predicate IsPermutation(order: seq<nat>, n: nat)
  {
    && |order| == n
    && (forall k :: 0 <= k < |order| ==> order[k] < n)
    && multiset(order) == multiset(Indices(n))
  }

  // ---------------------------------------------------------------------
  // The processor's operations
  // ---------------------------------------------------------------------

  /** `processAsyncFailFast`. */
  function ProcessAsyncFailFast(services: seq<Service>, messages: seq<string>): (r: Result<string>)
    ensures |services| != |messages| ==> r == Failure(InvalidArgument(SizeMismatch))
    ensures r.Failure? && r.error.InvalidArgument? <==> |services| != |messages|
    ensures r.Success? <==> |services| == |messages| && AllOk(Settle(Dispatch(services, messages)))
    ensures r.Success? ==> r.value == Join(OkValues(Settle(Dispatch(services, messages))), " ")
  {
    if |services| != |messages| then Failure(InvalidArgument(SizeMismatch))
    else FailFast(Settle(Dispatch(services, messages)))
  }

  /** `processAsyncFailPartial`: only the pre-check can fail it. */
  function ProcessAsyncFailPartial(services: seq<Service>, messages: seq<string>): (r: Result<seq<string>>)
    ensures r.Failure? <==> |services| != |messages|
    ensures r.Failure? ==> r.error == InvalidArgument(SizeMismatch)
    ensures r.Success? ==> r.value == OkValues(Settle(Dispatch(services, messages)))
  {
    if |services| != |messages| then Failure(InvalidArgument(SizeMismatch))
    else Success(OkValues(Settle(Dispatch(services, messages))))
  }

  /** `processAsyncFailSoft`: only the pre-check can fail it. */
  function ProcessAsyncFailSoft(services: seq<Service>, messages: seq<string>, fallback: string): (r: Result<string>)
    ensures r.Failure? <==> |services| != |messages|
    ensures r.Failure? ==> r.error == InvalidArgument(SizeMismatch)
    ensures r.Success? ==> r.value == FailSoft(Settle(Dispatch(services, messages)), fallback)
  {
    if |services| != |messages| then Failure(InvalidArgument(SizeMismatch))
    else Success(FailSoft(Settle(Dispatch(services, messages)), fallback))
  }

  /** `processAsyncCompletionOrder`, with failed and timed-out calls left
      out of the list: each call that completes in time appends its value
      to the shared list, in the order the calls finish. */
  method ProcessAsyncCompletionOrder(services: seq<Service>, message: string, order: seq<nat>)
    returns (completed: seq<string>)
    requires IsPermutation(order, |services|)
    ensures completed == OkValues(Reorder(Settle(Broadcast(services, message)), order))
    ensures multiset(completed) == multiset(OkValues(Settle(Broadcast(services, message))))
  {
    var calls := Broadcast(services, message);
    ghost var outcomes := Settle(calls);
    ghost var finished := Reorder(outcomes, order);
    completed := [];
    for k := 0 to |order|
      invariant completed == OkValues(finished[..k])
    {
      var o := TimedRetrieve(calls[order[k]]);
      assert finished[..k + 1][..k] == finished[..k];
      if o.Ok? {
        completed := completed + [o.value];
      }
    }
    assert finished[..|order|] == finished;
    ReorderPreservesMultiset(outcomes, order);
    OkValuesRespectMultiset(finished, outcomes);
  }

  /** `processAsyncCompletionOrder` as the source has it: the appends are
      not guarded by an error handler, so a failed or timed-out call fails
      its `thenAccept` stage and `allOf` then fails the whole result. */
  function ProcessAsyncCompletionOrderAsWritten(services: seq<Service>, message: string, order: seq<nat>)
    : (r: Result<seq<string>>)
    requires IsPermutation(order, |services|)
    ensures r.Success? <==> AllOk(Settle(Broadcast(services, message)))
    ensures r.Success? ==> r.value == OkValues(Reorder(Settle(Broadcast(services, message)), order))
    ensures r.Success? ==> multiset(r.value) == multiset(OkValues(Settle(Broadcast(services, message))))
    ensures r.Failure? ==>
      (exists i :: 0 <= i < |services| && !Settle(Broadcast(services, message))[i].Ok?
        && r.error == ErrorOf(Settle(Broadcast(services, message))[i]))
  {
    var outcomes := Settle(Broadcast(services, message));
    var k := FirstFailure(outcomes);
    if k < |outcomes| then Failure(ErrorOf(outcomes[k]))
    else
      ReorderPreservesMultiset(outcomes, order);
      OkValuesRespectMultiset(Reorder(outcomes, order), outcomes);
      Success(OkValues(Reorder(outcomes, order)))
  }

  // ---------------------------------------------------------------------
  // Properties of the filter
  // ---------------------------------------------------------------------

  /** The filter distributes over concatenation: relative order is kept. */
  lemma {:induction false} OkValuesAppend(a: seq<Outcome>, b: seq<Outcome>)
    ensures OkValues(a + b) == OkValues(a) + OkValues(b)
    decreases |b|
  {
    if |b| > 0 {
      var n := |b| - 1;
      assert (a + b)[..|a + b| - 1] == a + b[..n];
      OkValuesAppend(a, b[..n]);
    } else {
      assert a + b == a;
    }
  }

  /** Fail-partial is exactly the subsequence of `Ok` values in input order:
      its j-th element is the value at the j-th `Ok` position. */
  lemma {:induction false} OkValuesAtOkPositions(os: seq<Outcome>)
    ensures |OkValues(os)| == |OkPositions(os)|
    ensures forall j :: 0 <= j < |OkPositions(os)| ==> OkValues(os)[j] == os[OkPositions(os)[j]].value
  {
    if |os| > 0 {
      var n := |os| - 1;
      var init := os[..n];
      OkValuesAtOkPositions(init);
      var vs, ps := OkValues(init), OkPositions(init);
      if os[n].Ok? {
        var vs', ps' := vs + [os[n].value], ps + [n];
        assert OkValues(os) == vs';
        assert OkPositions(os) == ps';
        forall j | 0 <= j < |ps'|
          ensures vs'[j] == os[ps'[j]].value
        {
          if j < |ps| {
            assert ps'[j] == ps[j] && vs'[j] == vs[j];
            assert os[ps[j]] == init[ps[j]];
          }
        }
      } else {
        assert OkValues(os) == vs;
        assert OkPositions(os) == ps;
        forall j | 0 <= j < |ps|
          ensures vs[j] == os[ps[j]].value
        {
          assert os[ps[j]] == init[ps[j]];
        }
      }
    }
  }

  /** Fail-partial is empty exactly when no call succeeded. */
  lemma {:induction false} OkValuesEmpty(os: seq<Outcome>)
    ensures OkValues(os) == [] <==> forall i :: 0 <= i < |os| ==> !os[i].Ok?
  {
    if |os| > 0 {
      var n := |os| - 1;
      OkValuesEmpty(os[..n]);
      assert forall i :: 0 <= i < n ==> os[..n][i] == os[i];
    }
  }

  /** When every call succeeds, nothing is dropped. */
  lemma {:induction false} OkValuesAllOk(os: seq<Outcome>)
    requires AllOk(os)
    ensures |OkValues(os)| == |os|
    ensures forall i :: 0 <= i < |os| ==> OkValues(os)[i] == os[i].value
  {
    if |os| > 0 {
      var n := |os| - 1;
      assert forall i :: 0 <= i < n ==> os[..n][i] == os[i];
      OkValuesAllOk(os[..n]);
    }
  }

  /** Each string occurs in fail-partial as often as it is the value of an
      `Ok` outcome. */
  lemma {:induction false} OkValuesCount(os: seq<Outcome>, v: string)
    ensures multiset(OkValues(os))[v] == multiset(os)[Ok(v)]
  {
    if |os| > 0 {
      var n := |os| - 1;
      OkValuesCount(os[..n], v);
      assert os == os[..n] + [os[n]];
    }
  }

  /** The filter only depends on which outcomes there are, not on where:
      two rearrangements of the outcomes have the same successes. */
  lemma OkValuesRespectMultiset(xs: seq<Outcome>, ys: seq<Outcome>)
    requires multiset(xs) == multiset(ys)
    ensures multiset(OkValues(xs)) == multiset(OkValues(ys))
  {
    forall v | true
      ensures multiset(OkValues(xs))[v] == multiset(OkValues(ys))[v]
    {
      OkValuesCount(xs, v);
      OkValuesCount(ys, v);
    }
  }

  lemma IndicesBelow(n: nat, x: nat)
    ensures x in multiset(Indices(n)) <==> x < n
  {
    if x < n {
      assert Indices(n)[x] == x;
    }
  }

  /** Taking the largest index out of a permutation leaves a permutation of
      the indices below it. */
  lemma RemoveLast(order: seq<nat>, n: nat, j: nat)
    requires IsPermutation(order, n + 1)
    requires j < |order| && order[j] == n
    ensures IsPermutation(order[..j] + order[j + 1..], n)
  {
    var rest := order[..j] + order[j + 1..];
    assert order == order[..j] + [n] + order[j + 1..];
    assert Indices(n + 1) == Indices(n) + [n];
    assert multiset(rest) == multiset(order) - multiset{n};
    assert multiset(Indices(n)) == multiset(Indices(n + 1)) - multiset{n};
    forall k | 0 <= k < |rest|
      ensures rest[k] < n
    {
      assert rest[k] in multiset(rest);
      IndicesBelow(n, rest[k]);
    }
  }

  /** Rearranging the outcomes with index m taken out of the order, and
      putting outcome m back, gives the same outcomes. */
  lemma ReorderWithout(os: seq<Outcome>, order: seq<nat>, j: nat)
    requires |os| > 0 && IsPermutation(order, |os|)
    requires j < |order| && order[j] == |os| - 1
    requires IsPermutation(order[..j] + order[j + 1..], |os| - 1)
    ensures multiset(Reorder(os, order))
      == multiset(Reorder(os[..|os| - 1], order[..j] + order[j + 1..])) + multiset{os[|os| - 1]}
  {
    var m := |os| - 1;
    var rest := order[..j] + order[j + 1..];
    assert Reorder(os[..m], rest) == Reorder(os, order[..j]) + Reorder(os, order[j + 1..]);
    assert Reorder(os, order) == Reorder(os, order[..j]) + [os[m]] + Reorder(os, order[j + 1..]);
  }

  /** Rearranging by a permutation keeps every outcome, as often as before. */
  lemma {:induction false} ReorderPreservesMultiset(os: seq<Outcome>, order: seq<nat>)
    requires IsPermutation(order, |os|)
    ensures multiset(Reorder(os, order)) == multiset(os)
    decreases |os|
  {
    if |os| > 0 {
      var m := |os| - 1;
      IndicesBelow(|os|, m);
      var j :| 0 <= j < |order| && order[j] == m;
      RemoveLast(order, m, j);
      ReorderPreservesMultiset(os[..m], order[..j] + order[j + 1..]);
      ReorderWithout(os, order, j);
      assert os == os[..m] + [os[m]];
    }
  }

  // ---------------------------------------------------------------------
  // Properties relating the policies
  // ---------------------------------------------------------------------

  /** With every call successful, fail-soft gives fail-fast's string,
      whatever the fallback. */
  lemma FailSoftAgreesWithFailFast(os: seq<Outcome>, fallback: string)
    requires AllOk(os)
    ensures FailFast(os) == Success(FailSoft(os, fallback))
  {
    OkValuesAllOk(os);
    assert Substitute(os, fallback) == OkValues(os);
  }

  /** Fail-soft always yields one space-separated segment per call, holding
      the call's value or the fallback, provided the values and the fallback
      contain no space themselves. */
  lemma FailSoftSegments(os: seq<Outcome>, fallback: string)
    requires |os| >= 1
    requires ' ' !in fallback
    requires forall i :: 0 <= i < |os| && os[i].Ok? ==> ' ' !in os[i].value
    ensures |Split(FailSoft(os, fallback), ' ')| == |os|
    ensures forall i :: 0 <= i < |os| ==>
      Split(FailSoft(os, fallback), ' ')[i] == if os[i].Ok? then os[i].value else fallback
  {
    SplitJoin(Substitute(os, fallback), ' ');
  }

  /** Two outcome lists that agree on which calls succeeded, and with what,
      but may differ in how the others failed. */
  predicate SameSuccesses(a: seq<Outcome>, b: seq<Outcome>)
  {
    && |a| == |b|
    && (forall i :: 0 <= i < |a| ==> (a[i].Ok? <==> b[i].Ok?))
    && (forall i :: 0 <= i < |a| && a[i].Ok? ==> a[i] == b[i])
  }

  lemma {:induction false} OkValuesIgnoreFailureKind(a: seq<Outcome>, b: seq<Outcome>)
    requires SameSuccesses(a, b)
    ensures OkValues(a) == OkValues(b)
  {
    if |a| > 0 {
      var n := |a| - 1;
      assert SameSuccesses(a[..n], b[..n]);
      OkValuesIgnoreFailureKind(a[..n], b[..n]);
    }
  }

  /** A timed-out call is handled exactly like a failed one: fail-fast
      fails, fail-partial drops it, fail-soft puts the fallback in its
      place, and the completion-order list leaves it out. */
  lemma TimeoutActsAsFailure(os: seq<Outcome>, i: nat, message: string, fallback: string, order: seq<nat>)
    requires i < |os| && os[i].TimedOut?
    requires IsPermutation(order, |os|)
    ensures FailFast(os).Failure? && FailFast(os[i := Failed(message)]).Failure?
    ensures OkValues(os) == OkValues(os[i := Failed(message)])
    ensures FailSoft(os, fallback) == FailSoft(os[i := Failed(message)], fallback)
    ensures OkValues(Reorder(os, order)) == OkValues(Reorder(os[i := Failed(message)], order))
  {
    OkValuesIgnoreFailureKind(os, os[i := Failed(message)]);
    assert SameSuccesses(Reorder(os, order), Reorder(os[i := Failed(message)], order));
    OkValuesIgnoreFailureKind(Reorder(os, order), Reorder(os[i := Failed(message)], order));
    assert Substitute(os, fallback) == Substitute(os[i := Failed(message)], fallback);
  }

  /** The finding on completion order: as written, one failed call among
      successful ones fails the whole request, although there are successes
      that the list omitting failures would return. */
  lemma CompletionOrderAsWrittenLosesSuccesses(services: seq<Service>, message: string, order: seq<nat>, i: nat, j: nat)
    requires IsPermutation(order, |services|)
    requires i < |services| && j < |services|
    requires Settle(Broadcast(services, message))[i].Ok?
    requires !Settle(Broadcast(services, message))[j].Ok?
    ensures ProcessAsyncCompletionOrderAsWritten(services, message, order).Failure?
    ensures OkValues(Reorder(Settle(Broadcast(services, message)), order)) != []
  {
    var outcomes := Settle(Broadcast(services, message));
    ReorderPreservesMultiset(outcomes, order);
    OkValuesRespectMultiset(Reorder(outcomes, order), outcomes);
    OkValuesEmpty(outcomes);
  }
}
