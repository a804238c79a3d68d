/**
 * The pass of `describeServices` over a list of services: count the active
 * instances once, then evaluate each service in list order and issue one
 * update for each service that needs it.
 */
module Reconcile {
  import opened Wrappers
  import opened Ecs
  import opened Decision
  import Pagination

  /** What a pass did: the updates it sent, in order, and the error that stopped it, if any. */
  datatype PassResult = PassResult(updates: seq<Update>, failure: Option<CycleError>)

  /** The services the updates target, in order. */
  function Targets(ups: seq<Update>): seq<Arn>
  {
    seq(|ups|, i requires 0 <= i < |ups| => ups[i].service)
  }

  /** `xs` is `ys` with some elements removed, the rest kept in order. */
  predicate IsSubsequence(xs: seq<Arn>, ys: seq<Arn>)
    decreases |ys|
  {
    |xs| == 0 ||
    (|ys| > 0 && ((xs[0] == ys[0] && IsSubsequence(xs[1..], ys[1..])) || IsSubsequence(xs, ys[1..])))
  }

  predicate Distinct(s: seq<Arn>)
  {
    forall i, j :: 0 <= i < j < |s| ==> s[i] != s[j]
  }

  /**
   * Evaluate `arns` in order against `n` instances. Each service is described
   * afresh, so an update sent for an earlier service is visible when a later
   * entry names the same service. The first error stops the pass; the updates
   * sent before it remain sent.
   */
  function EvaluateAll(arns: seq<Arn>, n: nat, c: Cluster): (r: PassResult)
    ensures forall u :: u in r.updates ==> u.desiredCount == n
    ensures IsSubsequence(Targets(r.updates), arns)
    ensures r.failure.None? ==> forall i :: 0 <= i < |arns| ==> arns[i] in c.services
    decreases |arns|
  {
    if |arns| == 0 then PassResult([], None)
    else match Evaluate(c, arns[0], n)
      case Failure(e) => PassResult([], Some(e))
      case Success(v) =>
        if v.ScaleTo? then
          var u := Update(arns[0], v.count);
          var rest := EvaluateAll(arns[1..], n, Apply(c, u));
          assert Targets([u] + rest.updates)[1..] == Targets(rest.updates);
          assert forall i :: 1 <= i < |arns| ==> arns[i] == arns[1..][i - 1];
          PassResult([u] + rest.updates, rest.failure)
        else
          var rest := EvaluateAll(arns[1..], n, c);
          assert forall i :: 1 <= i < |arns| ==> arns[i] == arns[1..][i - 1];
          rest
  }

  /** `describeServices`: drain the active-instance listing, then run the pass with its length as target. */
  function DescribeServices(arns: seq<Arn>, instancePages: seq<Pagination.Page>, c: Cluster): (r: PassResult)
    ensures Pagination.Drain(instancePages).None? ==> r == PassResult([], Some(ListingUnterminated))
    ensures forall u :: u in r.updates ==>
      Pagination.Terminated(instancePages) &&
      u.desiredCount == |Pagination.Flatten(instancePages[..Pagination.FinalIndex(instancePages) + 1])|
    ensures IsSubsequence(Targets(r.updates), arns)
  {
    match Pagination.Drain(instancePages)
    case None => PassResult([], Some(ListingUnterminated))
    case Some(instances) => EvaluateAll(arns, |instances|, c)
  }

  /** A service the pass has left alone or just updated evaluates to a skip. */
  ghost predicate Settled(c: Cluster, arn: Arn, n: nat)
  {
    Evaluate(c, arn, n).Success? && Evaluate(c, arn, n).value.Skip?
  }

  /** Setting desired counts to `n` keeps a settled service settled. */
  lemma SettledPreserved(c: Cluster, ups: seq<Update>, arn: Arn, n: nat)
    requires Settled(c, arn, n)
    requires forall u :: u in ups ==> u.desiredCount == n
    ensures Settled(ApplyAll(c, ups), arn, n)
  {
  }

  /**
   * Idempotence: run the pass again over the state its own updates produced,
   * with the same instance count, and it sends nothing and stops where the
   * first pass stopped.
   */
  lemma {:induction false} EvaluateAllIdempotent(arns: seq<Arn>, n: nat, c: Cluster)
    ensures EvaluateAll(arns, n, ApplyAll(c, EvaluateAll(arns, n, c).updates)) ==
            PassResult([], EvaluateAll(arns, n, c).failure)
    decreases |arns|
  {
    if |arns| > 0 {
      var r := EvaluateAll(arns, n, c);
      var d := ApplyAll(c, r.updates);
      match Evaluate(c, arns[0], n)
      case Failure(e) =>
      case Success(v) =>
        if v.ScaleTo? {
          var u := Update(arns[0], n);
          var c1 := Apply(c, u);
          var rest := EvaluateAll(arns[1..], n, c1);
          assert r.updates == [u] + rest.updates;
          assert (r.updates)[1..] == rest.updates;
          assert d == ApplyAll(c1, rest.updates);
          assert Settled(c1, arns[0], n);
          SettledPreserved(c1, rest.updates, arns[0], n);
          EvaluateAllIdempotent(arns[1..], n, c1);
        } else {
          SettledPreserved(c, r.updates, arns[0], n);
          EvaluateAllIdempotent(arns[1..], n, c);
        }
    }
  }

  /** Every element of a subsequence is an element of the sequence. */
  lemma {:induction false} SubsequenceMembers(xs: seq<Arn>, ys: seq<Arn>)
    requires IsSubsequence(xs, ys)
    ensures forall x :: x in xs ==> x in ys
    decreases |ys|
  {
    if |xs| > 0 {
      if xs[0] == ys[0] && IsSubsequence(xs[1..], ys[1..]) {
        SubsequenceMembers(xs[1..], ys[1..]);
        assert forall x :: x in xs ==> x == xs[0] || x in xs[1..];
      } else {
        SubsequenceMembers(xs, ys[1..]);
      }
    }
  }

  /** A subsequence of a list without repeats has no repeats. */
  lemma {:induction false} SubsequenceOfDistinct(xs: seq<Arn>, ys: seq<Arn>)
    requires IsSubsequence(xs, ys) && Distinct(ys)
    ensures Distinct(xs)
    decreases |ys|
  {
    if |xs| > 0 {
      assert Distinct(ys[1..]);
      if xs[0] == ys[0] && IsSubsequence(xs[1..], ys[1..]) {
        SubsequenceOfDistinct(xs[1..], ys[1..]);
        SubsequenceMembers(xs[1..], ys[1..]);
        assert ys[0] !in ys[1..];
        forall i, j | 0 <= i < j < |xs| ensures xs[i] != xs[j] {
          assert xs[j] == xs[1..][j - 1];
          if i > 0 {
            assert xs[i] == xs[1..][i - 1];
          }
        }
      } else {
        SubsequenceOfDistinct(xs, ys[1..]);
      }
    }
  }

  /** Index of the first listed service whose evaluation against `c` fails, or the list's length. */
  function FirstFailure(arns: seq<Arn>, n: nat, c: Cluster): (k: nat)
    ensures k <= |arns|
    ensures forall i :: 0 <= i < k ==> Evaluate(c, arns[i], n).Success?
    ensures k < |arns| ==> Evaluate(c, arns[k], n).Failure?
    decreases |arns|
  {
    if |arns| == 0 then 0
    else if Evaluate(c, arns[0], n).Failure? then 0
    else
      var k := FirstFailure(arns[1..], n, c);
      assert forall i :: 1 <= i < |arns| ==> arns[i] == arns[1..][i - 1];
      k + 1
  }

  /** Two states agree on every service of `arns` and on the task definitions. */
  ghost predicate AgreeOn(c: Cluster, c': Cluster, arns: seq<Arn>)
  {
    && c.taskDefinitions == c'.taskDefinitions
    && forall a :: a in arns ==> (a in c.services <==> a in c'.services) &&
                                 (a in c.services ==> c.services[a] == c'.services[a])
  }

  /** States that agree on `arns` decide every service of `arns` alike. */
  lemma AgreeingStatesDecideAlike(arns: seq<Arn>, n: nat, c: Cluster, c': Cluster)
    requires AgreeOn(c, c', arns)
    ensures FirstFailure(arns, n, c) == FirstFailure(arns, n, c')
    ensures forall a :: a in arns ==> (NeedsUpdate(c, a, n) <==> NeedsUpdate(c', a, n))
  {
  }

  /** The state after the first service of a repeat-free list agrees with the start state on the rest. */
  lemma FirstStepAgrees(arns: seq<Arn>, n: nat, c: Cluster, v: Verdict)
    requires |arns| > 0 && Distinct(arns)
    ensures AgreeOn(c, if v.ScaleTo? then Apply(c, Update(arns[0], n)) else c, arns[1..])
  {
  }

  /**
   * For a service list without repeats, the live pass stops at the first
   * service whose evaluation against the starting state fails, with that
   * service's error, and runs to the end when there is none.
   */
  lemma {:induction false} DistinctPassStopsAtFirstFailure(arns: seq<Arn>, n: nat, c: Cluster)
    requires Distinct(arns)
    ensures var r := EvaluateAll(arns, n, c);
            var k := FirstFailure(arns, n, c);
            && (r.failure.None? <==> k == |arns|)
            && (k < |arns| ==> r.failure == Some(Evaluate(c, arns[k], n).error))
    decreases |arns|
  {
    if |arns| > 0 {
      match Evaluate(c, arns[0], n)
      case Failure(e) =>
      case Success(v) =>
        var c1 := if v.ScaleTo? then Apply(c, Update(arns[0], n)) else c;
        FirstStepAgrees(arns, n, c, v);
        AgreeingStatesDecideAlike(arns[1..], n, c, c1);
        assert Distinct(arns[1..]);
        DistinctPassStopsAtFirstFailure(arns[1..], n, c1);
        var k1 := FirstFailure(arns[1..], n, c);
        assert FirstFailure(arns, n, c) == k1 + 1;
        if k1 < |arns[1..]| {
          EvaluateIsLocal(c, c1, arns[1..][k1], n);
        }
    }
  }

  /** Targets of a list of updates with one in front. */
  lemma TargetsCons(u: Update, ups: seq<Update>)
    ensures Targets([u] + ups) == [u.service] + Targets(ups)
  {
  }

  /**
   * For a service list without repeats, the live pass updates exactly the
   * eligible, out-of-sync, marked services listed before the first failing
   * one, as the start state has them.
   */
  lemma {:induction false} DistinctPassUpdatesEligible(arns: seq<Arn>, n: nat, c: Cluster)
    requires Distinct(arns)
    ensures forall a :: a in Targets(EvaluateAll(arns, n, c).updates) <==>
                        a in arns[..FirstFailure(arns, n, c)] && NeedsUpdate(c, a, n)
    decreases |arns|
  {
    if |arns| > 0 {
      var a0 := arns[0];
      match Evaluate(c, a0, n)
      case Failure(e) =>
      case Success(v) =>
        var c1 := if v.ScaleTo? then Apply(c, Update(a0, n)) else c;
        FirstStepAgrees(arns, n, c, v);
        AgreeingStatesDecideAlike(arns[1..], n, c, c1);
        assert Distinct(arns[1..]);
        DistinctPassUpdatesEligible(arns[1..], n, c1);
        var rest := EvaluateAll(arns[1..], n, c1);
        var k1 := FirstFailure(arns[1..], n, c);
        assert FirstFailure(arns, n, c) == k1 + 1;
        assert arns[..k1 + 1] == [a0] + arns[1..][..k1];
        assert forall a :: a in arns[1..][..k1] ==> a in arns[1..];
        if v.ScaleTo? {
          TargetsCons(Update(a0, n), rest.updates);
        } else {
          assert !NeedsUpdate(c, a0, n);
        }
    }
  }

  /** For a service list without repeats, each service is updated at most once. */
  lemma DistinctPassUpdatesOnce(arns: seq<Arn>, n: nat, c: Cluster)
    requires Distinct(arns)
    ensures Distinct(Targets(EvaluateAll(arns, n, c).updates))
  {
    SubsequenceOfDistinct(Targets(EvaluateAll(arns, n, c).updates), arns);
  }
}
