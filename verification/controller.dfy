/**
 * The body of the main loop: list the services, then describe and reconcile
 * them. `Run` unrolls a bounded number of cycles over an otherwise unchanging
 * cluster, each cycle seeing the updates of the cycles before it.
 */
module Controller {
  import opened Wrappers
  import opened Ecs
  import opened Decision
  import opened Reconcile
  import Pagination

  /** The remote world of one cycle: both listings and the describable state. */
  datatype World = World(
    servicePages: seq<Pagination.Page>,
    instancePages: seq<Pagination.Page>,
    cluster: Cluster
  )

  /** One cycle: `listServices`, then `describeServices` over the listed services. */
  function Cycle(w: World): (r: PassResult)
    ensures Pagination.Drain(w.servicePages).None? ==> r == PassResult([], Some(ListingUnterminated))
    ensures forall u :: u in r.updates ==>
      Pagination.Terminated(w.instancePages) &&
      u.desiredCount == |Pagination.Drain(w.instancePages).value|
    ensures |r.updates| > 0 ==>
      Pagination.Terminated(w.servicePages) &&
      IsSubsequence(Targets(r.updates), Pagination.Drain(w.servicePages).value)
  {
    match Pagination.Drain(w.servicePages)
    case None => PassResult([], Some(ListingUnterminated))
    case Some(arns) => DescribeServices(arns, w.instancePages, w.cluster)
  }

  /** The world after a cycle: the listings are the same, the updates have been applied. */
  function AfterCycle(w: World, r: PassResult): (w': World)
    ensures w'.servicePages == w.servicePages && w'.instancePages == w.instancePages
    ensures w'.cluster == ApplyAll(w.cluster, r.updates)
  {
    w.(cluster := ApplyAll(w.cluster, r.updates))
  }

  /**
   * The main loop, cut off after `cycles` cycles. Nothing catches an error,
   * so a cycle that fails is the last one: the process exits.
   */
  function Run(cycles: nat, w: World): (rs: seq<PassResult>)
    ensures |rs| <= cycles
    ensures cycles > 0 ==> |rs| > 0 && rs[0] == Cycle(w)
    ensures forall i :: 0 <= i < |rs| - 1 ==> rs[i].failure.None?
    ensures |rs| < cycles ==> rs[|rs| - 1].failure.Some?
    decreases cycles
  {
    if cycles == 0 then []
    else
      var r := Cycle(w);
      if r.failure.Some? then [r]
      else
        var rest := Run(cycles - 1, AfterCycle(w, r));
        var rs := [r] + rest;
        assert rs[0] == r;
        assert forall i :: 1 <= i < |rs| ==> rs[i] == rest[i - 1];
        rs
  }

  /** A second cycle over the state the first one left behind sends no update and fails as the first did. */
  lemma CycleIdempotent(w: World)
    ensures Cycle(AfterCycle(w, Cycle(w))) == PassResult([], Cycle(w).failure)
  {
    match Pagination.Drain(w.servicePages)
    case None =>
    case Some(arns) =>
      match Pagination.Drain(w.instancePages)
      case None =>
      case Some(instances) =>
        EvaluateAllIdempotent(arns, |instances|, w.cluster);
  }

  /** Once a cycle sends nothing and succeeds, the run lasts every cycle and each one repeats it. */
  lemma {:induction false} RunAtFixedPoint(cycles: nat, w: World)
    requires Cycle(w) == PassResult([], None)
    ensures |Run(cycles, w)| == cycles
    ensures forall i :: 0 <= i < cycles ==> Run(cycles, w)[i] == PassResult([], None)
    decreases cycles
  {
    if cycles > 0 {
      assert AfterCycle(w, Cycle(w)) == w;
      RunAtFixedPoint(cycles - 1, w);
      assert Run(cycles, w) == [Cycle(w)] + Run(cycles - 1, w);
    }
  }

  /**
   * Over an unchanging cluster the controller converges in one cycle. If the
   * first cycle fails, the run is that cycle alone. Otherwise the run lasts
   * every cycle, and every cycle after the first sends nothing and succeeds.
   */
  lemma RunConvergesAfterFirstCycle(cycles: nat, w: World)
    requires cycles > 0
    ensures Cycle(w).failure.Some? ==> Run(cycles, w) == [Cycle(w)]
    ensures Cycle(w).failure.None? ==>
      |Run(cycles, w)| == cycles &&
      forall i :: 1 <= i < cycles ==> Run(cycles, w)[i] == PassResult([], None)
  {
    if Cycle(w).failure.None? {
      var w1 := AfterCycle(w, Cycle(w));
      CycleIdempotent(w);
      RunAtFixedPoint(cycles - 1, w1);
      assert Run(cycles, w) == [Cycle(w)] + Run(cycles - 1, w1);
    }
  }

  /**
   * A cluster of four active instances listed as two pages of two, and two
   * services: A (no constraints, desired 1, marked) and B (distinctInstance,
   * desired 4, unmarked). One cycle sends exactly one update, A to 4.
   */
  lemma TwoServiceScenario()
    ensures
      var w := World(
        [Pagination.Page(["A", "B"], None)],
        [Pagination.Page(["i1", "i2"], Some("t1")), Pagination.Page(["i3", "i4"], None)],
        Cluster(
          map["A" := Service("td-a", 1, []), "B" := Service("td-b", 4, [DistinctInstance])],
          map["td-a" := TaskDefinition([ContainerDefinition(Some(map[DaemonsetLabel := "true"]))]),
              "td-b" := TaskDefinition([ContainerDefinition(Some(map[]))])]));
      Cycle(w) == PassResult([Update("A", 4)], None)
  {
    var pages := [Pagination.Page(["i1", "i2"], Some("t1")), Pagination.Page(["i3", "i4"], None)];
    assert pages[1..] == [Pagination.Page(["i3", "i4"], None)];
    assert Pagination.Drain(pages[1..]) == Some(["i3", "i4"]);
    assert ["i1", "i2"] + ["i3", "i4"] == ["i1", "i2", "i3", "i4"];
    assert Pagination.Drain(pages) == Some(["i1", "i2", "i3", "i4"]);
  }
}
