/**
 * The per-service decision of `describeServices`: the placement-constraint
 * filter, the converged check and the marker-label check, in that order.
 */
module Decision {
  import opened Wrappers
  import opened Ecs

  /** The placement-constraint type that marks one-task-per-instance placement. */
  const DistinctInstance: string := "distinctInstance"

  /** The label key whose presence on the first container marks a daemonset. */
  const DaemonsetLabel: string := "ECS_DAEMONSET"

  datatype SkipReason = NotDistinctInstance | AlreadyConverged | NotMarked

  datatype Verdict = Skip(reason: SkipReason) | ScaleTo(count: nat)

  /** The constraint filter: no constraints at all, or at least one `distinctInstance`. */
  predicate PassesConstraintFilter(constraintTypes: seq<string>)
  {
    |constraintTypes| == 0 || DistinctInstance in constraintTypes
  }

  /** Whether the first container definition carries the marker label; the label's value is not read. */
  function FirstContainerMarked(ref: string, td: TaskDefinition): (r: Result<bool, CycleError>)
    ensures r.Failure? <==> |td.containerDefinitions| == 0 || td.containerDefinitions[0].dockerLabels.None?
    ensures r == Success(true) <==>
      |td.containerDefinitions| > 0 && td.containerDefinitions[0].dockerLabels.Some? &&
      DaemonsetLabel in td.containerDefinitions[0].dockerLabels.value.Keys
  {
    if |td.containerDefinitions| == 0 then Failure(NoContainerDefinitions(ref))
    else match td.containerDefinitions[0].dockerLabels
      case None => Failure(NoDockerLabels(ref))
      case Some(labels) => Success(DaemonsetLabel in labels)
  }

  /** The task definition `ref` exists and its first container carries the marker label. */
  ghost predicate Marked(c: Cluster, ref: string)
  {
    && ref in c.taskDefinitions
    && |c.taskDefinitions[ref].containerDefinitions| > 0
    && c.taskDefinitions[ref].containerDefinitions[0].dockerLabels.Some?
    && DaemonsetLabel in c.taskDefinitions[ref].containerDefinitions[0].dockerLabels.value
  }

  /** The task definition `ref` can be inspected: it exists, has a first container, and that container has labels. */
  ghost predicate Inspectable(c: Cluster, ref: string)
  {
    && ref in c.taskDefinitions
    && |c.taskDefinitions[ref].containerDefinitions| > 0
    && c.taskDefinitions[ref].containerDefinitions[0].dockerLabels.Some?
  }

  /** The cheap checks pass, so the service's task definition is fetched. */
  ghost predicate LooksUpTaskDefinition(c: Cluster, arn: Arn, n: nat)
  {
    && arn in c.services
    && (|c.services[arn].constraintTypes| == 0 ||
        exists i :: 0 <= i < |c.services[arn].constraintTypes| && c.services[arn].constraintTypes[i] == DistinctInstance)
    && c.services[arn].desiredCount != n
  }

  /** Daemonset eligibility: distinct-instance placement (or none), out of sync, and marked. */
  ghost predicate NeedsUpdate(c: Cluster, arn: Arn, n: nat)
  {
    LooksUpTaskDefinition(c, arn, n) && Marked(c, c.services[arn].taskDefinition)
  }

  /**
   * Evaluate one service against `n` active instances: describe it, apply
   * the three rules in order, and fetch its task definition only when the
   * first two rules let it through.
   */
  function Evaluate(c: Cluster, arn: Arn, n: nat): (r: Result<Verdict, CycleError>)
    ensures r.Success? && r.value.ScaleTo? ==> r.value.count == n
    ensures r == Success(ScaleTo(n)) <==> NeedsUpdate(c, arn, n)
    ensures r.Failure? <==>
      arn !in c.services ||
      (LooksUpTaskDefinition(c, arn, n) && !Inspectable(c, c.services[arn].taskDefinition))
    ensures arn in c.services && !LooksUpTaskDefinition(c, arn, n) ==> r.Success? && r.value.Skip?
  {
    if arn !in c.services then Failure(ServiceNotFound(arn))
    else
      var s := c.services[arn];
      if !PassesConstraintFilter(s.constraintTypes) then Success(Skip(NotDistinctInstance))
      else if s.desiredCount == n then Success(Skip(AlreadyConverged))
      else if s.taskDefinition !in c.taskDefinitions then Failure(TaskDefinitionNotFound(s.taskDefinition))
      else match FirstContainerMarked(s.taskDefinition, c.taskDefinitions[s.taskDefinition])
        case Failure(e) => Failure(e)
        case Success(marked) => if marked then Success(ScaleTo(n)) else Success(Skip(NotMarked))
  }

  /**
   * A service with constraints none of which is `distinctInstance` is skipped
   * whatever its task definition is, so the task definition is never fetched.
   */
  lemma ConstraintFilterSkipsWithoutLookup(c: Cluster, arn: Arn, n: nat, tds: map<string, TaskDefinition>)
    requires arn in c.services
    requires |c.services[arn].constraintTypes| > 0
    requires forall i :: 0 <= i < |c.services[arn].constraintTypes| ==> c.services[arn].constraintTypes[i] != DistinctInstance
    ensures Evaluate(c.(taskDefinitions := tds), arn, n) == Success(Skip(NotDistinctInstance))
  {
  }

  /** A service already at `n` that passes the filter is skipped without fetching its task definition. */
  lemma ConvergedSkipsWithoutLookup(c: Cluster, arn: Arn, n: nat, tds: map<string, TaskDefinition>)
    requires arn in c.services
    requires PassesConstraintFilter(c.services[arn].constraintTypes)
    requires c.services[arn].desiredCount == n
    ensures Evaluate(c.(taskDefinitions := tds), arn, n) == Success(Skip(AlreadyConverged))
  {
  }

  /** A constraint list that mixes `distinctInstance` with other types passes the filter. */
  lemma MixedConstraintsPass(before: seq<string>, after: seq<string>)
    ensures PassesConstraintFilter(before + [DistinctInstance] + after)
  {
    assert (before + [DistinctInstance] + after)[|before|] == DistinctInstance;
  }

  /** Only the label keys of the first container matter: its label values and later containers do not. */
  lemma MarkerIgnoresValuesAndOtherContainers(ref: string, td: TaskDefinition, labels: map<string, string>, rest: seq<ContainerDefinition>)
    requires |td.containerDefinitions| > 0 && td.containerDefinitions[0].dockerLabels.Some?
    requires labels.Keys == td.containerDefinitions[0].dockerLabels.value.Keys
    ensures FirstContainerMarked(ref, TaskDefinition([ContainerDefinition(Some(labels))] + rest)) ==
            FirstContainerMarked(ref, td)
  {
  }

  /** A marker on any container but the first is ignored. */
  lemma MarkerOnlyOnFirstContainer(c: Cluster, arn: Arn, n: nat)
    requires arn in c.services && c.services[arn].taskDefinition in c.taskDefinitions
    requires var cds := c.taskDefinitions[c.services[arn].taskDefinition].containerDefinitions;
      |cds| > 0 && cds[0].dockerLabels.Some? && DaemonsetLabel !in cds[0].dockerLabels.value
    ensures Evaluate(c, arn, n).Success? && Evaluate(c, arn, n).value.Skip?
  {
  }

  /** There is no rule for a desired count of zero: a marked, eligible service at zero is scaled up. */
  lemma ZeroDesiredCountIsScaled(c: Cluster, arn: Arn, n: nat)
    requires arn in c.services && c.services[arn].desiredCount == 0 && n > 0
    requires PassesConstraintFilter(c.services[arn].constraintTypes)
    requires Marked(c, c.services[arn].taskDefinition)
    ensures Evaluate(c, arn, n) == Success(ScaleTo(n))
  {
  }

  /** Evaluation depends only on the service's own description and the task definitions. */
  lemma EvaluateIsLocal(c: Cluster, c': Cluster, arn: Arn, n: nat)
    requires c.taskDefinitions == c'.taskDefinitions
    requires arn in c.services <==> arn in c'.services
    requires arn in c.services ==> c.services[arn] == c'.services[arn]
    ensures Evaluate(c, arn, n) == Evaluate(c', arn, n)
  {
  }
}
