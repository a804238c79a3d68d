# ECS daemonset controller — a Dafny model

The controller emulates "one task per container instance" placement on Amazon
ECS. Every cycle it lists the services of a cluster, counts the ACTIVE
container instances, and for each service decides whether to set its
`desiredCount` to that instance count. A service is scaled only when all of
these hold: it has no placement constraints or at least one `distinctInstance`
constraint; its desired count differs from the instance count; and the first
container definition of its task definition carries the `ECS_DAEMONSET`
docker label.

The model treats the remote ECS API as plain data:

- a paginated listing (`list_services`, `list_container_instances`) is the
  sequence of responses the API gives to successive calls. Each response is a
  `Page` of identifiers with an optional `nextToken`.
- `describe_services` and `describe_task_definition` answers are entries of a
  `Cluster` value: services by ARN, task definitions by reference.
- `update_service` calls are the `Update(service, desiredCount)` values a
  pass returns. `Ecs.Apply` gives their effect on the cluster.
- the script catches no exception, so one raised by a remote call leaves
  `main` and ends the run. It is modelled as a `CycleError` that stops the
  pass, and a cycle with an error is the last cycle of a run. Updates sent
  before the error stay in the result.

Modules:

- `Wrappers`: `Option` and `Result`.
- `Pagination`: the token-draining reader shared by `listServices` and
  `getInstanceArns`, as a recursive function and as the loop the script runs.
- `Ecs`: the entities (service, task definition, container definition,
  cluster), updates and their effect, and the error kinds.
- `Decision`: the three rules for one service, in order.
- `Reconcile`: the pass over all services (`describeServices`), its
  idempotence, and what it decides for a list without repeated ARNs.
- `Controller`: one cycle of the main loop, and a bounded number of cycles.

How the decision rules read in this revision of the script:

- Line 51 passes a service when its constraint list is empty or contains any
  `distinctInstance`, so a list that mixes `distinctInstance` with other types
  is eligible (`Decision.MixedConstraintsPass`).
- This revision of the script has no rule that skips a desired count of 0
  (`Decision.ZeroDesiredCountIsScaled`).
- The rules run in the order constraints, converged, marker, and the task
  definition is fetched only after the first two rules pass
  (`Decision.ConstraintFilterSkipsWithoutLookup`,
  `Decision.ConvergedSkipsWithoutLookup`).

## Model

| member | source | states |
|---|---|---|
| Pagination.Drain | ecs-daemonset.py:23-33 | The reader returns a result exactly when some response has no `nextToken`. Its result is the concatenation, in page order, of every response up to and including the first one without a token. |
| Pagination.DrainLoop | ecs-daemonset.py:73-86 | The while-loop reader, appending each follow-up page, returns the same result as `Drain`: all pages up to the first token-less one, in order, and nothing when the responses run out first. |
| Pagination.FinalIndex | ecs-daemonset.py:26-30 | The reader stops at a response with no token, and every response before it carried one. |
| Pagination.DrainMembership | ecs-daemonset.py:23-33 | An identifier is returned exactly when one of the pages read (up to the final page) lists it. No page read is dropped. |
| Pagination.DrainStopsAtFinalPage | ecs-daemonset.py:78-84 | Responses after the first token-less one are never read: replacing them leaves the result unchanged. |
| Pagination.DrainLength | ecs-daemonset.py:38 | The instance count used as scale target is the sum of the sizes of the pages read. |
| Ecs.Apply | ecs-daemonset.py:67-71 | An update changes only the desired count of the service it names. Other services and all task definitions are unchanged. |
| Ecs.ApplyAll | ecs-daemonset.py:67-71 | After a sequence of updates, a service that no update names is unchanged. Any other service differs only by a desired count that one of its updates wrote. |
| Decision.FirstContainerMarked | ecs-daemonset.py:60-65 | The marker check fails on an empty container list or a first container without labels. Otherwise it holds exactly when `ECS_DAEMONSET` is a key of the first container's labels. |
| Decision.Evaluate | ecs-daemonset.py:43-71 | A service is scaled exactly when it is eligible, out of sync and marked, and always to the instance count. Evaluation fails exactly when the service is not described, or when its task definition is fetched but cannot be inspected. A service the first two rules reject is always skipped. |
| Decision.ConstraintFilterSkipsWithoutLookup | ecs-daemonset.py:50-53 | A service with constraints, none of them `distinctInstance`, is skipped whatever the task definitions are. Its task definition is never fetched. |
| Decision.ConvergedSkipsWithoutLookup | ecs-daemonset.py:55-58 | A service that passes the filter and is already at the instance count is skipped whatever the task definitions are. |
| Decision.MixedConstraintsPass | ecs-daemonset.py:51 | Any constraint list that contains `distinctInstance` passes the filter, whatever other types it also contains. |
| Decision.MarkerIgnoresValuesAndOtherContainers | ecs-daemonset.py:65 | Only the label keys of the first container matter. Its label values and any later containers do not change the marker check. |
| Decision.MarkerOnlyOnFirstContainer | ecs-daemonset.py:65 | A service whose first container has labels but no `ECS_DAEMONSET` key is never scaled. |
| Decision.ZeroDesiredCountIsScaled | ecs-daemonset.py:50-71 | No rule skips a desired count of zero. An eligible, marked service at zero is scaled to a positive instance count. |
| Decision.EvaluateIsLocal | ecs-daemonset.py:43-48 | The decision for a service depends only on that service's description and the task definitions. |
| Reconcile.EvaluateAll | ecs-daemonset.py:40-71 | Every update sets the desired count to the instance count. The updated services form a subsequence of the listed ones: list order is kept and each entry yields at most one update. A pass that ends without error has described every listed service. |
| Reconcile.DescribeServices | ecs-daemonset.py:36-38 | The instance listing is drained once before any service is evaluated. Every update writes the length of that listing. An unterminated instance listing stops the pass before any update. |
| Reconcile.EvaluateAllIdempotent | ecs-daemonset.py:56-71 | Run the pass again over the state its own updates produced, with the same instance count. It sends no update and stops with the same error, if any. |
| Reconcile.DistinctPassStopsAtFirstFailure | ecs-daemonset.py:40-65 | With no repeated ARNs, the pass stops at the first service whose evaluation fails, with that error. It runs to the end when no evaluation fails. |
| Reconcile.DistinctPassUpdatesEligible | ecs-daemonset.py:40-71 | With no repeated ARNs, the updated services are exactly the eligible, out-of-sync, marked services listed before the first failure. |
| Reconcile.DistinctPassUpdatesOnce | ecs-daemonset.py:40-71 | With no repeated ARNs, no service is updated twice in one pass. |
| Controller.Cycle | ecs-daemonset.py:102-103 | One cycle lists the services, then describes them. An unterminated service listing ends the cycle with no update. Every update writes the drained instance count and targets a listed service, in listing order. |
| Controller.CycleIdempotent | ecs-daemonset.py:101-103 | A cycle over the state the previous cycle left behind sends no update. |
| Controller.Run | ecs-daemonset.py:101-105 | The main loop cut off after a number of cycles. The run starts with one cycle over the given world. Every cycle but the last succeeds. A run shorter than the bound ends with a failed cycle, because no error is caught and the process exits. |
| Controller.RunConvergesAfterFirstCycle | ecs-daemonset.py:101-105 | Over an otherwise unchanging cluster, a first cycle that fails is the whole run. Otherwise the run lasts every cycle, and each cycle after the first sends nothing and succeeds. |
| Controller.TwoServiceScenario | ecs-daemonset.py:36-71 | Four instances over two pages, service A (unconstrained, at 1, marked) and service B (`distinctInstance`, at 4, unmarked): exactly one update, setting A to 4. |

## Left out

- The boto3 client and its calls (`list_services`, `describe_services`, `list_container_instances`, `describe_task_definition`, `update_service`) are remote I/O. They are replaced by input data and the returned update list.
- The ACTIVE status filter is applied by the remote API. The instance listing is taken to be its already filtered answer.
- Continuation tokens are opaque. The model assumes the API answers each follow-up call with the next page. Only a token's presence matters, so an empty-string token still continues, as it does in the code.
- Logging and pretty-printing have no effect on decisions.
- Command-line parsing (the cluster name) is configuration. The model works on one cluster's data.
- `RESOURCE_CHECK_INTERVAL`, `int(sleep)` and `time.sleep` are timing only.
- The unbounded `while True` loop is modelled as a bounded number of cycles (`Controller.Run`). The sleep between cycles is not modelled.
- Remote failures other than the response shapes modelled in `CycleError` (throttling, permissions, network) are not modelled. A never-ending listing is represented by responses that run out while still carrying a token.
- Controller.RunConvergesAfterFirstCycle: assumes no other party changes the cluster or its listings between cycles.
- Reconcile.DistinctPassUpdatesEligible: stated only for service lists without repeated ARNs, which the listing API does not return. With repeats, the pass sees its own earlier update, and only the ordering and target-count facts of `Reconcile.EvaluateAll` are stated.
- Reconcile.DistinctPassUpdatesOnce: stated only for service lists without repeated ARNs, for the same reason.
- Reconcile.DistinctPassStopsAtFirstFailure: stated only for service lists without repeated ARNs, for the same reason.
