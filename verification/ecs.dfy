/**
 * The ECS state the controller reads and writes, as plain data: the answer to
 * `describe_services` for each service, the answer to
 * `describe_task_definition` for each task-definition reference, and the
 * `update_service` calls the controller issues.
 */
module Ecs {
  import opened Wrappers

  type Arn = string

  /** What `describe_services` reports about one service. */
  datatype Service = Service(
    taskDefinition: string,
    desiredCount: nat,
    constraintTypes: seq<string>  // the `type` of each placement constraint, in order
  )

  /** A container definition; `None` when the response carries no `dockerLabels` field. */
  datatype ContainerDefinition = ContainerDefinition(dockerLabels: Option<map<string, string>>)

  datatype TaskDefinition = TaskDefinition(containerDefinitions: seq<ContainerDefinition>)

  /** The cluster as the remote API describes it: services by ARN, task definitions by reference. */
  datatype Cluster = Cluster(
    services: map<Arn, Service>,
    taskDefinitions: map<string, TaskDefinition>
  )

  /** One `update_service` call: set the service's desired count. */
  datatype Update = Update(service: Arn, desiredCount: nat)

  /** Why a cycle stops early; each is an exception the script does not catch. */
  datatype CycleError =
    | ListingUnterminated                          // a listing's responses ran out while still asking for more
    | ServiceNotFound(service: Arn)                // `services[0]` of an empty describe response
    | TaskDefinitionNotFound(taskDefinition: string)
    | NoContainerDefinitions(taskDefinition: string)  // `containerDefinitions[0]` of an empty list
    | NoDockerLabels(taskDefinition: string)          // `['dockerLabels']` missing on the first container

  /** The effect of one update on the remote state: only that service's desired count changes. */
  function Apply(c: Cluster, u: Update): (c': Cluster)
    ensures c'.taskDefinitions == c.taskDefinitions
    ensures c'.services.Keys == c.services.Keys
    ensures u.service in c.services ==>
      c'.services[u.service] == c.services[u.service].(desiredCount := u.desiredCount)
    ensures forall a :: a in c.services && a != u.service ==> c'.services[a] == c.services[a]
  {
    if u.service in c.services then
      c.(services := c.services[u.service := c.services[u.service].(desiredCount := u.desiredCount)])
    else c
  }

  /** The effect of a sequence of updates, applied in order. */
  function ApplyAll(c: Cluster, ups: seq<Update>): (c': Cluster)
    ensures c'.taskDefinitions == c.taskDefinitions
    ensures c'.services.Keys == c.services.Keys
    ensures forall a :: a in c.services && (forall u :: u in ups ==> u.service != a) ==>
      c'.services[a] == c.services[a]
    ensures forall a :: a in c.services ==>
      c'.services[a] == c.services[a] ||
      exists u :: u in ups && u.service == a && c'.services[a] == c.services[a].(desiredCount := u.desiredCount)
    decreases |ups|
  {
    if |ups| == 0 then c
    else
      var c' := ApplyAll(Apply(c, ups[0]), ups[1..]);
      assert forall u :: u in ups[1..] ==> u in ups;
      c'
  }
}
