/**
 * Cluster and node records of the deployment manager and the rules that change
 * them: submitting a deploy, stop or reset operation, and reconciling the
 * records when the remote executor answers.  Everything here is a value; the
 * class in module ClusterRecords updates the same records in place and is
 * proved against these functions.
 */
module Reconciliation {
  import opened Wrappers

  datatype ClusterStatus = New | Deployment | Stopped | Operational | Error | Remove

  datatype NodeStatus = Discover | Provisioning | Provisioned | Deploying | Ready | Stopped | Error | Removing

  datatype TaskStatus = Pending | Running | Ready | Error

  /** The top-level operations a cluster can run, each answered by its own receiver. */
  datatype Operation = Deploy | StopDeployment | ResetEnvironment

  /** A top-level task; `uuid` is the key that inbound responses carry. */
  datatype Task = Task(uuid: nat, op: Operation, status: TaskStatus, progress: nat)

  datatype Node = Node(
    uid: nat,
    name: string,
    status: NodeStatus,
    pendingAddition: bool,
    pendingDeletion: bool,
    roles: seq<string>,
    pendingRoles: seq<string>,
    progress: nat)

  datatype Notification = Notification(topic: string, message: string)

  /** One per-node record of a response; `progress` is absent when the executor sends none. */
  datatype NodeReport = NodeReport(uid: nat, progress: Option<nat>)

  datatype Response = Response(taskUuid: nat, status: TaskStatus, progress: nat, nodes: seq<NodeReport>)

  /** One message of the ordered list sent to the remote executor. */
  datatype Stage = Stage(rpcMethod: string, taskUuid: nat, nodeUids: seq<nat>)

  datatype SubmitError = InvalidClusterState | ConflictingOperation

  datatype ClusterState = ClusterState(
    status: ClusterStatus,
    deployedBefore: bool,
    nodes: seq<Node>,
    notifications: seq<Notification>,
    task: Option<Task>,
    nextUuid: nat)

  const WarningTopic := "warning"
  const ResettingAction := "environment resetting"

  /** A cluster as it is created: no task has run yet. */
  function Create(nodes: seq<Node>): ClusterState {
    ClusterState(New, false, nodes, [], None, 0)
  }

  /** A node added to a cluster with the roles it is to receive. */
  function NewNode(uid: nat, name: string, roles: seq<string>): Node {
    Node(uid, name, Discover, true, false, [], roles, 0)
  }

  predicate Terminal(s: TaskStatus) {
    s == TaskStatus.Ready || s == TaskStatus.Error
  }

  /** The cluster's operation token is held: its current task has not finished. */
  predicate Busy(s: ClusterState) {
    s.task.Some? && !Terminal(s.task.value.status)
  }

  predicate DeployRunning(s: ClusterState) {
    Busy(s) && s.task.value.op == Deploy
  }

  predicate ResettableStatus(c: ClusterStatus) {
    c == Operational || c == ClusterStatus.Error || c == ClusterStatus.Stopped
  }

  function NodeUids(nodes: seq<Node>): seq<nat> {
    seq(|nodes|, i requires 0 <= i < |nodes| => nodes[i].uid)
  }

  // ---------------------------------------------------------------------
  // Task graph builder and submission
  // ---------------------------------------------------------------------

  /**
   * The stage list of a reset: one environment-level stage addressed to no
   * node in particular, then two task batches over the cluster's nodes.
   */
  function ResetStages(uuid: nat, nodes: seq<Node>): (r: seq<Stage>)
    ensures |r| == 3
    ensures r[0].rpcMethod == "reset_environment" && r[0].nodeUids == []
    ensures r[1].rpcMethod == "execute_tasks" && r[2].rpcMethod == "execute_tasks"
    ensures r[1].nodeUids == NodeUids(nodes) && r[2].nodeUids == NodeUids(nodes)
    ensures forall k :: 0 <= k < |r| ==> r[k].taskUuid == uuid
  {
    var uids := NodeUids(nodes);
    [Stage("reset_environment", uuid, []), Stage("execute_tasks", uuid, uids), Stage("execute_tasks", uuid, uids)]
  }

  /** Takes the operation token for a new task of kind `op`. */
  function Launch(s: ClusterState, op: Operation): ClusterState {
    s.(task := Some(Task(s.nextUuid, op, Running, 0)), nextUuid := s.nextUuid + 1)
  }

  function SubmitDeployment(s: ClusterState): (r: Result<ClusterState, SubmitError>)
    ensures Busy(s) <==> r == Failure(ConflictingOperation)
    ensures r.Success? <==> !Busy(s)
    ensures r.Success? ==>
      && DeployRunning(r.value) && r.value.task.value.uuid == s.nextUuid
      && r.value.status == Deployment && r.value.nodes == s.nodes
      && r.value.notifications == s.notifications && r.value.deployedBefore == s.deployedBefore
  {
    if Busy(s) then Failure(ConflictingOperation)
    else Success(Launch(s, Deploy).(status := Deployment))
  }

  /** A stop is accepted only while a deployment is running; it supersedes that deployment. */
  function SubmitStop(s: ClusterState): (r: Result<ClusterState, SubmitError>)
    ensures r.Success? <==> DeployRunning(s)
    ensures r.Failure? ==> r.error == InvalidClusterState
    ensures r.Success? ==>
      && Busy(r.value) && r.value.task.value.op == StopDeployment && r.value.task.value.uuid == s.nextUuid
      && r.value.status == s.status && r.value.nodes == s.nodes && r.value.notifications == s.notifications
  {
    if DeployRunning(s) then Success(Launch(s, StopDeployment)) else Failure(InvalidClusterState)
  }

  /** A reset needs a free token and a cluster whose deployment has reached an end. */
  function SubmitReset(s: ClusterState): (r: Result<(ClusterState, seq<Stage>), SubmitError>)
    ensures Busy(s) ==> r == Failure(ConflictingOperation)
    ensures !Busy(s) && !ResettableStatus(s.status) ==> r == Failure(InvalidClusterState)
    ensures r.Success? <==> !Busy(s) && ResettableStatus(s.status)
    ensures r.Success? ==>
      && Busy(r.value.0) && r.value.0.task.value.op == ResetEnvironment
      && r.value.0.task.value.uuid == s.nextUuid
      && r.value.0.status == s.status && r.value.0.nodes == s.nodes
      && r.value.0.notifications == s.notifications
      && r.value.1 == ResetStages(s.nextUuid, s.nodes)
  {
    if Busy(s) then Failure(ConflictingOperation)
    else if !ResettableStatus(s.status) then Failure(InvalidClusterState)
    else Success((Launch(s, ResetEnvironment), ResetStages(s.nextUuid, s.nodes)))
  }

  /** `b` holds the nodes of `a`, in the same order: the same uids and names. */
  predicate SameNodes(a: seq<Node>, b: seq<Node>) {
    |a| == |b| && forall i :: 0 <= i < |a| ==> b[i].uid == a[i].uid && b[i].name == a[i].name
  }

  /**
   * The effect of an API request that flags node `uid` for removal: that
   * node gains the flag, and nothing else in the cluster changes.
   */
  function MarkPendingDeletion(s: ClusterState, uid: nat): (r: ClusterState)
    ensures r.(nodes := s.nodes) == s
    ensures SameNodes(s.nodes, r.nodes)
    ensures forall i :: 0 <= i < |r.nodes| ==>
      && r.nodes[i].pendingDeletion == (s.nodes[i].pendingDeletion || s.nodes[i].uid == uid)
      && r.nodes[i].(pendingDeletion := s.nodes[i].pendingDeletion) == s.nodes[i]
  {
    s.(nodes := seq(|s.nodes|, i requires 0 <= i < |s.nodes| =>
                      if s.nodes[i].uid == uid then s.nodes[i].(pendingDeletion := true) else s.nodes[i]))
  }

  // ---------------------------------------------------------------------
  // Receiver
  // ---------------------------------------------------------------------

  /** `msg` answers the cluster's current, unfinished task of kind `op`; any other message is dropped. */
  predicate Awaits(s: ClusterState, op: Operation, msg: Response) {
    Busy(s) && s.task.value.uuid == msg.taskUuid && s.task.value.op == op
  }

  function WithTask(s: ClusterState, status: TaskStatus, progress: nat): ClusterState
    requires s.task.Some?
  {
    s.(task := Some(s.task.value.(status := status, progress := progress)))
  }

  /** The first report about node `uid`, if the response has one. */
  function ReportFor(reports: seq<NodeReport>, uid: nat): (r: Option<NodeReport>)
    ensures r.Some? ==> r.value in reports && r.value.uid == uid
    ensures r.None? <==> forall k :: 0 <= k < |reports| ==> reports[k].uid != uid
    ensures forall k :: 0 <= k < |reports| && reports[k].uid == uid && (forall j :: 0 <= j < k ==> reports[j].uid != uid) ==>
      r == Some(reports[k])
  {
    if reports == [] then None
    else if reports[0].uid == uid then Some(reports[0])
    else ReportFor(reports[1..], uid)
  }

  /** A progress report during deployment. */
  function DeployProgress(n: Node, reports: seq<NodeReport>): Node {
    match ReportFor(reports, n.uid)
    case Some(NodeReport(_, Some(p))) => n.(status := Deploying, progress := p)
    case _ => n
  }

  /** A node at the end of a successful deployment: its pending roles become its roles. */
  function Deployed(n: Node): Node {
    n.(status := NodeStatus.Ready, pendingAddition := false,
       roles := n.roles + n.pendingRoles, pendingRoles := [], progress := 100)
  }

  function StopNode(n: Node, reports: seq<NodeReport>): Node {
    if ReportFor(reports, n.uid).Some? then n.(status := NodeStatus.Stopped) else n
  }

  /** A node returned to its pre-deployment state: its roles become pending again. */
  function ResetNode(n: Node): Node {
    n.(status := Discover, pendingAddition := true, pendingDeletion := false,
       roles := [], pendingRoles := n.pendingRoles + n.roles, progress := 0)
  }

  function DeployProgressAll(ns: seq<Node>, reports: seq<NodeReport>): seq<Node> {
    seq(|ns|, i requires 0 <= i < |ns| => DeployProgress(ns[i], reports))
  }

  function DeployedAll(ns: seq<Node>): seq<Node> {
    seq(|ns|, i requires 0 <= i < |ns| => Deployed(ns[i]))
  }

  function StopAll(ns: seq<Node>, reports: seq<NodeReport>): seq<Node> {
    seq(|ns|, i requires 0 <= i < |ns| => StopNode(ns[i], reports))
  }

  function ResetAll(ns: seq<Node>): seq<Node> {
    seq(|ns|, i requires 0 <= i < |ns| => ResetNode(ns[i]))
  }

  /**
   * The receiver's handling of a deployment answer.  A message about any
   * other task is dropped; a final answer releases the operation token; an
   * error leaves the nodes as they were.
   */
  function DeployResp(s: ClusterState, msg: Response): (r: ClusterState)
    ensures !Awaits(s, Deploy, msg) ==> r == s
    ensures Busy(r) <==> Busy(s) && !(Awaits(s, Deploy, msg) && Terminal(msg.status))
    ensures r.nextUuid == s.nextUuid && r.notifications == s.notifications
    ensures SameNodes(s.nodes, r.nodes)
    ensures Awaits(s, Deploy, msg) && msg.status == TaskStatus.Error ==>
      r.status == ClusterStatus.Error && r.nodes == s.nodes
  {
    if !Awaits(s, Deploy, msg) then s
    else match msg.status
      case Ready =>
        WithTask(s, TaskStatus.Ready, 100).(status := Operational, deployedBefore := true, nodes := DeployedAll(s.nodes))
      case Error =>
        WithTask(s, TaskStatus.Error, msg.progress).(status := ClusterStatus.Error)
      case _ =>
        WithTask(s, Running, msg.progress).(nodes := DeployProgressAll(s.nodes, msg.nodes))
  }

  /**
   * The receiver's handling of a stop answer, with the same rules for
   * foreign messages, final answers and errors as a deployment answer.
   */
  function StopDeploymentResp(s: ClusterState, msg: Response): (r: ClusterState)
    ensures !Awaits(s, StopDeployment, msg) ==> r == s
    ensures Busy(r) <==> Busy(s) && !(Awaits(s, StopDeployment, msg) && Terminal(msg.status))
    ensures r.nextUuid == s.nextUuid && r.notifications == s.notifications
    ensures SameNodes(s.nodes, r.nodes)
    ensures Awaits(s, StopDeployment, msg) && msg.status == TaskStatus.Error ==>
      r.status == ClusterStatus.Error && r.nodes == s.nodes
  {
    if !Awaits(s, StopDeployment, msg) then s
    else match msg.status
      case Ready =>
        WithTask(s, TaskStatus.Ready, 100).(status := ClusterStatus.Stopped, nodes := StopAll(s.nodes, msg.nodes))
      case Error =>
        WithTask(s, TaskStatus.Error, msg.progress).(status := ClusterStatus.Error)
      case _ =>
        WithTask(s, Running, msg.progress)
  }

  /** Names of the nodes, in cluster order, that the response does not mention. */
  function UnreachableNames(ns: seq<Node>, reports: seq<NodeReport>): (r: seq<string>)
    ensures |r| <= |ns|
    ensures forall i :: 0 <= i < |ns| && ReportFor(reports, ns[i].uid).None? ==> ns[i].name in r
    ensures forall name :: name in r ==>
      exists i :: 0 <= i < |ns| && ns[i].name == name && ReportFor(reports, ns[i].uid).None?
  {
    if ns == [] then []
    else
      var last := ns[|ns| - 1];
      var prefix := UnreachableNames(ns[..|ns| - 1], reports);
      assert forall i :: 0 <= i < |ns| - 1 ==> ns[..|ns| - 1][i] == ns[i];
      if ReportFor(reports, last.uid).Some? then prefix else prefix + [last.name]
  }

  /** Whether the response leaves node `n` out. */
  predicate Unanswered(reports: seq<NodeReport>, n: Node) {
    ReportFor(reports, n.uid).None?
  }

  /** Positions, in increasing order, of the nodes the response leaves out. */
  function UnansweredIndices(ns: seq<Node>, reports: seq<NodeReport>): (r: seq<nat>)
    ensures forall k :: 0 <= k < |r| ==> r[k] < |ns| && Unanswered(reports, ns[r[k]])
    ensures forall k, l :: 0 <= k < l < |r| ==> r[k] < r[l]
    ensures forall i :: 0 <= i < |ns| && Unanswered(reports, ns[i]) ==> i in r
  {
    if ns == [] then []
    else
      var prefix := UnansweredIndices(ns[..|ns| - 1], reports);
      assert forall i :: 0 <= i < |ns| - 1 ==> ns[..|ns| - 1][i] == ns[i];
      if Unanswered(reports, ns[|ns| - 1]) then prefix + [|ns| - 1] else prefix
  }

  /**
   * The unreachable names are the names of the unanswered nodes, one entry per
   * node, in cluster order.
   */
  lemma {:induction false} UnreachableNamesInOrder(ns: seq<Node>, reports: seq<NodeReport>)
    ensures var idx := UnansweredIndices(ns, reports);
      && |UnreachableNames(ns, reports)| == |idx|
      && forall k :: 0 <= k < |idx| ==> UnreachableNames(ns, reports)[k] == ns[idx[k]].name
  {
    if ns != [] {
      var init := ns[..|ns| - 1];
      UnreachableNamesInOrder(init, reports);
      var idx := UnansweredIndices(init, reports);
      forall k | 0 <= k < |idx|
        ensures init[idx[k]] == ns[idx[k]]
      {
      }
    }
  }

  /** Each name in single quotes, separated by ", ". */
  function QuotedNames(names: seq<string>): string {
    if names == [] then ""
    else if |names| == 1 then "'" + names[0] + "'"
    else "'" + names[0] + "', " + QuotedNames(names[1..])
  }

  function UnreachableMessage(action: string, names: seq<string>): string {
    "Fuel couldn't reach these nodes during " + action + ": " + QuotedNames(names) + ". Manual check may be needed."
  }

  /** One warning for the whole reset, and none when every node answered. */
  function UnreachableWarnings(names: seq<string>): seq<Notification> {
    if names == [] then [] else [Notification(WarningTopic, UnreachableMessage(ResettingAction, names))]
  }

  /**
   * The receiver's handling of a reset answer, with the same rules for
   * foreign messages, final answers and errors as a deployment answer.
   */
  function ResetEnvironmentResp(s: ClusterState, msg: Response): (r: ClusterState)
    ensures !Awaits(s, ResetEnvironment, msg) ==> r == s
    ensures Busy(r) <==> Busy(s) && !(Awaits(s, ResetEnvironment, msg) && Terminal(msg.status))
    ensures r.nextUuid == s.nextUuid
    ensures SameNodes(s.nodes, r.nodes)
    ensures Awaits(s, ResetEnvironment, msg) && msg.status == TaskStatus.Error ==>
      r.status == ClusterStatus.Error && r.nodes == s.nodes && r.notifications == s.notifications
  {
    if !Awaits(s, ResetEnvironment, msg) then s
    else match msg.status
      case Ready =>
        WithTask(s, TaskStatus.Ready, 100).(
          status := New, deployedBefore := false, nodes := ResetAll(s.nodes),
          notifications := s.notifications + UnreachableWarnings(UnreachableNames(s.nodes, msg.nodes)))
      case Error =>
        WithTask(s, TaskStatus.Error, msg.progress).(status := ClusterStatus.Error)
      case _ =>
        WithTask(s, Running, msg.progress)
  }
}
