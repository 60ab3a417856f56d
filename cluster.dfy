/**
 * The stored cluster record, its node records and its notification table,
 * updated in place by the operations that start tasks and by the receivers
 * that reconcile the records when the remote executor answers.  Every method
 * is proved to leave the records as the matching function of module
 * Reconciliation says.
 */
module ClusterRecords {
  import opened Wrappers
  import opened Reconciliation

  class Cluster {
    var status: ClusterStatus
    var deployedBefore: bool
    const nodes: array<Node>
    var notifications: seq<Notification>
    var task: Option<Task>
    var nextUuid: nat

    /** The stored records as one value. */
    function State(): ClusterState
      reads this, nodes
    {
      ClusterState(status, deployedBefore, nodes[..], notifications, task, nextUuid)
    }

    constructor (initial: seq<Node>)
      ensures State() == Create(initial)
      ensures fresh(nodes)
    {
      status, deployedBefore := New, false;
      nodes := new Node[|initial|](i requires 0 <= i < |initial| => initial[i]);
      notifications, task, nextUuid := [], None, 0;
      new;
      assert nodes[..] == initial;
    }

    /** Sets each node record to `f` of itself. */
    method UpdateEachNode(f: Node -> Node)
      modifies nodes
      ensures forall k :: 0 <= k < nodes.Length ==> nodes[k] == f(old(nodes[k]))
    {
      var i := 0;
      while i < nodes.Length
        invariant 0 <= i <= nodes.Length
        invariant forall k :: 0 <= k < i ==> nodes[k] == f(old(nodes[k]))
        invariant forall k :: i <= k < nodes.Length ==> nodes[k] == old(nodes[k])
      {
        nodes[i] := f(nodes[i]);
        i := i + 1;
      }
    }

    /** Starts a deployment; answers the new task's uuid. */
    method LaunchDeployment() returns (r: Result<nat, SubmitError>)
      modifies this
      ensures match SubmitDeployment(old(State()))
        case Success(next) => r == Success(old(nextUuid)) && State() == next
        case Failure(e) => r == Failure(e) && State() == old(State())
    {
      if Busy(State()) {
        return Failure(ConflictingOperation);
      }
      r := Success(nextUuid);
      task := Some(Task(nextUuid, Deploy, Running, 0));
      nextUuid := nextUuid + 1;
      status := Deployment;
    }

    /** Stops the running deployment; answers the stop task's uuid. */
    method StopDeployment() returns (r: Result<nat, SubmitError>)
      modifies this
      ensures match SubmitStop(old(State()))
        case Success(next) => r == Success(old(nextUuid)) && State() == next
        case Failure(e) => r == Failure(e) && State() == old(State())
    {
      if !DeployRunning(State()) {
        return Failure(InvalidClusterState);
      }
      r := Success(nextUuid);
      task := Some(Task(nextUuid, Operation.StopDeployment, Running, 0));
      nextUuid := nextUuid + 1;
    }

    /** Starts an environment reset; answers the stages sent to the executor. */
    method ResetEnvironment() returns (r: Result<seq<Stage>, SubmitError>)
      modifies this
      ensures match SubmitReset(old(State()))
        case Success(next) => r == Success(next.1) && State() == next.0
        case Failure(e) => r == Failure(e) && State() == old(State())
    {
      if Busy(State()) {
        return Failure(ConflictingOperation);
      }
      if !ResettableStatus(status) {
        return Failure(InvalidClusterState);
      }
      r := Success(ResetStages(nextUuid, nodes[..]));
      task := Some(Task(nextUuid, Operation.ResetEnvironment, Running, 0));
      nextUuid := nextUuid + 1;
    }

    /** Flags node `uid` for removal. */
    method MarkPendingDeletion(uid: nat)
      modifies nodes
      ensures State() == Reconciliation.MarkPendingDeletion(old(State()), uid)
    {
      UpdateEachNode((n: Node) => if n.uid == uid then n.(pendingDeletion := true) else n);
    }

    method DeployResp(msg: Response)
      modifies this, nodes
      ensures State() == Reconciliation.DeployResp(old(State()), msg)
    {
      if !Awaits(State(), Deploy, msg) {
        return;
      }
      match msg.status
      case Ready =>
        UpdateEachNode(Deployed);
        task := Some(task.value.(status := TaskStatus.Ready, progress := 100));
        status, deployedBefore := Operational, true;
      case Error =>
        task := Some(task.value.(status := TaskStatus.Error, progress := msg.progress));
        status := ClusterStatus.Error;
      case _ =>
        UpdateEachNode(n => DeployProgress(n, msg.nodes));
        task := Some(task.value.(status := Running, progress := msg.progress));
    }

    method StopDeploymentResp(msg: Response)
      modifies this, nodes
      ensures State() == Reconciliation.StopDeploymentResp(old(State()), msg)
    {
      if !Awaits(State(), Operation.StopDeployment, msg) {
        return;
      }
      match msg.status
      case Ready =>
        UpdateEachNode(n => StopNode(n, msg.nodes));
        task := Some(task.value.(status := TaskStatus.Ready, progress := 100));
        status := ClusterStatus.Stopped;
      case Error =>
        task := Some(task.value.(status := TaskStatus.Error, progress := msg.progress));
        status := ClusterStatus.Error;
      case _ =>
        task := Some(task.value.(status := Running, progress := msg.progress));
    }

    /** Resets every node in one pass, answering the names of the nodes `reports` leaves out. */
    method ResetNodes(reports: seq<NodeReport>) returns (unreachable: seq<string>)
      modifies nodes
      ensures nodes[..] == ResetAll(old(nodes[..]))
      ensures unreachable == UnreachableNames(old(nodes[..]), reports)
    {
      ghost var before := nodes[..];
      unreachable := [];
      var i := 0;
      while i < nodes.Length
        invariant 0 <= i <= nodes.Length
        invariant forall k :: 0 <= k < i ==> nodes[k] == ResetNode(before[k])
        invariant forall k :: i <= k < nodes.Length ==> nodes[k] == before[k]
        invariant unreachable == UnreachableNames(before[..i], reports)
      {
        assert before[..i + 1][..i] == before[..i];
        if ReportFor(reports, nodes[i].uid).None? {
          unreachable := unreachable + [nodes[i].name];
        }
        nodes[i] := ResetNode(nodes[i]);
        i := i + 1;
      }
      assert before[..i] == before;
    }

    /** Resets every node, then raises one warning for those the response does not mention. */
    method ResetEnvironmentResp(msg: Response)
      modifies this, nodes
      ensures State() == Reconciliation.ResetEnvironmentResp(old(State()), msg)
    {
      if !Awaits(State(), Operation.ResetEnvironment, msg) {
        return;
      }
      match msg.status
      case Ready =>
        var unreachable := ResetNodes(msg.nodes);
        notifications := notifications + UnreachableWarnings(unreachable);
        task := Some(task.value.(status := TaskStatus.Ready, progress := 100));
        status, deployedBefore := New, false;
      case Error =>
        task := Some(task.value.(status := TaskStatus.Error, progress := msg.progress));
        status := ClusterStatus.Error;
      case _ =>
        task := Some(task.value.(status := Running, progress := msg.progress));
    }
  }
}
