/**
 * What a deployment, a stop and an environment reset do to the cluster and its
 * nodes, stated about the reconciliation functions: first one step at a time,
 * then for the whole deploy / stop / reset sequences.
 */
module ResetProperties {
  import opened Wrappers
  import opened Reconciliation

  /** A node whose roles are assigned and nothing is pending. */
  predicate Settled(n: Node) {
    n.pendingRoles == [] && !n.pendingAddition
  }

  /** A node waiting to be deployed: no active role, its roles pending. */
  predicate PendingDeployment(n: Node) {
    n.roles == [] && n.pendingAddition && !n.pendingDeletion
  }

  /** A successful deployment settles every node, moving its pending roles to its roles. */
  lemma DeploymentSettlesNodes(s: ClusterState, msg: Response)
    requires Awaits(s, Deploy, msg) && msg.status == TaskStatus.Ready
    ensures var r := DeployResp(s, msg);
      && r.task.value.status == TaskStatus.Ready && !Busy(r)
      && r.status == Operational && r.deployedBefore
      && r.notifications == s.notifications
      && |r.nodes| == |s.nodes|
      && forall i :: 0 <= i < |r.nodes| ==>
           && r.nodes[i].uid == s.nodes[i].uid && r.nodes[i].name == s.nodes[i].name
           && r.nodes[i].status == NodeStatus.Ready && Settled(r.nodes[i])
           && r.nodes[i].roles == s.nodes[i].roles + s.nodes[i].pendingRoles
  {
  }

  /** A running deployment report moves the task's progress and each reported node's progress. */
  lemma DeploymentProgress(s: ClusterState, msg: Response)
    requires Awaits(s, Deploy, msg) && msg.status == Running
    ensures var r := DeployResp(s, msg);
      && DeployRunning(r) && r.task.value.progress == msg.progress && r.task.value.uuid == s.task.value.uuid
      && r.status == s.status && r.notifications == s.notifications
      && |r.nodes| == |s.nodes|
      && forall i :: 0 <= i < |r.nodes| ==>
           && r.nodes[i].uid == s.nodes[i].uid && r.nodes[i].name == s.nodes[i].name
           && r.nodes[i].roles == s.nodes[i].roles && r.nodes[i].pendingRoles == s.nodes[i].pendingRoles
           && r.nodes[i].pendingAddition == s.nodes[i].pendingAddition
           && r.nodes[i].pendingDeletion == s.nodes[i].pendingDeletion
           && (forall p :: ReportFor(msg.nodes, s.nodes[i].uid) == Some(NodeReport(s.nodes[i].uid, Some(p))) ==>
                 r.nodes[i].progress == p && r.nodes[i].status == Deploying)
           && (ReportFor(msg.nodes, s.nodes[i].uid).None? || ReportFor(msg.nodes, s.nodes[i].uid).value.progress.None? ==>
                 r.nodes[i] == s.nodes[i])
  {
  }

  /** A completed stop releases the cluster in the stopped state, where a reset is accepted. */
  lemma StopLeavesClusterResettable(s: ClusterState, msg: Response)
    requires Awaits(s, StopDeployment, msg) && msg.status == TaskStatus.Ready
    ensures var r := StopDeploymentResp(s, msg);
      && r.status == ClusterStatus.Stopped && !Busy(r)
      && SubmitReset(r).Success?
      && r.notifications == s.notifications
      && |r.nodes| == |s.nodes|
      && forall i :: 0 <= i < |r.nodes| ==>
           r.nodes[i] == s.nodes[i].(status := r.nodes[i].status)
  {
  }

  /** A successful reset returns the cluster to "new" and every node to discovery with its roles pending. */
  lemma ResetCompletes(s: ClusterState, msg: Response)
    requires Awaits(s, ResetEnvironment, msg) && msg.status == TaskStatus.Ready
    ensures var r := ResetEnvironmentResp(s, msg);
      && r.task.value.status == TaskStatus.Ready && !Busy(r)
      && r.status == New && !r.deployedBefore
      && |r.nodes| == |s.nodes|
      && forall i :: 0 <= i < |r.nodes| ==>
           && r.nodes[i].uid == s.nodes[i].uid && r.nodes[i].name == s.nodes[i].name
           && r.nodes[i].status == Discover && r.nodes[i].progress == 0
           && PendingDeployment(r.nodes[i])
           && multiset(r.nodes[i].pendingRoles) == multiset(s.nodes[i].roles) + multiset(s.nodes[i].pendingRoles)
           && (s.nodes[i].roles != [] || s.nodes[i].pendingRoles != [] ==> r.nodes[i].pendingRoles != [])
  {
    var r := ResetEnvironmentResp(s, msg);
    forall i | 0 <= i < |r.nodes|
      ensures (s.nodes[i].roles != [] || s.nodes[i].pendingRoles != [] ==> r.nodes[i].pendingRoles != [])
    {
      assert r.nodes[i].pendingRoles == s.nodes[i].pendingRoles + s.nodes[i].roles;
      assert |r.nodes[i].pendingRoles| == |s.nodes[i].pendingRoles| + |s.nodes[i].roles|;
    }
  }

  /** A node added and deployed, then reset, is the node as it was first added. */
  lemma DeployThenResetRestoresNode(uid: nat, name: string, roles: seq<string>)
    ensures ResetNode(Deployed(NewNode(uid, name, roles))) == NewNode(uid, name, roles)
  {
    assert [] + roles + [] == roles;
  }

  /** No unreachable names when the response mentions every node. */
  lemma {:induction false} AllAnsweredNoneUnreachable(ns: seq<Node>, reports: seq<NodeReport>)
    requires forall i :: 0 <= i < |ns| ==> ReportFor(reports, ns[i].uid).Some?
    ensures UnreachableNames(ns, reports) == []
  {
    if ns != [] {
      AllAnsweredNoneUnreachable(ns[..|ns| - 1], reports);
    }
  }

  /** A reset that every node answered raises no warning. */
  lemma AllAnsweredNoWarning(s: ClusterState, msg: Response)
    requires Awaits(s, ResetEnvironment, msg) && msg.status == TaskStatus.Ready
    requires forall i :: 0 <= i < |s.nodes| ==> ReportFor(msg.nodes, s.nodes[i].uid).Some?
    ensures ResetEnvironmentResp(s, msg).notifications == s.notifications
  {
    AllAnsweredNoneUnreachable(s.nodes, msg.nodes);
  }

  /**
   * Reconciling any response only appends to the notifications, and at most
   * one entry: a warning naming the unreachable nodes, present exactly when
   * the awaited reset finished and some node did not answer.
   */
  lemma ResetNotifications(s: ClusterState, msg: Response)
    ensures var r := ResetEnvironmentResp(s, msg);
      && |s.notifications| <= |r.notifications| <= |s.notifications| + 1
      && r.notifications[..|s.notifications|] == s.notifications
      && (|r.notifications| == |s.notifications| + 1 <==>
            && Awaits(s, ResetEnvironment, msg) && msg.status == TaskStatus.Ready
            && exists i :: 0 <= i < |s.nodes| && Unanswered(msg.nodes, s.nodes[i]))
      && (|r.notifications| == |s.notifications| + 1 ==>
            r.notifications[|s.notifications|]
              == Notification(WarningTopic, UnreachableMessage(ResettingAction, UnreachableNames(s.nodes, msg.nodes))))
  {
    UnreachableNamesEmpty(s.nodes, msg.nodes);
  }

  /** No node is listed as unreachable exactly when every node answered. */
  lemma UnreachableNamesEmpty(ns: seq<Node>, reports: seq<NodeReport>)
    ensures UnreachableNames(ns, reports) != [] <==> exists i :: 0 <= i < |ns| && Unanswered(reports, ns[i])
  {
    var names := UnreachableNames(ns, reports);
    if names != [] {
      assert names[0] in names;
    }
    forall i | 0 <= i < |ns| && Unanswered(reports, ns[i])
      ensures names != []
    {
      assert ns[i].name in names;
    }
  }

  /** The text before the first quoted name, as one literal. */
  lemma MessageHead()
    ensures "Fuel couldn't reach these nodes during " + ResettingAction + ": " + "'"
            == "Fuel couldn't reach these nodes during environment resetting: '"
  {
    assert "Fuel couldn't reach these nodes during " + ResettingAction
           == "Fuel couldn't reach these nodes during environment resetting";
    assert ": " + "'" == ": '";
  }

  /** The text after the last quoted name, as one literal. */
  lemma MessageTail()
    ensures "'" + ". Manual check may be needed." == "'. Manual check may be needed."
  {
  }

  /** The warning text for a single unreachable node. */
  lemma SingleNameMessage(name: string)
    ensures UnreachableMessage(ResettingAction, [name]) ==
      "Fuel couldn't reach these nodes during environment resetting: '" + name + "'. Manual check may be needed."
  {
    var head := "Fuel couldn't reach these nodes during " + ResettingAction + ": ";
    var tail := ". Manual check may be needed.";
    assert QuotedNames([name]) == "'" + name + "'";
    MessageHead();
    MessageTail();
    assert UnreachableMessage(ResettingAction, [name]) == (head + "'") + name + ("'" + tail);
  }

  /** Of two nodes, only the one without a report is listed as unreachable. */
  lemma OneOfTwoNames(ns: seq<Node>, reports: seq<NodeReport>, j: nat)
    requires |ns| == 2 && j < 2
    requires ReportFor(reports, ns[j].uid).None? && ReportFor(reports, ns[1 - j].uid).Some?
    ensures UnreachableNames(ns, reports) == [ns[j].name]
  {
    assert ns[..1][..0] == [];
    assert UnreachableNames(ns[..1], reports) == if j == 0 then [ns[0].name] else [];
    assert ns[..2 - 1] == ns[..1];
  }

  /** When one of two nodes does not answer, exactly one warning names it, and only it. */
  lemma OneOfTwoUnreachable(s: ClusterState, msg: Response, j: nat)
    requires Awaits(s, ResetEnvironment, msg) && msg.status == TaskStatus.Ready
    requires |s.nodes| == 2 && j < 2
    requires ReportFor(msg.nodes, s.nodes[j].uid).None?
    requires ReportFor(msg.nodes, s.nodes[1 - j].uid).Some?
    ensures ResetEnvironmentResp(s, msg).notifications == s.notifications + [
      Notification("warning",
        "Fuel couldn't reach these nodes during environment resetting: '" + s.nodes[j].name + "'. Manual check may be needed.")]
  {
    OneOfTwoNames(s.nodes, msg.nodes, j);
    SingleNameMessage(s.nodes[j].name);
    ResetNotifications(s, msg);
    var r := ResetEnvironmentResp(s, msg).notifications;
    assert Unanswered(msg.nodes, s.nodes[j]);
    assert r == r[..|s.notifications|] + [r[|s.notifications|]];
  }

  /** Repeating a final response changes nothing: a finished task ignores further messages. */
  lemma TerminalResponsesIdempotent(s: ClusterState, msg: Response)
    requires Terminal(msg.status)
    ensures DeployResp(DeployResp(s, msg), msg) == DeployResp(s, msg)
    ensures StopDeploymentResp(StopDeploymentResp(s, msg), msg) == StopDeploymentResp(s, msg)
    ensures ResetEnvironmentResp(ResetEnvironmentResp(s, msg), msg) == ResetEnvironmentResp(s, msg)
  {
  }

  /** While a task holds the token, neither a deployment nor a reset can start. */
  lemma BusyClusterRejectsSubmits(s: ClusterState)
    requires Busy(s)
    ensures SubmitDeployment(s) == Failure(ConflictingOperation)
    ensures SubmitReset(s) == Failure(ConflictingOperation)
  {
  }

  // ---------------------------------------------------------------------
  // Whole sequences: deploy, then reset
  // ---------------------------------------------------------------------

  function AnsweredBy(uids: seq<nat>): seq<NodeReport> {
    seq(|uids|, i requires 0 <= i < |uids| => NodeReport(uids[i], None))
  }

  lemma AnsweredByReports(uids: seq<nat>, uid: nat)
    ensures ReportFor(AnsweredBy(uids), uid).Some? <==> uid in uids
  {
    var reports := AnsweredBy(uids);
    if uid in uids {
      var k :| 0 <= k < |uids| && uids[k] == uid;
      assert reports[k].uid == uid;
    }
  }

  function ClusterOf(first: string, second: string, roles1: seq<string>, roles2: seq<string>): ClusterState {
    Create([NewNode(1, first, roles1), NewNode(2, second, roles2)])
  }

  /** Every node of `s` has been reset: back in discovery, its roles pending. */
  predicate NodesReset(s: ClusterState) {
    forall n :: n in s.nodes ==>
      n.status == Discover && n.progress == 0 && PendingDeployment(n) && n.pendingRoles != []
  }

  /** The cluster state a finished reset leaves behind. */
  predicate ResetOutcome(s: ClusterState) {
    && s.task.Some? && s.task.value.status == TaskStatus.Ready
    && s.status == New && !s.deployedBefore
    && NodesReset(s)
  }

  /** A successful reset of nodes that all hold a role reaches the reset outcome. */
  lemma ResetReachesOutcome(s: ClusterState, msg: Response)
    requires Awaits(s, ResetEnvironment, msg) && msg.status == TaskStatus.Ready
    requires forall n :: n in s.nodes ==> n.roles != [] || n.pendingRoles != []
    ensures ResetOutcome(ResetEnvironmentResp(s, msg))
  {
    ResetCompletes(s, msg);
    var r := ResetEnvironmentResp(s, msg);
    forall n | n in r.nodes
      ensures n.status == Discover && n.progress == 0 && PendingDeployment(n) && n.pendingRoles != []
    {
      var i :| 0 <= i < |r.nodes| && r.nodes[i] == n;
      assert s.nodes[i] in s.nodes;
    }
  }

  /** Deployment completion over a cluster of two nodes. */
  lemma PairDeployed(a: Node, b: Node)
    ensures DeployedAll([a, b]) == [Deployed(a), Deployed(b)]
  {
  }

  /** A progress report of 10 for nodes 1 and 2 reaches both nodes. */
  lemma PairProgress(a: Node, b: Node)
    requires a.uid == 1 && b.uid == 2
    ensures DeployProgressAll([a, b], ProgressReports([1, 2], 10))
            == [a.(status := Deploying, progress := 10), b.(status := Deploying, progress := 10)]
  {
    var reports := ProgressReports([1, 2], 10);
    assert ReportFor(reports, 1) == Some(NodeReport(1, Some(10)));
    assert ReportFor(reports, 2) == Some(NodeReport(2, Some(10)));
  }

  /** A stop answered by nodes 1 and 2 stops both. */
  lemma PairStopped(a: Node, b: Node)
    requires a.uid == 1 && b.uid == 2
    ensures StopAll([a, b], AnsweredBy([1, 2])) == [a.(status := NodeStatus.Stopped), b.(status := NodeStatus.Stopped)]
  {
    AnsweredByReports([1, 2], 1);
    AnsweredByReports([1, 2], 2);
  }

  /** The pair of nodes after a finished deployment. */
  function DeployedPairState(first: string, second: string, roles1: seq<string>, roles2: seq<string>): ClusterState {
    ClusterState(Operational, true, [Deployed(NewNode(1, first, roles1)), Deployed(NewNode(2, second, roles2))], [],
                 Some(Task(0, Deploy, TaskStatus.Ready, 100)), 1)
  }

  /** Deploying two new nodes, answered as ready, leaves both nodes ready and no longer pending addition. */
  lemma DeployPair(first: string, second: string, roles1: seq<string>, roles2: seq<string>)
    ensures SubmitDeployment(ClusterOf(first, second, roles1, roles2)).Success?
    ensures
      var s1 := SubmitDeployment(ClusterOf(first, second, roles1, roles2)).value;
      var s2 := DeployResp(s1, Response(s1.task.value.uuid, TaskStatus.Ready, 100, AnsweredBy([1, 2])));
      && s2 == DeployedPairState(first, second, roles1, roles2)
      && s2.task.value.status == TaskStatus.Ready
      && (forall n :: n in s2.nodes ==> n.status == NodeStatus.Ready && !n.pendingAddition)
  {
    var n1, n2 := NewNode(1, first, roles1), NewNode(2, second, roles2);
    var s1 := SubmitDeployment(ClusterOf(first, second, roles1, roles2)).value;
    assert s1 == ClusterState(Deployment, false, [n1, n2], [], Some(Task(0, Deploy, Running, 0)), 1);
    PairDeployed(n1, n2);
  }

  /**
   * Two nodes are deployed, then the environment is reset while the second
   * node does not answer: the deployment leaves both nodes ready, the reset
   * sends three stages, leaves both nodes back in discovery with their roles
   * pending, and raises one warning naming the second node.
   */
  lemma ResetAfterDeployment(first: string, second: string, roles1: seq<string>, roles2: seq<string>)
    requires roles1 != [] && roles2 != []
    ensures SubmitDeployment(ClusterOf(first, second, roles1, roles2)).Success?
    ensures
      var s1 := SubmitDeployment(ClusterOf(first, second, roles1, roles2)).value;
      var s2 := DeployResp(s1, Response(s1.task.value.uuid, TaskStatus.Ready, 100, AnsweredBy([1, 2])));
      && s2.task.value.status == TaskStatus.Ready
      && (forall n :: n in s2.nodes ==> n.status == NodeStatus.Ready && !n.pendingAddition)
      && SubmitReset(s2).Success?
      && SubmitReset(s2).value.1 == ResetStages(s2.nextUuid, s2.nodes)
      && var s3 := SubmitReset(s2).value.0;
         var s4 := ResetEnvironmentResp(s3, Response(s3.task.value.uuid, TaskStatus.Ready, 100, AnsweredBy([1])));
         && ResetOutcome(s4)
         && s4.notifications == [Notification("warning",
              "Fuel couldn't reach these nodes during environment resetting: '" + second + "'. Manual check may be needed.")]
  {
    DeployPair(first, second, roles1, roles2);
    var s2 := DeployedPairState(first, second, roles1, roles2);
    var s3 := s2.(task := Some(Task(1, ResetEnvironment, Running, 0)), nextUuid := 2);
    assert SubmitReset(s2) == Success((s3, ResetStages(1, s2.nodes)));
    ResetDeployedPairSecondSilent(first, second, roles1, roles2);
  }

  /** Resetting the deployed pair while the second node does not answer. */
  lemma ResetDeployedPairSecondSilent(first: string, second: string, roles1: seq<string>, roles2: seq<string>)
    requires roles1 != [] && roles2 != []
    ensures
      var s3 := DeployedPairState(first, second, roles1, roles2).(task := Some(Task(1, ResetEnvironment, Running, 0)), nextUuid := 2);
      var s4 := ResetEnvironmentResp(s3, Response(1, TaskStatus.Ready, 100, AnsweredBy([1])));
      && ResetOutcome(s4)
      && s4.notifications == [Notification("warning",
           "Fuel couldn't reach these nodes during environment resetting: '" + second + "'. Manual check may be needed.")]
  {
    var s3 := DeployedPairState(first, second, roles1, roles2).(task := Some(Task(1, ResetEnvironment, Running, 0)), nextUuid := 2);
    var m2 := Response(1, TaskStatus.Ready, 100, AnsweredBy([1]));
    AnsweredByReports([1], 1);
    AnsweredByReports([1], 2);
    OneOfTwoUnreachable(s3, m2, 1);
    ResetReachesOutcome(s3, m2);
  }

  /**
   * A finished reset forgets every removal flag: flagging a node before the
   * reset answer arrives makes no difference to the records it leaves.
   */
  lemma ResetForgetsPendingDeletion(s: ClusterState, uid: nat, msg: Response)
    requires Awaits(s, ResetEnvironment, msg) && msg.status == TaskStatus.Ready
    ensures Awaits(MarkPendingDeletion(s, uid), ResetEnvironment, msg)
    ensures ResetEnvironmentResp(MarkPendingDeletion(s, uid), msg) == ResetEnvironmentResp(s, msg)
  {
    var m := MarkPendingDeletion(s, uid);
    assert ResetAll(m.nodes) == ResetAll(s.nodes) by {
      forall i | 0 <= i < |s.nodes|
        ensures ResetNode(m.nodes[i]) == ResetNode(s.nodes[i])
      {
        assert m.nodes[i].(pendingDeletion := s.nodes[i].pendingDeletion) == s.nodes[i];
      }
    }
    UnreachableNamesSameNodes(s.nodes, m.nodes, msg.nodes);
  }

  /** Which nodes are unreachable depends only on their uids and names. */
  lemma {:induction false} UnreachableNamesSameNodes(a: seq<Node>, b: seq<Node>, reports: seq<NodeReport>)
    requires SameNodes(a, b)
    ensures UnreachableNames(a, reports) == UnreachableNames(b, reports)
    decreases |a|
  {
    if a != [] {
      UnreachableNamesSameNodes(a[..|a| - 1], b[..|b| - 1], reports);
    }
  }

  /**
   * A node flagged for removal after its deployment is, after a reset it does
   * not answer, waiting to be added again and no longer flagged for removal.
   */
  lemma ResetOverridesPendingDeletion(name: string, roles: seq<string>)
    ensures SubmitDeployment(Create([NewNode(1, name, roles)])).Success?
    ensures
      var s1 := SubmitDeployment(Create([NewNode(1, name, roles)])).value;
      var s2 := DeployResp(s1, Response(s1.task.value.uuid, TaskStatus.Ready, 100, AnsweredBy([1])));
      var s3 := MarkPendingDeletion(s2, 1);
      && s3.nodes[0].pendingDeletion
      && SubmitReset(s3).Success?
      && var s4 := SubmitReset(s3).value.0;
         var s5 := ResetEnvironmentResp(s4, Response(s4.task.value.uuid, TaskStatus.Ready, 100, []));
         && s5.task.value.status == TaskStatus.Ready
         && s5.nodes[0].pendingAddition && !s5.nodes[0].pendingDeletion
  {
    var n := NewNode(1, name, roles);
    var s1 := SubmitDeployment(Create([n])).value;
    assert s1 == ClusterState(Deployment, false, [n], [], Some(Task(0, Deploy, Running, 0)), 1);
    var m1 := Response(0, TaskStatus.Ready, 100, AnsweredBy([1]));
    var s2 := DeployResp(s1, m1);
    assert s2.nodes == [Deployed(n)];
    var s3 := MarkPendingDeletion(s2, 1);
    assert s3.nodes == [Deployed(n).(pendingDeletion := true)];
    var s4 := SubmitReset(s3).value.0;
    assert s4 == s3.(task := Some(Task(1, ResetEnvironment, Running, 0)), nextUuid := 2);
    ResetCompletes(s4, Response(1, TaskStatus.Ready, 100, []));
  }

  function ProgressReports(uids: seq<nat>, p: nat): seq<NodeReport> {
    seq(|uids|, i requires 0 <= i < |uids| => NodeReport(uids[i], Some(p)))
  }

  /** The pair of nodes after a deployment stopped at 50%, with both nodes at 10%. */
  function StoppedPairState(first: string, second: string, roles1: seq<string>, roles2: seq<string>): ClusterState {
    var t1 := NewNode(1, first, roles1).(status := NodeStatus.Stopped, progress := 10);
    var t2 := NewNode(2, second, roles2).(status := NodeStatus.Stopped, progress := 10);
    ClusterState(ClusterStatus.Stopped, false, [t1, t2], [], Some(Task(1, StopDeployment, TaskStatus.Ready, 100)), 2)
  }

  /**
   * A deployment of two nodes reported at 50% with its nodes at 10%, then
   * stopped: the stop is accepted and leaves the cluster stopped.
   */
  lemma StopPartWay(first: string, second: string, roles1: seq<string>, roles2: seq<string>)
    ensures SubmitDeployment(ClusterOf(first, second, roles1, roles2)).Success?
    ensures
      var s1 := SubmitDeployment(ClusterOf(first, second, roles1, roles2)).value;
      var s2 := DeployResp(s1, Response(s1.task.value.uuid, Running, 50, ProgressReports([1, 2], 10)));
      && s2.task.value.progress == 50
      && (forall n :: n in s2.nodes ==> n.progress == 10)
      && SubmitStop(s2).Success?
      && var s3 := SubmitStop(s2).value;
         StopDeploymentResp(s3, Response(s3.task.value.uuid, TaskStatus.Ready, 100, AnsweredBy([1, 2])))
           == StoppedPairState(first, second, roles1, roles2)
  {
    var n1, n2 := NewNode(1, first, roles1), NewNode(2, second, roles2);
    var s1 := SubmitDeployment(ClusterOf(first, second, roles1, roles2)).value;
    assert s1 == ClusterState(Deployment, false, [n1, n2], [], Some(Task(0, Deploy, Running, 0)), 1);
    var d1, d2 := n1.(status := Deploying, progress := 10), n2.(status := Deploying, progress := 10);
    PairProgress(n1, n2);
    var s2 := DeployResp(s1, Response(0, Running, 50, ProgressReports([1, 2], 10)));
    assert s2 == s1.(task := Some(Task(0, Deploy, Running, 50)), nodes := [d1, d2]);
    var s3 := SubmitStop(s2).value;
    assert s3 == s2.(task := Some(Task(1, StopDeployment, Running, 0)), nextUuid := 2);
    PairStopped(d1, d2);
  }

  /**
   * A deployment stopped part-way (task at 50, nodes at 10), then reset with
   * every node answering: the reset is accepted, reaches the same cluster and
   * node state as after a finished deployment, every node's progress is back
   * to 0, and no warning is raised.
   */
  lemma ResetAfterStop(first: string, second: string, roles1: seq<string>, roles2: seq<string>)
    requires roles1 != [] && roles2 != []
    ensures SubmitDeployment(ClusterOf(first, second, roles1, roles2)).Success?
    ensures
      var s1 := SubmitDeployment(ClusterOf(first, second, roles1, roles2)).value;
      var s2 := DeployResp(s1, Response(s1.task.value.uuid, Running, 50, ProgressReports([1, 2], 10)));
      && s2.task.value.progress == 50
      && (forall n :: n in s2.nodes ==> n.progress == 10)
      && SubmitStop(s2).Success?
      && var s3 := SubmitStop(s2).value;
         var s4 := StopDeploymentResp(s3, Response(s3.task.value.uuid, TaskStatus.Ready, 100, AnsweredBy([1, 2])));
         && s4.status == ClusterStatus.Stopped
         && SubmitReset(s4).Success?
         && var s5 := SubmitReset(s4).value.0;
            var s6 := ResetEnvironmentResp(s5, Response(s5.task.value.uuid, TaskStatus.Ready, 100, AnsweredBy([1, 2])));
            && ResetOutcome(s6)
            && s6.notifications == []
  {
    StopPartWay(first, second, roles1, roles2);
    ResetStoppedPair(first, second, roles1, roles2);
  }

  /** Resetting the stopped pair with both nodes answering reaches the reset outcome without a warning. */
  lemma ResetStoppedPair(first: string, second: string, roles1: seq<string>, roles2: seq<string>)
    requires roles1 != [] && roles2 != []
    ensures var s4 := StoppedPairState(first, second, roles1, roles2);
      && SubmitReset(s4).Success?
      && var s5 := SubmitReset(s4).value.0;
         var s6 := ResetEnvironmentResp(s5, Response(s5.task.value.uuid, TaskStatus.Ready, 100, AnsweredBy([1, 2])));
         && ResetOutcome(s6)
         && s6.notifications == []
  {
    var s4 := StoppedPairState(first, second, roles1, roles2);
    var s5 := s4.(task := Some(Task(2, ResetEnvironment, Running, 0)), nextUuid := 3);
    assert SubmitReset(s4).value.0 == s5;
    var m3 := Response(2, TaskStatus.Ready, 100, AnsweredBy([1, 2]));
    AnsweredByReports([1, 2], 1);
    AnsweredByReports([1, 2], 2);
    AllAnsweredNoWarning(s5, m3);
    ResetReachesOutcome(s5, m3);
  }
}
