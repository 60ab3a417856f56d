# Fuel environment reset and network objects, in Dafny

This project models two parts of Fuel's Nailgun service.

**Environment reset.** A cluster is deployed, perhaps stopped part-way, and then reset. A reset returns every node to discovery so that the environment can be deployed again.
- `Reconciliation` is the pure layer. It holds the cluster, node, task, response and notification records. It says how a request is accepted or refused, which three stages a reset sends to the remote executor, and how the receiver reconciles the records when the executor answers a deploy, a stop or a reset. The reconciliation includes the warning raised for nodes the reset could not reach.
- `ClusterRecords.Cluster` is the stored cluster. It keeps its node records in an array that its methods update in place, and it appends to its notification list. Each method is proved to leave the records exactly as the matching `Reconciliation` function says.
- `ResetProperties` proves what the integration tests assert. Each step is covered on its own: a deployment settles the nodes, a stop leaves the cluster resettable, and a reset puts every node back into discovery. Whole sequences are covered too: deploy then reset, deploy then flag a node for removal then reset, and deploy then stop at 50% then reset.

**Network objects.**
- `Ipv4` models IPv4 addresses as numbers below 2^32 and CIDR blocks as in section 3.1 of RFC 4632. It also models the block indexing the address library offers, with `IndexError` for an index outside the block. `NetworkGroups.NetworkGroup` replaces a network group's allocation ranges with the range derived from a CIDR.
- `Offloading` holds NIC offloading-mode trees. It flattens a tree into a name-to-state map and gives a bond the modes all of its slaves share.
- `Interfaces` holds NICs and bonds and their assigned networks, the DPDK queue count, and the NIC filter by MAC address.
- `IpAddrs` is the table of assigned IP addresses, with its bulk deletions by node and by address-and-network.

The implementation modules are not part of this model: the receiver, the task managers and the network objects. The two test files fix their behaviour. Where the tests leave a choice open, the model makes its own choice, and the lines below list those choices.
- A node is unreachable when the ready response of the reset does not mention it. All unreachable nodes of one reset are named in a single warning, each name in single quotes and separated by ", ". One unreachable node gives exactly the message the test checks for.
- A cluster tracks one current task. A response about another task, or about a task that has already finished, is ignored.
- A deployment or a reset is refused with `ConflictingOperation` while a task runs. A reset is also refused with `InvalidClusterState` unless the cluster is operational, in error or stopped. A stop is accepted only while a deployment runs.
- Deployment moves a node's pending roles into its roles. A reset moves them back, so `pending_roles` is non-empty after a reset whenever the node had a role.
- The tests create nodes without naming roles (test_reset_environment.py:40-41 and 199-200), yet they expect non-empty `pending_roles` after the reset (lines 69 and 249). The model assumes the test fixture gives such a node a pending role. `ResetReachesOutcome`, `ResetAfterDeployment`, `ResetAfterStop` and their reset phases `ResetDeployedPairSecondSilent` and `ResetStoppedPair` therefore require each node to hold a role. The other lemmas, `ResetOverridesPendingDeletion` among them, accept a node without roles.
- The `reset_environment` stage is addressed to the whole environment and lists no node. The two `execute_tasks` stages list the cluster's node uids. The tests check only the stage count and methods.
- The test fixture's `roles` of a new node (test_reset_environment.py:43) become the node's pending roles, not its roles. After a deployment the node holds them as roles either way.
- A progress report during a deployment sets the reported node's progress and its status to "deploying". A report without progress leaves the node as it is.
- A "ready" deployment answer settles every node of the cluster, including nodes it does not mention: each becomes "ready" with progress 100 and its pending roles become roles.
- A "ready" stop answer marks the nodes it mentions "stopped" and leaves their progress as it was. Nodes it does not mention are unchanged.
- An "error" answer to a deployment, a stop or a reset puts the cluster in error, records the task as failed with the reported progress, and leaves the nodes and notifications untouched.
- When slaves offer the same offloading mode with different states, the bond offers it with the first slave's state, and likewise for sub-modes.

## Model

| member | source | states |
|---|---|---|
| Reconciliation.ResetStages | nailgun/nailgun/test/integration/test_reset_environment.py:185-192 | A reset sends exactly three stages, in the order `reset_environment`, `execute_tasks`, `execute_tasks`. Each stage carries the reset task's uuid. The first lists no node, and the two task batches list the cluster's node uids. |
| Reconciliation.SubmitDeployment | nailgun/nailgun/test/integration/test_reset_environment.py:47-48 | Refused with `ConflictingOperation` exactly when a task is running. Otherwise a running deployment task with the next uuid is created, the cluster enters deployment, and nodes and notifications are untouched. |
| Reconciliation.SubmitStop | nailgun/nailgun/test/integration/test_reset_environment.py:218 | Accepted exactly when a deployment is running, and refused with `InvalidClusterState` otherwise. It starts a stop task and leaves cluster status, nodes and notifications unchanged. |
| Reconciliation.SubmitReset | nailgun/nailgun/test/integration/test_reset_environment.py:226-235 | Refused with `ConflictingOperation` while a task runs. Refused with `InvalidClusterState` unless the cluster is operational, in error or stopped. Otherwise it starts a reset task and answers `ResetStages` for the cluster's nodes. |
| Reconciliation.ReportFor | nailgun/nailgun/test/integration/test_reset_environment.py:211-233 | Finds the report about a node uid in a response. It answers nothing exactly when no report carries that uid. Otherwise it answers the first report with that uid. |
| Reconciliation.UnreachableNames | nailgun/nailgun/test/integration/test_reset_environment.py:71-87 | Names every node the response does not mention and no other name. It has no more entries than there are nodes. |
| Reconciliation.UnansweredIndices | nailgun/nailgun/test/integration/test_reset_environment.py:71-87 | Lists, in increasing order, exactly the positions of the nodes the response does not mention. |
| Reconciliation.UnreachableNamesInOrder | nailgun/nailgun/test/integration/test_reset_environment.py:71-87 | The unreachable names are the names at the unanswered positions: one entry per unanswered node, in cluster order. |
| Reconciliation.MarkPendingDeletion | nailgun/nailgun/test/integration/test_reset_environment.py:142-151 | Flags the nodes with the given uid for removal. Every other flag, field and node is unchanged, and the nodes keep their uids, names and order. |
| Reconciliation.DeployResp | nailgun/nailgun/test/integration/test_reset_environment.py:47-52 | A message about any other task leaves the cluster unchanged. The operation token is released exactly when the awaited deployment gets a ready or error answer. Nodes keep their uids, names and order, and notifications are untouched. An error puts the cluster in error and leaves the nodes as they were. |
| Reconciliation.StopDeploymentResp | nailgun/nailgun/test/integration/test_reset_environment.py:218-224 | A message about any other task leaves the cluster unchanged. The token is released exactly when the awaited stop gets a ready or error answer. Nodes keep their uids, names and order, and notifications are untouched. An error puts the cluster in error and leaves the nodes as they were. |
| Reconciliation.ResetEnvironmentResp | nailgun/nailgun/test/integration/test_reset_environment.py:54-87 | A message about any other task leaves the cluster unchanged. The token is released exactly when the awaited reset gets a ready or error answer. Nodes keep their uids, names and order. An error puts the cluster in error and leaves nodes and notifications as they were. |
| ClusterRecords.Cluster.constructor | nailgun/nailgun/test/integration/test_reset_environment.py:37-46 | A new cluster is "new", never deployed, without notifications or tasks, and holds the given nodes in a fresh array. |
| ClusterRecords.Cluster.UpdateEachNode | nailgun/nailgun/test/integration/test_reset_environment.py:50-69 | Each node record becomes the given function of its old value. |
| ClusterRecords.Cluster.LaunchDeployment | nailgun/nailgun/test/integration/test_reset_environment.py:47-48 | The stored records become what `SubmitDeployment` gives, and the new task's uuid is answered. On refusal the error is answered and nothing changes. |
| ClusterRecords.Cluster.StopDeployment | nailgun/nailgun/test/integration/test_reset_environment.py:218 | The stored records become what `SubmitStop` gives. On refusal nothing changes. |
| ClusterRecords.Cluster.ResetEnvironment | nailgun/nailgun/test/integration/test_reset_environment.py:185-192 | The stored records become what `SubmitReset` gives, and the stage list sent to the executor is answered. On refusal nothing changes. |
| ClusterRecords.Cluster.MarkPendingDeletion | nailgun/nailgun/test/integration/test_reset_environment.py:142-151 | Only the node with the given uid is flagged `pending_deletion`. |
| ClusterRecords.Cluster.DeployResp | nailgun/nailgun/test/integration/test_reset_environment.py:211-216 | The receiver's handling of a deployment answer updates the array and the cluster fields in place, exactly as `Reconciliation.DeployResp`. |
| ClusterRecords.Cluster.StopDeploymentResp | nailgun/nailgun/test/integration/test_reset_environment.py:219-224 | The handling of a stop answer updates the records in place, exactly as `Reconciliation.StopDeploymentResp`. |
| ClusterRecords.Cluster.ResetNodes | nailgun/nailgun/test/integration/test_reset_environment.py:54-69 | One pass over the node array resets every node as `ResetAll` does and answers the names `UnreachableNames` gives for the nodes as they were. |
| ClusterRecords.Cluster.ResetEnvironmentResp | nailgun/nailgun/test/integration/test_reset_environment.py:54-87 | The records end exactly as `Reconciliation.ResetEnvironmentResp` says. Its notifications are therefore described by `ResetProperties.ResetNotifications`. |
| ResetProperties.DeploymentSettlesNodes | nailgun/nailgun/test/integration/test_reset_environment.py:47-52 | A successful deployment leaves the task ready, the cluster operational and deployed before, and every node "ready" with `pending_addition` false. Each node's pending roles have become its roles. |
| ResetProperties.DeploymentProgress | nailgun/nailgun/test/integration/test_reset_environment.py:211-216 | A running deployment report sets the task's progress, and each reported node's progress and deploying status. Identity, roles, pending roles, `pending_addition` and `pending_deletion` are kept. A node without a report, or whose report carries no progress, is unchanged. |
| ResetProperties.StopLeavesClusterResettable | nailgun/nailgun/test/integration/test_reset_environment.py:218-226 | A finished stop leaves the cluster "stopped" and idle, so a reset is accepted. It changes no node field other than status. |
| ResetProperties.ResetCompletes | nailgun/nailgun/test/integration/test_reset_environment.py:54-69 | A finished reset leaves the task ready, the cluster "new" with `deployed_before` false, and every node in "discover" with progress 0, `pending_addition` true, `pending_deletion` false and no roles. Its pending roles hold exactly its former roles and pending roles, so they are non-empty when it had any. |
| ResetProperties.DeployThenResetRestoresNode | nailgun/nailgun/test/integration/test_reset_environment.py:37-69 | A node added, deployed and then reset is the node as first added. |
| ResetProperties.AllAnsweredNoneUnreachable | nailgun/nailgun/test/integration/test_reset_environment.py:228-233 | When the response mentions every node, no node is unreachable. |
| ResetProperties.AllAnsweredNoWarning | nailgun/nailgun/test/integration/test_reset_environment.py:228-233 | A reset answered for every node appends no notification. |
| ResetProperties.ResetNotifications | nailgun/nailgun/test/integration/test_reset_environment.py:71-87 | Reconciling any response keeps the existing notifications and appends at most one. One is appended exactly when the awaited reset finished and some node is unanswered. It is the "warning" whose message names `UnreachableNames` for the resetting action. |
| ResetProperties.UnreachableNamesEmpty | nailgun/nailgun/test/integration/test_reset_environment.py:71-87 | Some node is listed as unreachable exactly when some node is unanswered. |
| ResetProperties.SingleNameMessage | nailgun/nailgun/test/integration/test_reset_environment.py:71-75 | The warning for one node is the message template with that node's name in quotes. |
| ResetProperties.OneOfTwoNames | nailgun/nailgun/test/integration/test_reset_environment.py:71-87 | Of two nodes of which only one is answered, the unreachable list is exactly the other node's name. |
| ResetProperties.OneOfTwoUnreachable | nailgun/nailgun/test/integration/test_reset_environment.py:31-87 | With two nodes, of which exactly one is not answered, exactly one "warning" notification is appended, and its text names only that node. |
| ResetProperties.TerminalResponsesIdempotent | nailgun/nailgun/test/integration/test_reset_environment.py:211-233 | Repeating a ready or error response changes nothing more, because a finished task ignores further messages. |
| ResetProperties.BusyClusterRejectsSubmits | nailgun/nailgun/test/integration/test_reset_environment.py:185-186 | While a task runs, neither a deployment nor a reset can start. |
| ResetProperties.ResetReachesOutcome | nailgun/nailgun/test/integration/test_reset_environment.py:54-69 | A finished reset of nodes that each hold a role reaches the reset outcome: task ready, cluster "new", not deployed before, and nodes in discovery with roles pending. |
| ResetProperties.DeployPair | nailgun/nailgun/test/integration/test_reset_environment.py:47-52 | Deploying two new nodes, answered as ready, gives the deployed pair: task ready and both nodes "ready" without `pending_addition`. |
| ResetProperties.ResetDeployedPairSecondSilent | nailgun/nailgun/test/integration/test_reset_environment.py:54-87 | Resetting the deployed pair while the second node does not answer reaches the reset outcome. The only notification is the warning naming the second node. |
| ResetProperties.ResetAfterDeployment | nailgun/nailgun/test/integration/test_reset_environment.py:36-87 | Deploying two nodes leaves both "ready". The reset sends `ResetStages` and ends in the reset outcome. When the second node does not answer, the only notification is the warning naming it. |
| ResetProperties.ResetForgetsPendingDeletion | nailgun/nailgun/test/integration/test_reset_environment.py:129-160 | Flagging a node for removal before a reset's ready answer arrives makes no difference to the records the reset leaves. |
| ResetProperties.UnreachableNamesSameNodes | nailgun/nailgun/test/integration/test_reset_environment.py:71-87 | Which nodes are named unreachable depends only on the nodes' uids and names. |
| ResetProperties.ResetOverridesPendingDeletion | nailgun/nailgun/test/integration/test_reset_environment.py:129-160 | A deployed node flagged for removal, then reset without answering, ends with the reset task ready, `pending_addition` true and `pending_deletion` false. |
| ResetProperties.StopPartWay | nailgun/nailgun/test/integration/test_reset_environment.py:211-224 | A deployment of two nodes reported at 50% with its nodes at 10% is stopped. The stop is accepted and leaves the stopped pair. |
| ResetProperties.ResetStoppedPair | nailgun/nailgun/test/integration/test_reset_environment.py:226-250 | The stopped pair is accepted for reset. With both nodes answering it reaches the reset outcome without a warning. |
| ResetProperties.ResetAfterStop | nailgun/nailgun/test/integration/test_reset_environment.py:195-250 | A deployment reported at 50% with its nodes at 10%, then stopped, is accepted for reset. The reset reaches the same outcome as after a full deployment, with every node's progress at 0 and no warning. |
| Ipv4.BlockBounds | nailgun/nailgun/extensions/network_manager/tests/test_objects.py:30-47 | A block contains its written address, and its broadcast address is a valid address. |
| Ipv4.AddressAt | nailgun/nailgun/extensions/network_manager/tests/test_objects.py:30-47 | Indexing a block succeeds exactly for an index from minus the block size up to the block size minus one, and otherwise fails with `IndexError`. Every address it gives lies inside the block. |
| Ipv4.AddressAtFromEnd | nailgun/nailgun/extensions/network_manager/tests/test_objects.py:30-47 | A non-negative index names the network address plus that index. The same index minus the block size names the same address, so negative indices count back from the end. |
| Ipv4.NetworkAddressAligned | nailgun/nailgun/extensions/network_manager/tests/test_objects.py:30-47 | The network address of a block is a multiple of the block size. |
| Ipv4.ClearLowBitsMultiple | nailgun/nailgun/extensions/network_manager/tests/test_objects.py:30-47 | Clearing the low `k` bits of an address leaves its high bits times 2^k. |
| Ipv4.RangeFromCidr | nailgun/nailgun/extensions/network_manager/tests/test_objects.py:30-47 | The range runs from the network address + 1 (+ 2 when the gateway is reserved) to the broadcast address − 1. It fails exactly when the block is too small to index those positions. |
| Ipv4.RangeInsideBlock | nailgun/nailgun/extensions/network_manager/tests/test_objects.py:30-47 | Every address of the derived range is inside the block. None of them is the network address or the broadcast address, nor the gateway when it is reserved. |
| Ipv4.GatewayShiftsFirstOnly | nailgun/nailgun/extensions/network_manager/tests/test_objects.py:39-47 | Reserving the gateway moves the first address up by one and leaves the last address unchanged. |
| Ipv4.HostBitsIgnored | nailgun/nailgun/extensions/network_manager/tests/test_objects.py:30-47 | Host bits in the written address do not change the derived range. |
| Ipv4.Slash24Ranges | nailgun/nailgun/extensions/network_manager/tests/test_objects.py:30-47 | 192.168.10.0/24 gives .1 to .254, and .2 to .254 with the gateway reserved. |
| NetworkGroups.NetworkGroup.constructor | nailgun/nailgun/extensions/network_manager/tests/test_objects.py:30-47 | A network group holds the given id and allocation ranges. |
| NetworkGroups.NetworkGroup.UpdateRangeFromCidr | nailgun/nailgun/extensions/network_manager/tests/test_objects.py:30-47 | The group's ranges become the single range `RangeFromCidr` derives, which is answered. On `IndexError` the ranges are kept. |
| Offloading.FlatDictStoresPreorder | nailgun/nailgun/extensions/network_manager/tests/test_objects.py:195-275 | Flattening stores each mode's entry, then its sub-modes' entries, then the following modes' entries. A later name overrides an earlier one. |
| Offloading.FlatDict | nailgun/nailgun/extensions/network_manager/tests/test_objects.py:195-275 | Flattens a mode tree into a name-to-state map with exactly one key for each mode name at any depth. `FlatDictStoresPreorder` shows it stores the entries in preorder, a later name overriding an earlier one, and `FlatDictValue` that each name keeps its own state when no name repeats. |
| Offloading.FlatDictValue | nailgun/nailgun/extensions/network_manager/tests/test_objects.py:195-275 | With distinct names, every mode's name maps to that mode's own state (True, False or None). |
| Offloading.CommonNames | nailgun/nailgun/extensions/network_manager/tests/test_objects.py:124-190 | A name is common exactly when every slave's tree has it at some depth. |
| Offloading.Prune | nailgun/nailgun/extensions/network_manager/tests/test_objects.py:124-190 | Cutting a tree down to a name set keeps only names that are both in the tree and in the set, and never adds modes. |
| Offloading.AvailableModes | nailgun/nailgun/extensions/network_manager/tests/test_objects.py:124-190 | A bond's modes: none without slaves, otherwise at most as many top-level modes as the first slave has. Every mode it offers, sub-modes included, is offered by each of its slaves. `CommonNames` and the `Prune` lemmas show which modes are kept. |
| Offloading.PruneKeepsAll | nailgun/nailgun/extensions/network_manager/tests/test_objects.py:165-172 | A tree whose names are all kept comes through unchanged. |
| Offloading.PruneKeepsMode | nailgun/nailgun/extensions/network_manager/tests/test_objects.py:165-190 | A top-level mode whose name is kept appears in the result, with its sub-modes cut the same way. |
| Offloading.PruneDropsAll | nailgun/nailgun/extensions/network_manager/tests/test_objects.py:141-163 | When no top-level name is kept, nothing is left. |
| Offloading.DisjointSlavesNoModes | nailgun/nailgun/extensions/network_manager/tests/test_objects.py:141-163 | Two slaves without a common mode name give the bond no modes. |
| Offloading.CommonModeKept | nailgun/nailgun/extensions/network_manager/tests/test_objects.py:164-172 | A mode that every slave offers with all its sub-modes is offered by the bond unchanged. |
| Offloading.IdenticalSlavesKeepTree | nailgun/nailgun/extensions/network_manager/tests/test_objects.py:124-190 | Slaves with identical trees give the bond that tree. |
| Offloading.TwoLevelFlatDict | nailgun/nailgun/extensions/network_manager/tests/test_objects.py:195-267 | Two modes with one sub-mode each flatten to the four expected entries. |
| Offloading.DeepFlatDict | nailgun/nailgun/extensions/network_manager/tests/test_objects.py:222-271 | A chain four levels deep flattens to one entry per level. |
| Offloading.CommonNamesOfTwo | nailgun/nailgun/extensions/network_manager/tests/test_objects.py:124-139 | Two slaves share exactly the intersection of their name sets. |
| Offloading.DifferentModesIntersection | nailgun/nailgun/extensions/network_manager/tests/test_objects.py:141-163 | The test's first pair of slaves, whose modes differ, gives an empty list. |
| Offloading.CommonLeafIntersection | nailgun/nailgun/extensions/network_manager/tests/test_objects.py:164-170 | Adding the same leaf to both slaves gives exactly that leaf. |
| Offloading.DifferentSubModesIntersection | nailgun/nailgun/extensions/network_manager/tests/test_objects.py:172-190 | The shared mode is offered without the sub-modes that only one slave has, after the common leaf. |
| Interfaces.Nic.constructor | nailgun/nailgun/extensions/network_manager/tests/test_objects.py:277-284 | A NIC record holds the given identity, MAC address, queue limit and networks. |
| Interfaces.Nic.AssignNetworks | nailgun/nailgun/extensions/network_manager/tests/test_objects.py:277-290 | The NIC's assigned networks become exactly the given list. |
| Interfaces.Bond.constructor | nailgun/nailgun/extensions/network_manager/tests/test_objects.py:76-84 | A new bond has the given name and slaves and no networks. |
| Interfaces.Bond.AssignNetworks | nailgun/nailgun/extensions/network_manager/tests/test_objects.py:76-91 | The bond's assigned networks become exactly the given list. |
| Interfaces.MergeAssignedNetworks | nailgun/nailgun/extensions/network_manager/tests/test_objects.py:277-290 | After moving the second NIC's networks onto the first, the first holds both lists (4 + 1 = 5 in the test) and the second holds none. |
| Interfaces.DpdkQueuesCount | nailgun/nailgun/extensions/network_manager/tests/test_objects.py:341-355 | The count is at most the pinned CPUs minus one and at most the NIC's `max_queues`, and it equals one of them: their minimum. |
| Interfaces.DpdkQueuesCases | nailgun/nailgun/extensions/network_manager/tests/test_objects.py:341-355 | Pinning (4, 10) gives 3 and (4, 2) gives 2. |
| Interfaces.InterfacesNotInMacList | nailgun/nailgun/extensions/network_manager/tests/test_objects.py:292-304 | Exactly the node's NICs whose MAC is not listed, each as often as in the table and none other. |
| Interfaces.OneOfTwoInterfaces | nailgun/nailgun/extensions/network_manager/tests/test_objects.py:292-304 | Of a node's two NICs, excluding the second one's MAC leaves exactly the first. |
| IpAddrs.Remaining | nailgun/nailgun/extensions/network_manager/tests/test_objects.py:376-421 | The rows a deletion keeps: exactly those it does not select, each as often as before, none added. |
| IpAddrs.IpAddrTable.constructor | nailgun/nailgun/extensions/network_manager/tests/test_objects.py:376-380 | A table holds the given rows. |
| IpAddrs.IpAddrTable.DeleteWhere | nailgun/nailgun/extensions/network_manager/tests/test_objects.py:376-421 | One pass over the table leaves exactly the rows `Remaining` keeps, in order. |
| IpAddrs.IpAddrTable.DeleteByNode | nailgun/nailgun/extensions/network_manager/tests/test_objects.py:376-389 | Deletes exactly the rows of the given node. |
| IpAddrs.IpAddrTable.DeleteByNetwork | nailgun/nailgun/extensions/network_manager/tests/test_objects.py:391-421 | Deletes exactly the rows with the given address in the given network. |
| IpAddrs.DeleteByNodeExact | nailgun/nailgun/extensions/network_manager/tests/test_objects.py:376-389 | A row survives deletion by node exactly when it belongs to another node or to none. |
| IpAddrs.DeleteByNetworkExact | nailgun/nailgun/extensions/network_manager/tests/test_objects.py:391-421 | A row survives deletion by address and network exactly when its address or its network differs. |
| IpAddrs.DeleteOneOfTwoNodes | nailgun/nailgun/extensions/network_manager/tests/test_objects.py:376-389 | With one row for each of two nodes, deleting the first node's rows leaves the second node's row. |
| IpAddrs.DeleteSameAddressOtherNetwork | nailgun/nailgun/extensions/network_manager/tests/test_objects.py:391-421 | With the same address in the management and storage networks, deleting it from storage leaves the management row. |

## Left out

- The receiver, the task managers and the network objects are not part of this model. Their behaviour follows from the two test files' assertions and from the choices the model makes where the tests leave them open, listed above.
- The plugin-link cleanup on reset (test_reset_environment.py:94-122) is left out: links live in a separate store reached over HTTP.
- REST handlers and routing are left out. Only their effect on the records is modelled: flagging a node for removal, and starting a deployment, a stop or a reset.
- The RPC transport and the threaded fake executor are left out. Stage lists and executor responses are plain values.
- Deployment is one task: provisioning and the supertask/subtask split are collapsed into it.
- Database sessions, flushes and ORM queries are left out. So are `get_ips_except_admin`, `get_distinct_in_list` with its VIP subtraction, and lookup by address (test_objects.py:366-374, 423-465).
- CIDR parsing from text and dotted-decimal formatting are left out. Addresses are numbers below 2^32, written with `Ipv4.Dotted`.
- Ipv4.RangeFromCidr: the last address of a /31 is below its first, because the library's indexing allows that. The model keeps this behaviour rather than refusing the block.
- Interfaces.DpdkQueuesCount: behaviour with fewer than two pinned CPUs is unspecified here. The count is `min(pinning − 1, max_queues)` on integers and may be zero or negative.
- The mock call-count tests for the admin-network lookup (test_objects.py:467-496) are left out: they test lookup avoidance, not data.
- `is_untagged`, `get_default_admin_network` and `get_by_node_group` (test_objects.py:49-69) are left out: they depend on seeded database defaults.
- `Bond.update` (test_objects.py:95-112) is left out: it is a generic merge of untyped attributes.
- Listing all NICs or bonds of a cluster (test_objects.py:114-122, 306-315) is left out: it is a database query.
- A mode entry without a `sub` key is not modelled; every mode carries a possibly empty list of sub-modes.
- A bond's slave NICs are kept in `Interfaces.Bond.slaves` but nothing reads them: the slaves' offloading-mode trees reach `Offloading.AvailableModes` as plain values, because NIC records do not carry their mode trees in this model.
