/**
 * Network interfaces of a node: physical NICs, held in the NIC table, and
 * bonds built over them.  Each keeps the list of networks assigned to it.
 */
module Interfaces {

  /** A network as an interface lists it: its id and name. */
  datatype NetworkRef = NetworkRef(id: nat, name: string)

  class Nic {
    const id: nat
    const nodeId: nat
    const mac: string
    /** The most queues the hardware offers. */
    const maxQueues: int
    var assignedNetworks: seq<NetworkRef>

    constructor (id: nat, nodeId: nat, mac: string, maxQueues: int, assignedNetworks: seq<NetworkRef>)
      ensures this.id == id && this.nodeId == nodeId && this.mac == mac && this.maxQueues == maxQueues
      ensures this.assignedNetworks == assignedNetworks
    {
      this.id, this.nodeId, this.mac, this.maxQueues := id, nodeId, mac, maxQueues;
      this.assignedNetworks := assignedNetworks;
    }

    /** Replaces the assigned networks wholesale; the old list is dropped. */
    method AssignNetworks(networks: seq<NetworkRef>)
      modifies this
      ensures assignedNetworks == networks
    {
      assignedNetworks := networks;
    }
  }

  class Bond {
    const name: string
    const slaves: seq<Nic>
    var assignedNetworks: seq<NetworkRef>

    constructor (name: string, slaves: seq<Nic>)
      ensures this.name == name && this.slaves == slaves && assignedNetworks == []
    {
      this.name, this.slaves, assignedNetworks := name, slaves, [];
    }

    /** Replaces the assigned networks wholesale; the old list is dropped. */
    method AssignNetworks(networks: seq<NetworkRef>)
      modifies this
      ensures assignedNetworks == networks
    {
      assignedNetworks := networks;
    }
  }

  /**
   * Moving every network of `second` onto `first` and clearing `second`:
   * `first` ends with both lists, `second` with none.
   */
  method MergeAssignedNetworks(first: Nic, second: Nic)
    requires first != second
    modifies first, second
    ensures first.assignedNetworks == old(first.assignedNetworks) + old(second.assignedNetworks)
    ensures |first.assignedNetworks| == old(|first.assignedNetworks| + |second.assignedNetworks|)
    ensures second.assignedNetworks == []
  {
    var merged := first.assignedNetworks + second.assignedNetworks;
    first.AssignNetworks(merged);
    second.AssignNetworks([]);
  }

  /**
   * The number of DPDK queues of a NIC: one per DPDK-pinned CPU except the
   * one kept for other work, and no more than the NIC offers.
   */
  function DpdkQueuesCount(dpdkCpuPinning: int, maxQueues: int): (r: int)
    ensures r <= dpdkCpuPinning - 1 && r <= maxQueues
    ensures r == dpdkCpuPinning - 1 || r == maxQueues
  {
    if dpdkCpuPinning - 1 <= maxQueues then dpdkCpuPinning - 1 else maxQueues
  }

  /** Four pinned CPUs give three queues when the NIC offers ten, and two when it offers two. */
  lemma DpdkQueuesCases()
    ensures DpdkQueuesCount(4, 10) == 3
    ensures DpdkQueuesCount(4, 2) == 2
  {
  }

  /** Whether `nic` belongs to `nodeId` and has a MAC address outside `macs`. */
  predicate OnNodeOutside(nic: Nic, nodeId: nat, macs: seq<string>) {
    nic.nodeId == nodeId && nic.mac !in macs
  }

  /** The NICs of node `nodeId` whose MAC address is not in `macs`, in table order. */
  function InterfacesNotInMacList(table: seq<Nic>, nodeId: nat, macs: seq<string>): (r: seq<Nic>)
    ensures forall i :: 0 <= i < |r| ==> r[i] in table && OnNodeOutside(r[i], nodeId, macs)
    ensures forall i :: 0 <= i < |table| ==>
      multiset(r)[table[i]] == if OnNodeOutside(table[i], nodeId, macs) then multiset(table)[table[i]] else 0
    ensures |r| <= |table|
  {
    if table == [] then []
    else
      var rest := InterfacesNotInMacList(table[1..], nodeId, macs);
      var r := if OnNodeOutside(table[0], nodeId, macs) then [table[0]] + rest else rest;
      assert multiset(table) == multiset{table[0]} + multiset(table[1..]) by {
        assert table == [table[0]] + table[1..];
      }
      assert multiset(r) == (if OnNodeOutside(table[0], nodeId, macs) then multiset{table[0]} else multiset{}) + multiset(rest);
      assert forall i :: 1 <= i < |table| ==> table[i] == table[1..][i - 1];
      r
  }

  /** Of a node's two NICs, excluding the second one's MAC leaves exactly the first. */
  lemma OneOfTwoInterfaces(first: Nic, second: Nic, nodeId: nat)
    requires first.nodeId == nodeId && second.nodeId == nodeId && first.mac != second.mac
    ensures InterfacesNotInMacList([first, second], nodeId, [second.mac]) == [first]
  {
    assert [first, second][1..] == [second];
    assert [second][1..] == [];
  }
}
