/**
 * The table of assigned IP addresses: each row ties an address in one
 * network group to a node (or to no node, for virtual addresses).  Rows are
 * deleted in bulk by node or by address and network.
 */
module IpAddrs {
  import opened Wrappers
  import opened Ipv4

  datatype IpAddr = IpAddr(id: nat, address: Address, network: nat, node: Option<nat>)

  predicate OfNode(row: IpAddr, nodeId: nat) {
    row.node == Some(nodeId)
  }

  predicate AtAddressIn(row: IpAddr, address: Address, network: nat) {
    row.address == address && row.network == network
  }

  /** The rows `doomed` does not select, in table order, each as often as before. */
  function Remaining(rows: seq<IpAddr>, doomed: IpAddr -> bool): (r: seq<IpAddr>)
    ensures forall i :: 0 <= i < |r| ==> r[i] in rows && !doomed(r[i])
    ensures forall i :: 0 <= i < |rows| ==>
      multiset(r)[rows[i]] == if doomed(rows[i]) then 0 else multiset(rows)[rows[i]]
    ensures |r| <= |rows|
  {
    if rows == [] then []
    else
      var init := Remaining(rows[..|rows| - 1], doomed);
      var last := rows[|rows| - 1];
      var r := if doomed(last) then init else init + [last];
      assert multiset(rows) == multiset(rows[..|rows| - 1]) + multiset{last} by {
        assert rows == rows[..|rows| - 1] + [last];
      }
      assert multiset(r) == multiset(init) + (if doomed(last) then multiset{} else multiset{last});
      assert forall i :: 0 <= i < |rows| - 1 ==> rows[i] == rows[..|rows| - 1][i];
      r
  }

  class IpAddrTable {
    var rows: seq<IpAddr>

    constructor (rows: seq<IpAddr>)
      ensures this.rows == rows
    {
      this.rows := rows;
    }

    /** Deletes every row `doomed` selects, keeping the others in order. */
    method DeleteWhere(doomed: IpAddr -> bool)
      modifies this
      ensures rows == Remaining(old(rows), doomed)
    {
      var kept: seq<IpAddr> := [];
      var i := 0;
      while i < |rows|
        invariant 0 <= i <= |rows|
        invariant kept == Remaining(rows[..i], doomed)
      {
        assert rows[..i + 1][..i] == rows[..i];
        if !doomed(rows[i]) {
          kept := kept + [rows[i]];
        }
        i := i + 1;
      }
      assert rows[..i] == rows;
      rows := kept;
    }

    /** Deletes the rows of node `nodeId`. */
    method DeleteByNode(nodeId: nat)
      modifies this
      ensures rows == Remaining(old(rows), row => OfNode(row, nodeId))
    {
      DeleteWhere(row => OfNode(row, nodeId));
    }

    /** Deletes the rows holding `address` in network `network`. */
    method DeleteByNetwork(address: Address, network: nat)
      modifies this
      ensures rows == Remaining(old(rows), row => AtAddressIn(row, address, network))
    {
      DeleteWhere(row => AtAddressIn(row, address, network));
    }
  }

  /** Deleting by node leaves no row of that node and every row of other nodes or of none. */
  lemma DeleteByNodeExact(rows: seq<IpAddr>, nodeId: nat, row: IpAddr)
    requires row in rows
    ensures row in Remaining(rows, r => OfNode(r, nodeId)) <==> row.node != Some(nodeId)
  {
    var i :| 0 <= i < |rows| && rows[i] == row;
  }

  /** Deleting by address and network spares the same address in every other network. */
  lemma DeleteByNetworkExact(rows: seq<IpAddr>, address: Address, network: nat, row: IpAddr)
    requires row in rows
    ensures row in Remaining(rows, r => AtAddressIn(r, address, network))
            <==> row.address != address || row.network != network
  {
    var i :| 0 <= i < |rows| && rows[i] == row;
  }

  /** Two nodes with one address each: deleting the first node's rows leaves the second's. */
  lemma DeleteOneOfTwoNodes(a: IpAddr, b: IpAddr)
    requires a.node.Some? && b.node != a.node
    ensures Remaining([a, b], r => OfNode(r, a.node.value)) == [b]
  {
    assert [a, b][..1] == [a];
  }

  /** One address in two networks: deleting it from one network leaves the other's row. */
  lemma DeleteSameAddressOtherNetwork(management: IpAddr, storage: IpAddr)
    requires management.address == storage.address && management.network != storage.network
    ensures Remaining([management, storage], r => AtAddressIn(r, storage.address, storage.network)) == [management]
  {
    assert [management, storage][..1] == [management];
  }
}
