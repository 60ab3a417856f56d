/**
 * A network group's stored allocation ranges, replaced in place when the
 * group's CIDR changes.
 */
module NetworkGroups {
  import opened Wrappers
  import opened Ipv4

  class NetworkGroup {
    const id: nat
    var ipRanges: seq<IpRange>

    constructor (id: nat, ipRanges: seq<IpRange>)
      ensures this.id == id && this.ipRanges == ipRanges
    {
      this.id, this.ipRanges := id, ipRanges;
    }

    /**
     * Replaces every stored range by the single range derived from `cidr`.
     * When the block is too small to index, the error is answered and the
     * stored ranges are kept.
     */
    method UpdateRangeFromCidr(cidr: Cidr, useGateway: bool) returns (r: Result<IpRange, IndexError>)
      modifies this
      ensures r == RangeFromCidr(cidr, useGateway)
      ensures r.Success? ==> ipRanges == [r.value]
      ensures r.Failure? ==> ipRanges == old(ipRanges)
    {
      r := RangeFromCidr(cidr, useGateway);
      if r.Success? {
        ipRanges := [r.value];
      }
    }
  }
}
