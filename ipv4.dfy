/**
 * IPv4 addresses as 32-bit numbers and CIDR blocks (prefix notation, section
 * 3.1 of RFC 4632), with the indexing into a block that the address library
 * offers: index 0 is the network address, index -1 the broadcast address.
 */
module Ipv4 {
  import opened Wrappers

  const AddressCount: nat := 0x1_0000_0000

  type Address = a: nat | a < AddressCount

  type PrefixLength = p: nat | p <= 32

  /** A block written `addr/prefix`; `addr` may have host bits set. */
  datatype Cidr = Cidr(addr: Address, prefix: PrefixLength)

  datatype IndexError = IndexError

  /** An allocation range, both ends included. */
  datatype IpRange = IpRange(first: Address, last: Address)

  function Pow2(n: nat): (r: nat)
    ensures r >= 1
  {
    if n == 0 then 1 else 2 * Pow2(n - 1)
  }

  lemma {:induction false} Pow2Add(a: nat, b: nat)
    ensures Pow2(a + b) == Pow2(a) * Pow2(b)
  {
    if a > 0 {
      Pow2Add(a - 1, b);
      assert Pow2(a + b) == 2 * Pow2(a - 1 + b);
    }
  }

  lemma Pow2Of32()
    ensures Pow2(32) == AddressCount
  {
    assert Pow2(8) == 256;
    Pow2Add(8, 8);
    Pow2Add(16, 16);
  }

  /** The address `a.b.c.d`. */
  function Dotted(a: nat, b: nat, c: nat, d: nat): nat {
    ((a * 256 + b) * 256 + c) * 256 + d
  }

  function BlockSize(c: Cidr): nat {
    Pow2(32 - c.prefix)
  }

  /** `x` with its low `k` bits cleared. */
  function ClearLowBits(x: nat, k: nat): nat {
    if k == 0 then x else 2 * ClearLowBits(x / 2, k - 1)
  }

  /** Clearing `k` low bits moves down by less than 2^k and stays inside a space of 2^n addresses. */
  lemma {:induction false} ClearLowBitsBounds(x: nat, k: nat, n: nat)
    requires x < Pow2(n) && k <= n
    ensures ClearLowBits(x, k) <= x < ClearLowBits(x, k) + Pow2(k) <= Pow2(n)
  {
    if k > 0 {
      ClearLowBitsBounds(x / 2, k - 1, n - 1);
    }
  }

  lemma {:induction false} ClearLowBitsIdempotent(x: nat, k: nat)
    ensures ClearLowBits(ClearLowBits(x, k), k) == ClearLowBits(x, k)
  {
    if k > 0 {
      ClearLowBitsIdempotent(x / 2, k - 1);
      assert ClearLowBits(x, k) / 2 == ClearLowBits(x / 2, k - 1);
    }
  }

  function NetworkAddress(c: Cidr): nat {
    ClearLowBits(c.addr, 32 - c.prefix)
  }

  function BroadcastAddress(c: Cidr): nat {
    NetworkAddress(c) + BlockSize(c) - 1
  }

  predicate InBlock(c: Cidr, x: int) {
    NetworkAddress(c) <= x <= BroadcastAddress(c)
  }

  /** `x` shifted right by `k` bits. */
  function HighBits(x: nat, k: nat): nat {
    if k == 0 then x else HighBits(x / 2, k - 1)
  }

  /** Clearing `k` low bits leaves the high bits times 2^k. */
  lemma {:induction false} ClearLowBitsMultiple(x: nat, k: nat)
    ensures ClearLowBits(x, k) == Pow2(k) * HighBits(x, k)
  {
    if k > 0 {
      ClearLowBitsMultiple(x / 2, k - 1);
      assert ClearLowBits(x, k) == 2 * (Pow2(k - 1) * HighBits(x / 2, k - 1));
    }
  }

  /** A nonzero multiple of `m` is at least `m` away from zero. */
  lemma {:induction false} MultipleAwayFromZero(m: nat, t: int)
    requires m > 0
    ensures t >= 1 ==> m * t >= m
    ensures t <= -1 ==> m * t <= -(m as int)
    decreases if t < 0 then -t else t
  {
    if t > 1 {
      MultipleAwayFromZero(m, t - 1);
      assert m * t == m * (t - 1) + m;
    } else if t < -1 {
      MultipleAwayFromZero(m, t + 1);
      assert m * t == m * (t + 1) - m;
    }
  }

  /** A multiple of `m` leaves no remainder when divided by `m`. */
  lemma MultipleMod(m: nat, h: nat)
    requires m > 0
    ensures (m * h) % m == 0
  {
    var p, d := m * h, (m * h) / m;
    assert p == m * d + p % m;
    assert m * (h - d) == p % m;
    MultipleAwayFromZero(m, h - d);
  }

  /** The network address is a multiple of the block size. */
  lemma NetworkAddressAligned(c: Cidr)
    ensures NetworkAddress(c) % BlockSize(c) == 0
  {
    ClearLowBitsMultiple(c.addr, 32 - c.prefix);
    MultipleMod(BlockSize(c), HighBits(c.addr, 32 - c.prefix));
  }

  /** A block holds its own address and fits in the address space. */
  lemma BlockBounds(c: Cidr)
    ensures NetworkAddress(c) <= c.addr <= BroadcastAddress(c)
    ensures BroadcastAddress(c) < AddressCount
  {
    Pow2Of32();
    ClearLowBitsBounds(c.addr, 32 - c.prefix, 32);
  }

  /**
   * The `i`-th address of the block; a negative `i` counts back from one past
   * the broadcast address.  Indexing fails exactly outside the block's size
   * in either direction, and every address it gives lies in the block.
   */
  function AddressAt(c: Cidr, i: int): (r: Result<Address, IndexError>)
    ensures r.Success? <==> -(BlockSize(c) as int) <= i < BlockSize(c)
    ensures r.Success? ==> InBlock(c, r.value)
  {
    BlockBounds(c);
    if 0 <= i < BlockSize(c) then Success(NetworkAddress(c) + i)
    else if -(BlockSize(c) as int) <= i < 0 then Success(NetworkAddress(c) + BlockSize(c) + i)
    else Failure(IndexError)
  }

  /** A negative index names the same address as the index one block size above it. */
  lemma AddressAtFromEnd(c: Cidr, i: int)
    requires 0 <= i < BlockSize(c)
    ensures AddressAt(c, i - BlockSize(c)) == AddressAt(c, i)
    ensures AddressAt(c, i).Success? && AddressAt(c, i).value == NetworkAddress(c) + i
  {
  }

  /** Index of the first allocatable address: the gateway, when used, takes the one after the network address. */
  function FirstIndex(useGateway: bool): nat {
    if useGateway then 2 else 1
  }

  /**
   * The range a network group derives from its CIDR: from the address after
   * the network address (two after it when the gateway is reserved) to the
   * address before the broadcast address.  Blocks too small to hold those
   * indices fail as the library's indexing does.
   */
  function RangeFromCidr(c: Cidr, useGateway: bool): (r: Result<IpRange, IndexError>)
    ensures r.Success? <==> BlockSize(c) >= 2 && FirstIndex(useGateway) < BlockSize(c)
    ensures r.Success? ==>
      && r.value.first == NetworkAddress(c) + FirstIndex(useGateway)
      && r.value.last == BroadcastAddress(c) - 1
  {
    match AddressAt(c, FirstIndex(useGateway))
    case Failure(e) => Failure(e)
    case Success(first) =>
      match AddressAt(c, -2)
      case Failure(e) => Failure(e)
      case Success(last) => Success(IpRange(first, last))
  }

  /**
   * Every address of the derived range lies in the block and is neither the
   * network address nor the broadcast address, nor the gateway when reserved.
   */
  lemma RangeInsideBlock(c: Cidr, useGateway: bool, x: int)
    requires RangeFromCidr(c, useGateway).Success?
    requires RangeFromCidr(c, useGateway).value.first <= x <= RangeFromCidr(c, useGateway).value.last
    ensures InBlock(c, x)
    ensures x != NetworkAddress(c) && x != BroadcastAddress(c)
    ensures useGateway ==> x != NetworkAddress(c) + 1
  {
  }

  /** Reserving the gateway moves the first address up by one and leaves the last one alone. */
  lemma GatewayShiftsFirstOnly(c: Cidr)
    requires RangeFromCidr(c, true).Success?
    ensures RangeFromCidr(c, false).Success?
    ensures RangeFromCidr(c, true).value.first == RangeFromCidr(c, false).value.first + 1
    ensures RangeFromCidr(c, true).value.last == RangeFromCidr(c, false).value.last
  {
  }

  /** Host bits in the written address do not move the range: only the block counts. */
  lemma HostBitsIgnored(c: Cidr, useGateway: bool)
    ensures NetworkAddress(c) < AddressCount
    ensures RangeFromCidr(c, useGateway) == RangeFromCidr(Cidr(NetworkAddress(c), c.prefix), useGateway)
  {
    BlockBounds(c);
    ClearLowBitsIdempotent(c.addr, 32 - c.prefix);
  }

  /** 192.168.10.0/24 gives .1 to .254, and .2 to .254 when the gateway is reserved. */
  lemma Slash24Ranges()
    ensures RangeFromCidr(Cidr(Dotted(192, 168, 10, 0), 24), false)
            == Success(IpRange(Dotted(192, 168, 10, 1), Dotted(192, 168, 10, 254)))
    ensures RangeFromCidr(Cidr(Dotted(192, 168, 10, 0), 24), true)
            == Success(IpRange(Dotted(192, 168, 10, 2), Dotted(192, 168, 10, 254)))
  {
    var c := Cidr(Dotted(192, 168, 10, 0), 24);
    assert BlockSize(c) == 256;
    assert NetworkAddress(c) == Dotted(192, 168, 10, 0);
  }
}
