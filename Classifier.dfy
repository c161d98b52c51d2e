/**
 * The role of an address inside its CIDR block (`get_ip_type` in
 * scan_network.py): the block-aligned address is the network address, the
 * last address of the block the broadcast address, every other one a host.
 * Blocks of /31 and /32 have no network or broadcast address.
 */
module Classifier {
  import opened AddressCodec

  /** The tags "NTWRK", "BCAST" and "HOST". */
  datatype IpType = Network | Broadcast | Host

  function Pow2(k: nat): (r: nat)
    ensures r > k
  {
    if k == 0 then 1 else 2 * Pow2(k - 1)
  }

  /** `2 ** (32 - cidr)`: the number of addresses in a block. */
  function BlockSize(cidr: int): (size: nat)
    requires cidr <= 32
    ensures size >= 1
    ensures cidr <= 30 ==> size >= 3
  {
    Pow2(32 - cidr)
  }

  function NetworkAddress(ip: int, cidr: int): int
    requires cidr <= 32
  {
    (ip / BlockSize(cidr)) * BlockSize(cidr)
  }

  function BroadcastAddress(ip: int, cidr: int): int
    requires cidr <= 32
  {
    NetworkAddress(ip, cidr) + BlockSize(cidr) - 1
  }

  /**
   * `get_ip_type`.  The network address is the one whose offset in its block
   * is 0, the broadcast address the one whose offset is the block size minus
   * one; /31 and /32 give a host for every address.
   */
  function GetIpType(ip: int, cidr: int): (t: IpType)
    requires cidr <= 32
    ensures t == Network <==> cidr <= 30 && ip % BlockSize(cidr) == 0
    ensures t == Broadcast <==> cidr <= 30 && ip % BlockSize(cidr) == BlockSize(cidr) - 1
  {
    var network := NetworkAddress(ip, cidr);
    var broadcast := BroadcastAddress(ip, cidr);
    if cidr >= 31 then Host
    else if ip == network then Network
    else if ip == broadcast then Broadcast
    else Host
  }

  /** Inside block `b`, the role of an address depends only on where it stands in the block. */
  lemma RoleInBlock(cidr: int, b: int, ip: int)
    requires cidr <= 30
    requires b * BlockSize(cidr) <= ip < b * BlockSize(cidr) + BlockSize(cidr)
    ensures GetIpType(ip, cidr) == Network <==> ip == b * BlockSize(cidr)
    ensures GetIpType(ip, cidr) == Broadcast <==> ip == b * BlockSize(cidr) + BlockSize(cidr) - 1
  {
    var size := BlockSize(cidr);
    DivModUnique(ip, size, b, ip - b * size);
  }

  /** The number of addresses of role `t` among `lo`, `lo + 1`, ..., `lo + len - 1`. */
  function CountType(lo: int, len: nat, cidr: int, t: IpType): (c: nat)
    requires cidr <= 32
    ensures c <= len
  {
    if len == 0 then 0
    else CountType(lo, len - 1, cidr, t) + (if GetIpType(lo + len - 1, cidr) == t then 1 else 0)
  }

  /** For /31 and /32 every address of every range is a host. */
  lemma {:induction false} DegenerateBlocksAreHosts(lo: int, len: nat, cidr: int)
    requires 31 <= cidr <= 32
    ensures CountType(lo, len, cidr, Host) == len
    ensures CountType(lo, len, cidr, Network) == 0 && CountType(lo, len, cidr, Broadcast) == 0
  {
    if len > 0 {
      DegenerateBlocksAreHosts(lo, len - 1, cidr);
    }
  }

  /** Counting from the front: the first address plus the rest of the range. */
  lemma {:induction false} CountTypeFirst(lo: int, len: nat, cidr: int, t: IpType)
    requires cidr <= 32 && len >= 1
    ensures CountType(lo, len, cidr, t)
            == (if GetIpType(lo, cidr) == t then 1 else 0) + CountType(lo + 1, len - 1, cidr, t)
  {
    if len > 1 {
      CountTypeFirst(lo, len - 1, cidr, t);
    }
  }

  lemma {:induction false} BlockPrefixCounts(cidr: int, b: int, m: nat)
    requires cidr <= 30
    requires 1 <= m <= BlockSize(cidr)
    ensures CountType(b * BlockSize(cidr), m, cidr, Network) == 1
    ensures CountType(b * BlockSize(cidr), m, cidr, Broadcast) == (if m == BlockSize(cidr) then 1 else 0)
    ensures CountType(b * BlockSize(cidr), m, cidr, Host) == m - 1 - (if m == BlockSize(cidr) then 1 else 0)
  {
    var size := BlockSize(cidr);
    var lo := b * size;
    RoleInBlock(cidr, b, lo + m - 1);
    if m > 1 {
      BlockPrefixCounts(cidr, b, m - 1);
    }
  }

  /**
   * For /8 to /30 every block holds exactly one network address, exactly one
   * broadcast address and `size - 2` hosts.
   */
  lemma BlockCounts(cidr: int, b: int)
    requires cidr <= 30
    ensures CountType(b * BlockSize(cidr), BlockSize(cidr), cidr, Network) == 1
    ensures CountType(b * BlockSize(cidr), BlockSize(cidr), cidr, Broadcast) == 1
    ensures CountType(b * BlockSize(cidr), BlockSize(cidr), cidr, Host) == BlockSize(cidr) - 2
  {
    BlockPrefixCounts(cidr, b, BlockSize(cidr));
  }
}
