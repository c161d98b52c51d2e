/**
 * The walk over a range of addresses (`generate_ip_list` in scan_network.py):
 * from the start address upward, one tagged entry per address, until the
 * requested number of host addresses has been listed or the walk would pass
 * 255.255.255.255.  Network and broadcast addresses met on the way are
 * listed but not counted.
 *
 * The walk is specified on integer addresses (`Walk`); `Tagged` turns those
 * into the list of entries the source builds.
 */
module Enumerator {
  import opened AddressCodec
  import opened Classifier

  /** One element of the list: `{"ip": ..., "type": ...}`. */
  datatype Entry = Entry(ip: string, ipType: IpType)

  function EntryFor(n: int, cidr: int): Entry
    requires cidr <= 32
  {
    Entry(IntToIp(n), GetIpType(n, cidr))
  }

  /** The entries for a list of addresses, in the same order. */
  function Tagged(addrs: seq<int>, cidr: int): (entries: seq<Entry>)
    requires cidr <= 32
    ensures |entries| == |addrs|
    ensures forall k | 0 <= k < |addrs| :: entries[k] == EntryFor(addrs[k], cidr)
  {
    if addrs == [] then [] else [EntryFor(addrs[0], cidr)] + Tagged(addrs[1..], cidr)
  }

  lemma TaggedPrepend(a: int, rest: seq<int>, cidr: int)
    requires cidr <= 32
    ensures Tagged([a] + rest, cidr) == [EntryFor(a, cidr)] + Tagged(rest, cidr)
  {
    assert ([a] + rest)[1..] == rest;
  }

  /** The number of entries tagged `t`. */
  function CountRole(entries: seq<Entry>, t: IpType): (c: nat)
    ensures c <= |entries|
  {
    if entries == [] then 0
    else (if entries[0].ipType == t then 1 else 0) + CountRole(entries[1..], t)
  }

  /** `sum(1 for ip in ips if ip["type"] == "HOST")`. */
  function HostsIn(entries: seq<Entry>): nat {
    CountRole(entries, Host)
  }

  /** The number of addresses of role `t` in a list of addresses. */
  function CountOfType(addrs: seq<int>, cidr: int, t: IpType): (c: nat)
    requires cidr <= 32
    ensures c <= |addrs|
  {
    if addrs == [] then 0
    else (if GetIpType(addrs[0], cidr) == t then 1 else 0) + CountOfType(addrs[1..], cidr, t)
  }

  /**
   * Reference definition of the walk: the addresses listed from `current` on
   * while `needed` more hosts are wanted.
   */
  function Walk(current: int, needed: int, cidr: int): seq<int>
    requires cidr <= 32
    decreases MaxAddress + 1 - current
  {
    if needed < 1 || current > MaxAddress then []
    else
      var t := GetIpType(current, cidr);
      [current] + Walk(current + 1, if t == Host then needed - 1 else needed, cidr)
  }

  /** `generate_ip_list(start_ip, num_hosts, cidr)`. */
  method GenerateIpList(startIp: string, numHosts: int, cidr: int) returns (ips: seq<Entry>)
    requires Parsable(startIp) && cidr <= 32
    ensures ips == Tagged(Walk(IpToInt(startIp), numHosts, cidr), cidr)
  {
    ips := [];
    var currentIp := IpToInt(startIp);
    ghost var all := Tagged(Walk(currentIp, numHosts, cidr), cidr);
    var hostsFound := 0;
    while hostsFound < numHosts
      invariant ips + Tagged(Walk(currentIp, numHosts - hostsFound, cidr), cidr) == all
      decreases MaxAddress + 1 - currentIp
    {
      // the overflow guard
      if currentIp > MaxAddress {
        break;
      }
      var ipType := GetIpType(currentIp, cidr);
      ghost var next := if ipType == Host then numHosts - hostsFound - 1 else numHosts - hostsFound;
      WalkStep(currentIp, numHosts - hostsFound, cidr);
      var entry := Entry(IntToIp(currentIp), ipType);
      AppendAssoc(ips, [entry], Tagged(Walk(currentIp + 1, next, cidr), cidr));
      ips := ips + [entry];
      if ipType == Host {
        hostsFound := hostsFound + 1;
      }
      currentIp := currentIp + 1;
      assert numHosts - hostsFound == next;
    }
  }

  /**
   * Regrouping the list after an append.  Kept as a lemma so the loop above
   * sees only its conclusion, not the sequence axioms it needs.
   */
  lemma AppendAssoc<T>(a: seq<T>, b: seq<T>, c: seq<T>)
    ensures (a + b) + c == a + (b + c)
  {
  }

  /** One step of the walk: the entry for the current address, then the rest of the walk. */
  lemma WalkStep(current: int, needed: int, cidr: int)
    requires cidr <= 32 && needed >= 1 && current <= MaxAddress
    ensures var next := if GetIpType(current, cidr) == Host then needed - 1 else needed;
      Tagged(Walk(current, needed, cidr), cidr)
      == [Entry(IntToIp(current), GetIpType(current, cidr))] + Tagged(Walk(current + 1, next, cidr), cidr)
  {
    var next := if GetIpType(current, cidr) == Host then needed - 1 else needed;
    TaggedPrepend(current, Walk(current + 1, next, cidr), cidr);
  }

  /**
   * The walk lists consecutive addresses from the start; it lists at least
   * the start address whenever a host is wanted and the start is an address,
   * and never goes past 255.255.255.255.
   */
  lemma {:induction false} WalkIsConsecutive(start: int, needed: int, cidr: int)
    requires cidr <= 32
    ensures var w := Walk(start, needed, cidr);
      && (forall k | 0 <= k < |w| :: w[k] == start + k)
      && (needed < 1 || start > MaxAddress <==> w == [])
      && (w != [] ==> start + |w| - 1 <= MaxAddress)
    decreases MaxAddress + 1 - start
  {
    if needed >= 1 && start <= MaxAddress {
      var t := GetIpType(start, cidr);
      WalkIsConsecutive(start + 1, if t == Host then needed - 1 else needed, cidr);
    }
  }

  /**
   * The walk lists exactly the requested number of hosts unless it reached
   * the top of the address space first; it never lists more.
   */
  lemma {:induction false} WalkHostCount(start: int, needed: int, cidr: int)
    requires cidr <= 32
    ensures var w := Walk(start, needed, cidr);
      && CountOfType(w, cidr, Host) <= (if needed < 1 then 0 else needed)
      && (needed >= 1 ==> CountOfType(w, cidr, Host) == needed || start + |w| > MaxAddress)
    decreases MaxAddress + 1 - start
  {
    if needed >= 1 && start <= MaxAddress {
      var t := GetIpType(start, cidr);
      var next := if t == Host then needed - 1 else needed;
      WalkHostCount(start + 1, next, cidr);
      var w := Walk(start, needed, cidr);
      var rest := Walk(start + 1, next, cidr);
      assert w[1..] == rest;
    }
  }

  /**
   * The walk stops as soon as the target is reached: the addresses before the
   * last one hold fewer hosts than requested, and once the requested hosts
   * are all listed the last address is a host.
   */
  lemma {:induction false} WalkStopsAtTarget(start: int, needed: int, cidr: int)
    requires cidr <= 32
    ensures var w := Walk(start, needed, cidr);
      && (w != [] ==> CountOfType(w[..|w| - 1], cidr, Host) < needed)
      && (w != [] && CountOfType(w, cidr, Host) == needed ==> GetIpType(w[|w| - 1], cidr) == Host)
    decreases MaxAddress + 1 - start
  {
    if needed >= 1 && start <= MaxAddress {
      var t := GetIpType(start, cidr);
      var next := if t == Host then needed - 1 else needed;
      WalkStopsAtTarget(start + 1, next, cidr);
      var w := Walk(start, needed, cidr);
      var rest := Walk(start + 1, next, cidr);
      assert w[1..] == rest;
      if rest == [] {
        assert w[..|w| - 1] == [];
      } else {
        assert w[..|w| - 1][1..] == rest[..|rest| - 1];
        assert w[|w| - 1] == rest[|rest| - 1];
      }
    }
  }

  /**
   * The number of hosts listed is the smaller of the number requested and the
   * number of host addresses from the start up to 255.255.255.255.
   */
  lemma {:induction false} WalkHostCountIsMin(start: int, needed: int, cidr: int)
    requires cidr <= 32 && 0 <= start <= MaxAddress + 1 && needed >= 1
    ensures var available := CountType(start, MaxAddress + 1 - start, cidr, Host);
      CountOfType(Walk(start, needed, cidr), cidr, Host) == if needed < available then needed else available
    decreases MaxAddress + 1 - start
  {
    if start <= MaxAddress {
      var t := GetIpType(start, cidr);
      var next := if t == Host then needed - 1 else needed;
      var w := Walk(start, needed, cidr);
      var rest := Walk(start + 1, next, cidr);
      assert w[1..] == rest;
      CountTypeFirst(start, MaxAddress + 1 - start, cidr, Host);
      if next >= 1 {
        WalkHostCountIsMin(start + 1, next, cidr);
      }
    }
  }

  /** Tagging keeps the counts: an entry has role `t` exactly when its address has. */
  lemma {:induction false} TaggedCounts(addrs: seq<int>, cidr: int, t: IpType)
    requires cidr <= 32
    ensures CountRole(Tagged(addrs, cidr), t) == CountOfType(addrs, cidr, t)
  {
    if addrs != [] {
      TaggedCounts(addrs[1..], cidr, t);
      assert Tagged(addrs, cidr)[1..] == Tagged(addrs[1..], cidr);
    }
  }

  lemma EntryReadsBack(n: int, e: Entry, cidr: int)
    requires cidr <= 32 && IsAddress(n) && e == EntryFor(n, cidr)
    ensures Parsable(e.ip) && IpToInt(e.ip) == n
  {
    IpToIntOfIntToIp(n);
  }

  lemma TaggedReadsBack(addrs: seq<int>, cidr: int)
    requires cidr <= 32
    requires forall k | 0 <= k < |addrs| :: IsAddress(addrs[k])
    ensures var ips := Tagged(addrs, cidr);
      forall k | 0 <= k < |ips| :: Parsable(ips[k].ip) && IpToInt(ips[k].ip) == addrs[k]
  {
    var ips := Tagged(addrs, cidr);
    forall k | 0 <= k < |ips|
      ensures Parsable(ips[k].ip) && IpToInt(ips[k].ip) == addrs[k]
    {
      EntryReadsBack(addrs[k], ips[k], cidr);
    }
  }

  lemma EntryAt(w: seq<int>, ips: seq<Entry>, start: int, cidr: int, k: int)
    requires cidr <= 32 && 0 <= k < |w| == |ips|
    requires w[k] == start + k && IsAddress(w[k]) && ips[k] == EntryFor(w[k], cidr)
    ensures && IsAddress(start + k)
            && Parsable(ips[k].ip)
            && IpToInt(ips[k].ip) == start + k
            && ips[k].ipType == GetIpType(start + k, cidr)
  {
    EntryReadsBack(w[k], ips[k], cidr);
  }

  /**
   * Each listed entry, read back with `ip_to_int`, is the start plus its
   * position (so the list is strictly increasing by one), and it carries the
   * role `get_ip_type` gives that address.
   */
  lemma ListedEntries(start: int, needed: int, cidr: int)
    requires cidr <= 32 && start >= 0
    ensures var ips := Tagged(Walk(start, needed, cidr), cidr);
      forall k | 0 <= k < |ips| ::
        && IsAddress(start + k)
        && Parsable(ips[k].ip)
        && IpToInt(ips[k].ip) == start + k
        && ips[k].ipType == GetIpType(start + k, cidr)
  {
    var w := Walk(start, needed, cidr);
    var ips := Tagged(w, cidr);
    WalkIsConsecutive(start, needed, cidr);
    forall k | 0 <= k < |ips|
      ensures && IsAddress(start + k)
              && Parsable(ips[k].ip)
              && IpToInt(ips[k].ip) == start + k
              && ips[k].ipType == GetIpType(start + k, cidr)
    {
      EntryAt(w, ips, start, cidr, k);
    }
  }

  // ---------------------------------------------------------------- two walks worked out

  /** From 10.0.0.0 at /24, five hosts: the network address, then 10.0.0.1 to 10.0.0.5. */
  lemma WalkFromNetworkAddress()
    ensures Walk(0x0A00_0000, 5, 24) == [0x0A00_0000, 0x0A00_0001, 0x0A00_0002, 0x0A00_0003, 0x0A00_0004, 0x0A00_0005]
    ensures GetIpType(0x0A00_0000, 24) == Network
    ensures forall n | 0x0A00_0001 <= n <= 0x0A00_0005 :: GetIpType(n, 24) == Host
  {
    assert BlockSize(24) == 256;
    forall n | 0x0A00_0001 <= n <= 0x0A00_0005
      ensures GetIpType(n, 24) == Host
    {
      RoleInBlock(24, 0xA_0000, n);
    }
    assert Walk(0x0A00_0006, 0, 24) == [];
    assert Walk(0x0A00_0005, 1, 24) == [0x0A00_0005];
    assert Walk(0x0A00_0004, 2, 24) == [0x0A00_0004, 0x0A00_0005];
    assert Walk(0x0A00_0003, 3, 24) == [0x0A00_0003, 0x0A00_0004, 0x0A00_0005];
    assert Walk(0x0A00_0002, 4, 24) == [0x0A00_0002, 0x0A00_0003, 0x0A00_0004, 0x0A00_0005];
    assert Walk(0x0A00_0001, 5, 24) == [0x0A00_0001, 0x0A00_0002, 0x0A00_0003, 0x0A00_0004, 0x0A00_0005];
  }

  /** From 192.168.1.254 at /24, three hosts: the walk crosses into the next block. */
  lemma WalkAcrossBlocks()
    ensures Walk(0xC0A8_01FE, 3, 24) == [0xC0A8_01FE, 0xC0A8_01FF, 0xC0A8_0200, 0xC0A8_0201, 0xC0A8_0202]
    ensures GetIpType(0xC0A8_01FE, 24) == Host && GetIpType(0xC0A8_01FF, 24) == Broadcast
    ensures GetIpType(0xC0A8_0200, 24) == Network
    ensures GetIpType(0xC0A8_0201, 24) == Host && GetIpType(0xC0A8_0202, 24) == Host
  {
    assert BlockSize(24) == 256;
    RoleInBlock(24, 0xC0_A801, 0xC0A8_01FE);
    RoleInBlock(24, 0xC0_A801, 0xC0A8_01FF);
    RoleInBlock(24, 0xC0_A802, 0xC0A8_0200);
    RoleInBlock(24, 0xC0_A802, 0xC0A8_0201);
    RoleInBlock(24, 0xC0_A802, 0xC0A8_0202);
    assert Walk(0xC0A8_0203, 0, 24) == [];
    assert Walk(0xC0A8_0202, 1, 24) == [0xC0A8_0202];
    assert Walk(0xC0A8_0201, 2, 24) == [0xC0A8_0201, 0xC0A8_0202];
    assert Walk(0xC0A8_0200, 2, 24) == [0xC0A8_0200, 0xC0A8_0201, 0xC0A8_0202];
    assert Walk(0xC0A8_01FF, 2, 24) == [0xC0A8_01FF, 0xC0A8_0200, 0xC0A8_0201, 0xC0A8_0202];
  }
}
