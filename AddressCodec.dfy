/**
 * Conversion between the dotted-quad text of an IPv4 address and its integer
 * value (`ip_to_int` and `int_to_ip` in scan_network.py).
 *
 * Python integers are unbounded, so addresses are modelled as `int`; the walk
 * over a range relies on a current address reaching 2^32.  For Python ints,
 * `x << k` is `x * 2^k`, `x >> k` is floor division by 2^k and `x & 255` is
 * the non-negative remainder modulo 256, which is what Dafny's `/` and `%`
 * compute for a positive divisor, on negative `x` too.
 */
module AddressCodec {
  import opened Text

  const MaxAddress: int := 0xFFFF_FFFF
  const TwoTo8: int := 0x100
  const TwoTo16: int := 0x1_0000
  const TwoTo24: int := 0x100_0000

  predicate IsAddress(n: int) {
    0 <= n <= MaxAddress
  }

  predicate IsOctet(n: int) {
    0 <= n <= 255
  }

  /** The arithmetic of `ip_to_int`: four values shifted by 24, 16, 8 and 0 bits and added. */
  function Pack(o0: int, o1: int, o2: int, o3: int): int {
    o0 * TwoTo24 + o1 * TwoTo16 + o2 * TwoTo8 + o3
  }

  /** The four values `int_to_ip` extracts: `(n >> 24) & 255`, `(n >> 16) & 255`, `(n >> 8) & 255`, `n & 255`. */
  function Octets(n: int): (os: seq<int>)
    ensures |os| == 4
    ensures forall i | 0 <= i < 4 :: IsOctet(os[i])
  {
    [n / TwoTo24 % 256, n / TwoTo16 % 256, n / TwoTo8 % 256, n % 256]
  }

  /** What `ip_to_int` needs of its argument: at least four dot-separated parts, the first four `int()`-parsable. */
  predicate Parsable(ip: string) {
    var parts := Split(ip);
    |parts| >= 4 && forall i | 0 <= i < 4 :: IsDecimal(parts[i])
  }

  /** Text the start-address check accepts: exactly four parts, each a decimal number in [0,255]. */
  predicate IsOctetText(p: string) {
    IsDecimal(p) && DecimalValue(p) <= 255
  }

  predicate IsDottedQuad(ip: string) {
    var parts := Split(ip);
    |parts| == 4 && forall i | 0 <= i < 4 :: IsOctetText(parts[i])
  }

  /** A dotted quad written the way `int_to_ip` writes one: no leading zeros. */
  predicate IsCanonicalDottedQuad(ip: string) {
    var parts := Split(ip);
    IsDottedQuad(ip) && forall i | 0 <= i < 4 :: IsCanonicalDecimal(parts[i])
  }

  function PartValues(ip: string): (vs: seq<nat>)
    requires Parsable(ip)
    ensures |vs| == 4
  {
    var parts := Split(ip);
    [DecimalValue(parts[0]), DecimalValue(parts[1]), DecimalValue(parts[2]), DecimalValue(parts[3])]
  }

  /**
   * `ip_to_int`.  Parts after the fourth are ignored, as in the source; a value
   * above 255 in a part is not rejected here (the input check does that).
   */
  function IpToInt(ip: string): (n: int)
    requires Parsable(ip)
    ensures n >= 0
    ensures IsDottedQuad(ip) ==> IsAddress(n)
    ensures IsDottedQuad(ip) ==> Octets(n) == PartValues(ip)
  {
    var vs := PartValues(ip);
    PackBounds(vs[0], vs[1], vs[2], vs[3]);
    if IsDottedQuad(ip) then
      OctetsOfPack(vs[0], vs[1], vs[2], vs[3]);
      Pack(vs[0], vs[1], vs[2], vs[3])
    else
      Pack(vs[0], vs[1], vs[2], vs[3])
  }

  /** `int_to_ip`: the four octets in decimal, joined by dots (the f-string "{o0}.{o1}.{o2}.{o3}"). */
  function IntToIp(n: int): string {
    var os := Octets(n);
    Join([FormatDecimal(os[0]), FormatDecimal(os[1]), FormatDecimal(os[2]), FormatDecimal(os[3])])
  }

  /** `int_to_ip` always writes a dotted quad: four canonical decimal parts, each an octet. */
  lemma IntToIpIsDottedQuad(n: int)
    ensures Split(IntToIp(n)) == [FormatDecimal(Octets(n)[0]), FormatDecimal(Octets(n)[1]),
                                  FormatDecimal(Octets(n)[2]), FormatDecimal(Octets(n)[3])]
    ensures IsCanonicalDottedQuad(IntToIp(n))
  {
    var os := Octets(n);
    var parts := [FormatDecimal(os[0]), FormatDecimal(os[1]), FormatDecimal(os[2]), FormatDecimal(os[3])];
    SplitOfJoin(parts);
    forall i | 0 <= i < 4
      ensures IsOctetText(parts[i])
    {
      DecimalValueOfFormat(os[i]);
    }
  }

  // ---------------------------------------------------------------- arithmetic

  lemma MulAtLeast(k: int, d: int)
    requires k >= 1 && d > 0
    ensures k * d >= d
  {
    var e := k - 1;
    assert k * d == e * d + d;
  }

  lemma DivModUnique(n: int, d: int, q: int, r: int)
    requires d > 0 && 0 <= r < d && n == q * d + r
    ensures n / d == q && n % d == r
  {
    var q', r' := n / d, n % d;
    assert n == q' * d + r';
    if q' > q {
      MulAtLeast(q' - q, d);
      assert false;
    } else if q' < q {
      MulAtLeast(q - q', d);
      assert false;
    }
  }

  lemma PackBounds(o0: int, o1: int, o2: int, o3: int)
    requires o0 >= 0 && o1 >= 0 && o2 >= 0 && o3 >= 0
    ensures Pack(o0, o1, o2, o3) >= 0
    ensures IsOctet(o0) && IsOctet(o1) && IsOctet(o2) && IsOctet(o3) ==> IsAddress(Pack(o0, o1, o2, o3))
  {
    if IsOctet(o0) && IsOctet(o1) && IsOctet(o2) && IsOctet(o3) {
      assert o0 * TwoTo24 <= 255 * TwoTo24;
      assert o1 * TwoTo16 <= 255 * TwoTo16;
      assert o2 * TwoTo8 <= 255 * TwoTo8;
    }
  }

  /** Unpacking a packed quad gives back its four octets. */
  lemma OctetsOfPack(o0: int, o1: int, o2: int, o3: int)
    requires IsOctet(o0) && IsOctet(o1) && IsOctet(o2) && IsOctet(o3)
    ensures Octets(Pack(o0, o1, o2, o3)) == [o0, o1, o2, o3]
  {
    var n := Pack(o0, o1, o2, o3);
    assert 0 <= o1 * TwoTo16 + o2 * TwoTo8 + o3 < TwoTo24 by {
      assert o1 * TwoTo16 <= 255 * TwoTo16;
      assert o2 * TwoTo8 <= 255 * TwoTo8;
    }
    DivModUnique(n, TwoTo24, o0, o1 * TwoTo16 + o2 * TwoTo8 + o3);
    DivModUnique(o0, 256, 0, o0);
    assert 0 <= o2 * TwoTo8 + o3 < TwoTo16 by {
      assert o2 * TwoTo8 <= 255 * TwoTo8;
    }
    DivModUnique(n, TwoTo16, o0 * 256 + o1, o2 * TwoTo8 + o3);
    DivModUnique(o0 * 256 + o1, 256, o0, o1);
    DivModUnique(n, TwoTo8, o0 * TwoTo16 + o1 * 256 + o2, o3);
    DivModUnique(o0 * TwoTo16 + o1 * 256 + o2, 256, o0 * 256 + o1, o2);
  }

  /** Packing the four octets of an address gives the address back. */
  lemma PackOfOctets(n: int)
    requires IsAddress(n)
    ensures var os := Octets(n); Pack(os[0], os[1], os[2], os[3]) == n
  {
    var q1, r0 := n / 256, n % 256;
    var q2, r1 := q1 / 256, q1 % 256;
    var q3, r2 := q2 / 256, q2 % 256;
    assert n == q1 * 256 + r0;
    assert q1 == q2 * 256 + r1;
    assert q2 == q3 * 256 + r2;
    assert n == q3 * TwoTo24 + r2 * TwoTo16 + r1 * TwoTo8 + r0;
    assert 0 <= q3 < 256;
    OctetsOfPack(q3, r2, r1, r0);
  }

  // ---------------------------------------------------------------- round trips

  /** `ip_to_int(int_to_ip(n)) == n` for every address. */
  lemma IpToIntOfIntToIp(n: int)
    requires IsAddress(n)
    ensures Parsable(IntToIp(n)) && IpToInt(IntToIp(n)) == n
  {
    var os := Octets(n);
    IntToIpIsDottedQuad(n);
    forall i | 0 <= i < 4
      ensures DecimalValue(Split(IntToIp(n))[i]) == os[i]
    {
      DecimalValueOfFormat(os[i]);
    }
    PackOfOctets(n);
  }

  /** `int_to_ip(ip_to_int(s)) == s` for every dotted quad written without leading zeros. */
  lemma IntToIpOfIpToInt(ip: string)
    requires IsCanonicalDottedQuad(ip)
    ensures IntToIp(IpToInt(ip)) == ip
  {
    var parts := Split(ip);
    var n := IpToInt(ip);
    IntToIpIsDottedQuad(n);
    forall i | 0 <= i < 4
      ensures FormatDecimal(Octets(n)[i]) == parts[i]
    {
      FormatOfDecimalValue(parts[i]);
    }
    assert Split(IntToIp(n)) == parts;
    JoinOfSplit(ip);
    JoinOfSplit(IntToIp(n));
  }
}
