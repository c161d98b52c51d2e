/**
 * The checks `get_user_input` applies before a scan starts: the start address
 * must have exactly four dot-separated parts, each a number from 0 to 255;
 * the host count must be at least 1; the CIDR prefix length must lie in
 * [8, 32].  The prompt loops that ask again after a rejection are not
 * modelled: each check returns its verdict.
 */
module Validation {
  import opened Text
  import opened AddressCodec
  import opened Classifier
  import opened Enumerator

  /** The three error messages of the start-address prompt and those of the two number prompts. */
  datatype InputError = WrongPartCount | NotANumber | OctetOutOfRange | HostCountTooSmall | CidrOutOfRange

  datatype Verdict = Accepted | Rejected(error: InputError)

  /**
   * The start-address check.  The parts are examined in order and the first
   * bad one decides the message: a part `int()` cannot parse gives
   * `NotANumber`, a number outside [0,255] gives `OctetOutOfRange`.
   */
  method CheckStartAddress(text: string) returns (verdict: Verdict)
    ensures verdict == Accepted <==> IsDottedQuad(text)
    ensures verdict == Rejected(WrongPartCount) <==> |Split(text)| != 4
    ensures verdict == Rejected(NotANumber) <==>
      var parts := Split(text);
      |parts| == 4 && exists i | 0 <= i < 4 ::
        !IsDecimal(parts[i]) && forall j | 0 <= j < i :: IsOctetText(parts[j])
    ensures verdict == Rejected(OctetOutOfRange) <==>
      var parts := Split(text);
      |parts| == 4 && exists i | 0 <= i < 4 ::
        IsDecimal(parts[i]) && DecimalValue(parts[i]) > 255 && forall j | 0 <= j < i :: IsOctetText(parts[j])
    ensures verdict.Rejected? ==> verdict.error in {WrongPartCount, NotANumber, OctetOutOfRange}
  {
    var parts := Split(text);
    if |parts| != 4 {
      return Rejected(WrongPartCount);
    }
    var i := 0;
    while i < 4
      invariant 0 <= i <= 4
      invariant forall j | 0 <= j < i :: IsOctetText(parts[j])
    {
      if !IsDecimal(parts[i]) {
        return Rejected(NotANumber);
      }
      var num := DecimalValue(parts[i]);
      if num < 0 || num > 255 {
        return Rejected(OctetOutOfRange);
      }
      i := i + 1;
    }
    return Accepted;
  }

  /** The host-count check: at least one host must be asked for. */
  function CheckHostCount(numHosts: int): (v: Verdict)
    ensures v == Accepted <==> numHosts >= 1
    ensures v.Rejected? ==> v.error == HostCountTooSmall
  {
    if numHosts < 1 then Rejected(HostCountTooSmall) else Accepted
  }

  /** The CIDR check: the prefix length must lie in [8, 32]. */
  function CheckCidr(cidr: int): (v: Verdict)
    ensures v == Accepted <==> 8 <= cidr <= 32
    ensures v.Rejected? ==> v.error == CidrOutOfRange
  {
    if cidr < 8 || cidr > 32 then Rejected(CidrOutOfRange) else Accepted
  }

  /**
   * Inputs that pass all three checks start a walk that is well defined and
   * not empty: the start text converts to an address, the first entry is
   * that address (whatever its role), and the list never holds more hosts
   * than requested.  When the start is written without leading zeros the
   * first entry's text is the start text itself.
   */
  lemma AcceptedInputsStartTheWalk(text: string, numHosts: int, cidr: int)
    requires IsDottedQuad(text)
    requires CheckHostCount(numHosts) == Accepted && CheckCidr(cidr) == Accepted
    ensures Parsable(text) && IsAddress(IpToInt(text))
    ensures var ips := Tagged(Walk(IpToInt(text), numHosts, cidr), cidr);
      && ips != []
      && Parsable(ips[0].ip) && IpToInt(ips[0].ip) == IpToInt(text)
      && ips[0].ipType == GetIpType(IpToInt(text), cidr)
      && HostsIn(ips) <= numHosts
      && (IsCanonicalDottedQuad(text) ==> ips[0].ip == text)
  {
    var start := IpToInt(text);
    var w := Walk(start, numHosts, cidr);
    WalkIsConsecutive(start, numHosts, cidr);
    ListedEntries(start, numHosts, cidr);
    WalkHostCount(start, numHosts, cidr);
    TaggedCounts(w, cidr, Host);
    if IsCanonicalDottedQuad(text) {
      IntToIpOfIpToInt(text);
      assert w[0] == start;
    }
  }
}
