/**
 * What `main` does with the results once the pool has finished: sort them by
 * the list of the address's octets, count each status for the summary panel,
 * and shorten long hostnames for the table.
 *
 * The pool hands results back in completion order, which is not known in
 * advance; the model takes the collected list as any rearrangement of the
 * per-entry results (same multiset).
 */
module Report {
  import opened Text
  import opened AddressCodec
  import opened Classifier
  import opened Enumerator
  import opened Probe

  // ---------------------------------------------------------------- the sort key

  /** What the sort key needs: every dot-separated part parses with `int()`. */
  predicate HasSortKey(ip: string) {
    forall p | p in Split(ip) :: IsDecimal(p)
  }

  function PartsValues(parts: seq<string>): (vs: seq<int>)
    requires forall p | p in parts :: AllDigits(p)
    ensures |vs| == |parts|
    ensures forall i | 0 <= i < |parts| :: vs[i] == DecimalValue(parts[i])
  {
    if parts == [] then []
    else
      assert parts[0] in parts;
      [DecimalValue(parts[0])] + PartsValues(parts[1..])
  }

  /** The key `[int(p) for p in ip.split(".")]`. */
  function SortKey(ip: string): seq<int>
    requires HasSortKey(ip)
  {
    PartsValues(Split(ip))
  }

  /** Python's `<=` on two lists of integers: element by element, a proper prefix first. */
  function LexLe(a: seq<int>, b: seq<int>): bool {
    if a == [] then true
    else if b == [] then false
    else if a[0] != b[0] then a[0] < b[0]
    else LexLe(a[1..], b[1..])
  }

  lemma {:induction false} LexLeReflexive(a: seq<int>)
    ensures LexLe(a, a)
  {
    if a != [] {
      LexLeReflexive(a[1..]);
    }
  }

  lemma {:induction false} LexLeTotal(a: seq<int>, b: seq<int>)
    ensures LexLe(a, b) || LexLe(b, a)
  {
    if a != [] && b != [] && a[0] == b[0] {
      LexLeTotal(a[1..], b[1..]);
    }
  }

  lemma {:induction false} LexLeTransitive(a: seq<int>, b: seq<int>, c: seq<int>)
    requires LexLe(a, b) && LexLe(b, c)
    ensures LexLe(a, c)
  {
    if a != [] && b != [] && c != [] && a[0] == b[0] && b[0] == c[0] {
      LexLeTransitive(a[1..], b[1..], c[1..]);
    }
  }

  predicate AllKeyed(rs: seq<ScanResult>) {
    forall k | 0 <= k < |rs| :: HasSortKey(rs[k].ip)
  }

  /** The key of a result; a result without one never reaches the sort (see `SortResults`). */
  function KeyOf(r: ScanResult): seq<int> {
    if HasSortKey(r.ip) then SortKey(r.ip) else []
  }

  /** The comparison `list.sort` makes between two elements, given the `key` function. */
  predicate KeyLe(key: ScanResult -> seq<int>, x: ScanResult, y: ScanResult) {
    LexLe(key(x), key(y))
  }

  predicate SortedBy(key: ScanResult -> seq<int>, rs: seq<ScanResult>) {
    forall i, j | 0 <= i < j < |rs| :: KeyLe(key, rs[i], rs[j])
  }

  // ---------------------------------------------------------------- the key orders addresses numerically

  lemma BaseOrder(hi1: int, lo1: int, hi2: int, lo2: int, base: int)
    requires base > 0 && 0 <= lo1 < base && 0 <= lo2 < base
    ensures hi1 * base + lo1 <= hi2 * base + lo2 <==> hi1 < hi2 || (hi1 == hi2 && lo1 <= lo2)
  {
    if hi1 < hi2 {
      MulAtLeast(hi2 - hi1, base);
      assert hi2 * base == hi1 * base + (hi2 - hi1) * base;
    } else if hi1 > hi2 {
      MulAtLeast(hi1 - hi2, base);
      assert hi1 * base == hi2 * base + (hi1 - hi2) * base;
    }
  }

  lemma LexLeOfFour(x: seq<int>, y: seq<int>)
    requires |x| == 4 && |y| == 4
    ensures LexLe(x, y) <==>
      x[0] < y[0] || (x[0] == y[0] &&
      (x[1] < y[1] || (x[1] == y[1] &&
      (x[2] < y[2] || (x[2] == y[2] && x[3] <= y[3])))))
  {
    var x1, y1 := x[1..], y[1..];
    var x2, y2 := x1[1..], y1[1..];
    var x3, y3 := x2[1..], y2[1..];
    assert x3[1..] == [] && y3[1..] == [];
    assert LexLe(x3, y3) <==> x[3] <= y[3];
    assert LexLe(x2, y2) <==> x[2] < y[2] || (x[2] == y[2] && LexLe(x3, y3));
    assert LexLe(x1, y1) <==> x[1] < y[1] || (x[1] == y[1] && LexLe(x2, y2));
  }

  /** Comparing the octet lists of two addresses compares the addresses. */
  lemma OctetOrder(n: int, m: int)
    requires IsAddress(n) && IsAddress(m)
    ensures LexLe(Octets(n), Octets(m)) <==> n <= m
  {
    var a, b := Octets(n), Octets(m);
    PackOfOctets(n);
    PackOfOctets(m);
    LexLeOfFour(a, b);
    var la, lb := a[2] * TwoTo8 + a[3], b[2] * TwoTo8 + b[3];
    assert 0 <= la < TwoTo16 && 0 <= lb < TwoTo16;
    var ma, mb := a[1] * TwoTo16 + la, b[1] * TwoTo16 + lb;
    assert 0 <= ma < TwoTo24 && 0 <= mb < TwoTo24;
    BaseOrder(a[0], ma, b[0], mb, TwoTo24);
    BaseOrder(a[1], la, b[1], lb, TwoTo16);
    BaseOrder(a[2], a[3], b[2], b[3], TwoTo8);
  }

  /** The key of text `int_to_ip` wrote is the address's octet list. */
  lemma SortKeyOfIntToIp(n: int)
    ensures HasSortKey(IntToIp(n)) && SortKey(IntToIp(n)) == Octets(n)
  {
    IntToIpIsDottedQuad(n);
    var os := Octets(n);
    var parts := Split(IntToIp(n));
    forall i | 0 <= i < 4
      ensures DecimalValue(parts[i]) == os[i]
    {
      DecimalValueOfFormat(os[i]);
    }
  }

  /** Sorting by the octet-list key orders results by the numeric value of their addresses. */
  lemma SortKeyOrdersByAddress(n: int, m: int)
    requires IsAddress(n) && IsAddress(m)
    ensures HasSortKey(IntToIp(n)) && HasSortKey(IntToIp(m))
    ensures LexLe(SortKey(IntToIp(n)), SortKey(IntToIp(m))) <==> n <= m
  {
    SortKeyOfIntToIp(n);
    SortKeyOfIntToIp(m);
    OctetOrder(n, m);
  }

  // ---------------------------------------------------------------- the scan banner

  /**
   * What `main` announces before scanning: the list is not empty, so `ips[0]`
   * and `ips[-1]` exist; the first entry is the start address and the last
   * one lies `total - 1` addresses further on; the host count is the number
   * asked for unless the walk stopped at 255.255.255.255.
   */
  lemma ScanRangeBanner(start: int, numHosts: int, cidr: int)
    requires IsAddress(start) && numHosts >= 1 && cidr <= 32
    ensures var ips := Tagged(Walk(start, numHosts, cidr), cidr);
      && |ips| >= 1
      && Parsable(ips[0].ip) && IpToInt(ips[0].ip) == start
      && Parsable(ips[|ips| - 1].ip) && IpToInt(ips[|ips| - 1].ip) == start + |ips| - 1
      && HostsIn(ips) <= numHosts
      && (HostsIn(ips) < numHosts ==> start + |ips| - 1 == MaxAddress)
  {
    var w := Walk(start, numHosts, cidr);
    WalkIsConsecutive(start, numHosts, cidr);
    ListedEntries(start, numHosts, cidr);
    WalkHostCount(start, numHosts, cidr);
    TaggedCounts(w, cidr, Host);
  }

  // ---------------------------------------------------------------- the sort

  /** The first `n` results are in key order. */
  ghost predicate PrefixSorted(s: seq<ScanResult>, n: int, key: ScanResult -> seq<int>)
    requires 0 <= n <= |s|
  {
    forall p, q | 0 <= p < q < n :: KeyLe(key, s[p], s[q])
  }

  /**
   * The state of an insertion step moving an element to position `j`: the
   * first `i + 1` results without it are in key order, and it is no greater
   * than anything after it.
   */
  ghost predicate SortedAround(s: seq<ScanResult>, i: int, j: int, key: ScanResult -> seq<int>)
    requires 0 <= j <= i < |s|
  {
    && (forall p, q | 0 <= p < q <= i && p != j && q != j :: KeyLe(key, s[p], s[q]))
    && (forall q | j < q <= i :: KeyLe(key, s[j], s[q]))
  }

  /** Swapping the moving element with a greater left neighbour keeps the step's state. */
  lemma SwapLeft(s: seq<ScanResult>, i: int, j: int, key: ScanResult -> seq<int>)
    requires 0 < j <= i < |s| && SortedAround(s, i, j, key) && !KeyLe(key, s[j - 1], s[j])
    ensures SortedAround(s[j - 1 := s[j]][j := s[j - 1]], i, j - 1, key)
    ensures multiset(s[j - 1 := s[j]][j := s[j - 1]]) == multiset(s)
  {
    LexLeTotal(key(s[j - 1]), key(s[j]));
  }

  /** When the moving element has stopped, the first `i + 1` results are in key order. */
  lemma StopInserting(s: seq<ScanResult>, i: int, j: int, key: ScanResult -> seq<int>)
    requires 0 <= j <= i < |s| && SortedAround(s, i, j, key)
    requires j == 0 || KeyLe(key, s[j - 1], s[j])
    ensures PrefixSorted(s, i + 1, key)
  {
    forall p, q | 0 <= p < q <= i
      ensures KeyLe(key, s[p], s[q])
    {
      if q == j && p < j - 1 {
        LexLeTransitive(key(s[p]), key(s[j - 1]), key(s[j]));
      }
    }
  }

  /** One step of insertion sort: move `a[i]` left past the greater keys before it. */
  method Insert(a: array<ScanResult>, i: int, key: ScanResult -> seq<int>)
    requires 0 <= i < a.Length && PrefixSorted(a[..], i, key)
    modifies a
    ensures PrefixSorted(a[..], i + 1, key)
    ensures multiset(a[..i + 1]) == old(multiset(a[..i + 1]))
    ensures a[i + 1..] == old(a[i + 1..])
    ensures multiset(a[..]) == old(multiset(a[..]))
  {
    var j := i;
    while j > 0 && !KeyLe(key, a[j - 1], a[j])
      invariant 0 <= j <= i
      invariant SortedAround(a[..], i, j, key)
      invariant multiset(a[..i + 1]) == old(multiset(a[..i + 1]))
      invariant a[i + 1..] == old(a[i + 1..])
      invariant multiset(a[..]) == old(multiset(a[..]))
    {
      ghost var s := a[..];
      SwapLeft(s, i, j, key);
      a[j - 1], a[j] := a[j], a[j - 1];
      assert a[..] == s[j - 1 := s[j]][j := s[j - 1]];
      assert a[..i + 1] == s[..i + 1][j - 1 := s[j]][j := s[j - 1]];
      j := j - 1;
    }
    StopInserting(a[..], i, j, key);
  }

  /**
   * `results.sort(key=...)`, as an insertion sort that moves an element left
   * past strictly greater keys only.  Every address must have a key: `int()`
   * raises on a part that is not a number.
   */
  method SortResults(a: array<ScanResult>)
    requires AllKeyed(a[..])
    modifies a
    ensures SortedBy(KeyOf, a[..])
    ensures multiset(a[..]) == old(multiset(a[..]))
  {
    var i := 0;
    while i < a.Length
      invariant 0 <= i <= a.Length
      invariant PrefixSorted(a[..], i, KeyOf)
      invariant multiset(a[..]) == old(multiset(a[..]))
    {
      Insert(a, i, KeyOf);
      i := i + 1;
    }
  }

  /** The results as the report shows them: the collected list, sorted in place. */
  method SortedReport(collected: seq<ScanResult>) returns (results: seq<ScanResult>)
    requires AllKeyed(collected)
    ensures SortedBy(KeyOf, results)
    ensures multiset(results) == multiset(collected)
  {
    var a := new ScanResult[|collected|](k requires 0 <= k < |collected| => collected[k]);
    assert a[..] == collected;
    SortResults(a);
    results := a[..];
  }

  /** A list whose keys strictly increase. */
  predicate StrictlyIncreasing(key: ScanResult -> seq<int>, rs: seq<ScanResult>) {
    forall i, j | 0 <= i < j < |rs| :: !KeyLe(key, rs[j], rs[i])
  }

  lemma SortedTail(key: ScanResult -> seq<int>, a: seq<ScanResult>)
    requires a != [] && SortedBy(key, a)
    ensures SortedBy(key, a[1..])
  {
    forall i, j | 0 <= i < j < |a| - 1
      ensures KeyLe(key, a[1..][i], a[1..][j])
    {
      assert a[1..][i] == a[i + 1] && a[1..][j] == a[j + 1];
    }
  }

  lemma IncreasingTail(key: ScanResult -> seq<int>, b: seq<ScanResult>)
    requires b != [] && StrictlyIncreasing(key, b)
    ensures StrictlyIncreasing(key, b[1..])
  {
    forall i, j | 0 <= i < j < |b| - 1
      ensures !KeyLe(key, b[1..][j], b[1..][i])
    {
      assert b[1..][i] == b[i + 1] && b[1..][j] == b[j + 1];
    }
  }

  /** Both lists start with the same result. */
  lemma SameFirst(key: ScanResult -> seq<int>, a: seq<ScanResult>, b: seq<ScanResult>)
    requires a != [] && multiset(a) == multiset(b)
    requires SortedBy(key, a) && StrictlyIncreasing(key, b)
    ensures b != [] && a[0] == b[0]
  {
    var j := IndexOf(b, a[0]);
    var i := IndexOf(a, b[0]);
    if i == 0 {
      LexLeReflexive(key(a[0]));
    }
    assert KeyLe(key, b[j], b[0]);
  }

  /**
   * Two lists that hold the same results, the first sorted by key and the
   * second strictly increasing by key, are the same list.
   */
  lemma {:induction false} SortedIsUnique(key: ScanResult -> seq<int>, a: seq<ScanResult>, b: seq<ScanResult>)
    requires multiset(a) == multiset(b)
    requires SortedBy(key, a) && StrictlyIncreasing(key, b)
    ensures a == b
    decreases |a|
  {
    if a != [] {
      SameFirst(key, a, b);
      TailMultiset(a);
      TailMultiset(b);
      SortedTail(key, a);
      IncreasingTail(key, b);
      SortedIsUnique(key, a[1..], b[1..]);
      SameHeadAndTail(a, b);
    } else {
      assert |multiset(b)| == 0;
    }
  }

  /** Results for strictly increasing addresses, in that order, have strictly increasing keys. */
  lemma IncreasingAddressesIncreasingKeys(rs: seq<ScanResult>, addrs: seq<int>)
    requires |rs| == |addrs|
    requires forall k | 0 <= k < |rs| :: IsAddress(addrs[k]) && rs[k].ip == IntToIp(addrs[k])
    requires forall i, j | 0 <= i < j < |addrs| :: addrs[i] < addrs[j]
    ensures StrictlyIncreasing(KeyOf, rs)
  {
    forall i, j | 0 <= i < j < |rs|
      ensures !KeyLe(KeyOf, rs[j], rs[i])
    {
      SortKeyOrdersByAddress(addrs[j], addrs[i]);
    }
  }

  /**
   * The report order does not depend on completion order: whatever order the
   * pool finishes in, the sorted results are the per-entry results of the
   * walk in walk order.
   */
  lemma ReportIsWalkOrder(start: int, needed: int, cidr: int, run: string -> Option<int>,
                          resolve: string -> Option<string>, results: seq<ScanResult>)
    requires cidr <= 32 && start >= 0
    requires multiset(results) == multiset(ScanEach(Tagged(Walk(start, needed, cidr), cidr), run, resolve))
    requires SortedBy(KeyOf, results)
    ensures results == ScanEach(Tagged(Walk(start, needed, cidr), cidr), run, resolve)
  {
    var w := Walk(start, needed, cidr);
    var entries := Tagged(w, cidr);
    var expected := ScanEach(entries, run, resolve);
    WalkIsConsecutive(start, needed, cidr);
    forall k | 0 <= k < |expected|
      ensures IsAddress(w[k]) && expected[k].ip == IntToIp(w[k])
    {
      assert entries[k] == EntryFor(w[k], cidr);
    }
    IncreasingAddressesIncreasingKeys(expected, w);
    SortedIsUnique(KeyOf, results, expected);
  }

  /** The result scanned for the j-th address of a walk carries text `int_to_ip` wrote, which has a key. */
  lemma ScannedResultIsKeyed(w: seq<int>, cidr: int, run: string -> Option<int>,
                             resolve: string -> Option<string>, j: int)
    requires cidr <= 32 && 0 <= j < |w|
    ensures HasSortKey(ScanEach(Tagged(w, cidr), run, resolve)[j].ip)
  {
    assert Tagged(w, cidr)[j] == EntryFor(w[j], cidr);
    SortKeyOfIntToIp(w[j]);
  }

  /**
   * The sort never meets an address without a key: every collected result,
   * in whatever order the pool finished, is the scan of a listed entry.
   */
  lemma CollectedResultsAreKeyed(start: int, needed: int, cidr: int, run: string -> Option<int>,
                                 resolve: string -> Option<string>, collected: seq<ScanResult>)
    requires cidr <= 32
    requires multiset(collected) == multiset(ScanEach(Tagged(Walk(start, needed, cidr), cidr), run, resolve))
    ensures AllKeyed(collected)
  {
    var w := Walk(start, needed, cidr);
    var expected := ScanEach(Tagged(w, cidr), run, resolve);
    forall k | 0 <= k < |collected|
      ensures HasSortKey(collected[k].ip)
    {
      assert collected[k] in multiset(collected);
      var j := IndexOf(expected, collected[k]);
      ScannedResultIsKeyed(w, cidr, run, resolve, j);
    }
  }

  // ---------------------------------------------------------------- the summary

  /** `sum(1 for r in results if r["status"] == s)`. */
  function CountStatus(rs: seq<ScanResult>, s: Status): (c: nat)
    ensures c <= |rs|
  {
    if rs == [] then 0
    else (if rs[0].status == s then 1 else 0) + CountStatus(rs[1..], s)
  }

  datatype Summary = Summary(up: nat, down: nat, network: nat, broadcast: nat, total: nat)

  lemma {:induction false} StatusCountsAddUp(rs: seq<ScanResult>)
    ensures CountStatus(rs, Up) + CountStatus(rs, Down) + CountStatus(rs, Ntwrk) + CountStatus(rs, Bcast) == |rs|
  {
    if rs != [] {
      StatusCountsAddUp(rs[1..]);
    }
  }

  /** The numbers of the summary panel: the four status counts add up to the total. */
  function Summarize(rs: seq<ScanResult>): (s: Summary)
    ensures s.total == |rs|
    ensures s.up + s.down + s.network + s.broadcast == s.total
  {
    StatusCountsAddUp(rs);
    Summary(CountStatus(rs, Up), CountStatus(rs, Down), CountStatus(rs, Ntwrk), CountStatus(rs, Bcast), |rs|)
  }

  /** Taking one result out of a list takes its status out of the counts. */
  lemma {:induction false} CountStatusRemove(b: seq<ScanResult>, j: int, s: Status)
    requires 0 <= j < |b|
    ensures CountStatus(b, s) == (if b[j].status == s then 1 else 0) + CountStatus(b[..j] + b[j + 1..], s)
  {
    if j == 0 {
      assert b[..0] + b[1..] == b[1..];
    } else {
      var rest := b[..j] + b[j + 1..];
      assert rest[0] == b[0];
      assert rest[1..] == b[1..][..j - 1] + b[1..][j..];
      CountStatusRemove(b[1..], j - 1, s);
    }
  }

  lemma TailMultiset<T>(a: seq<T>)
    requires a != []
    ensures multiset(a[1..]) == multiset(a) - multiset{a[0]}
  {
    assert a == [a[0]] + a[1..];
  }

  lemma SameHeadAndTail<T>(a: seq<T>, b: seq<T>)
    requires a != [] && b != [] && a[0] == b[0] && a[1..] == b[1..]
    ensures a == b
  {
    assert a == [a[0]] + a[1..] && b == [b[0]] + b[1..];
  }

  /** A position at which an element of a list's multiset occurs. */
  lemma IndexOf<T>(b: seq<T>, x: T) returns (j: int)
    requires x in multiset(b)
    ensures 0 <= j < |b| && b[j] == x
  {
    assert x in b;
    j :| 0 <= j < |b| && b[j] == x;
  }

  lemma MultisetRemove<T>(b: seq<T>, j: int)
    requires 0 <= j < |b|
    ensures multiset(b[..j] + b[j + 1..]) == multiset(b) - multiset{b[j]}
  {
    assert b == b[..j] + [b[j]] + b[j + 1..];
  }

  /** The counts do not depend on the order the results were collected in. */
  lemma {:induction false} CountStatusOfPermutation(a: seq<ScanResult>, b: seq<ScanResult>, s: Status)
    requires multiset(a) == multiset(b)
    ensures CountStatus(a, s) == CountStatus(b, s)
    decreases |a|
  {
    if a != [] {
      var j := IndexOf(b, a[0]);
      var rest := b[..j] + b[j + 1..];
      MultisetRemove(b, j);
      TailMultiset(a);
      CountStatusOfPermutation(a[1..], rest, s);
      CountStatusRemove(b, j, s);
    } else {
      assert |multiset(b)| == 0;
    }
  }

  /** The number of host entries whose ping succeeds. */
  function Responding(entries: seq<Entry>, run: string -> Option<int>): (c: nat)
    ensures c <= HostsIn(entries)
  {
    if entries == [] then 0
    else (if entries[0].ipType == Host && run(entries[0].ip) == Some(0) then 1 else 0) + Responding(entries[1..], run)
  }

  lemma {:induction false} ScanEachCounts(entries: seq<Entry>, run: string -> Option<int>, resolve: string -> Option<string>)
    ensures var rs := ScanEach(entries, run, resolve);
      && CountStatus(rs, Ntwrk) == CountRole(entries, Network)
      && CountStatus(rs, Bcast) == CountRole(entries, Broadcast)
      && CountStatus(rs, Up) == Responding(entries, run)
      && CountStatus(rs, Up) + CountStatus(rs, Down) == HostsIn(entries)
  {
    if entries != [] {
      var rs := ScanEach(entries, run, resolve);
      assert rs[1..] == ScanEach(entries[1..], run, resolve);
      ScanEachCounts(entries[1..], run, resolve);
    }
  }

  /**
   * The summary of a scan, in whatever order its results were collected:
   * the network and broadcast counts are those of the entry list, "UP"
   * counts the host entries whose ping succeeded, and "UP" plus "DOWN" is the
   * number of host entries.
   */
  lemma SummaryOfScan(entries: seq<Entry>, run: string -> Option<int>, resolve: string -> Option<string>,
                      results: seq<ScanResult>)
    requires multiset(results) == multiset(ScanEach(entries, run, resolve))
    ensures var s := Summarize(results);
      && s.total == |entries|
      && s.network == CountRole(entries, Network)
      && s.broadcast == CountRole(entries, Broadcast)
      && s.up == Responding(entries, run)
      && s.up + s.down == HostsIn(entries)
  {
    var rs := ScanEach(entries, run, resolve);
    ScanEachCounts(entries, run, resolve);
    CountStatusOfPermutation(results, rs, Up);
    CountStatusOfPermutation(results, rs, Down);
    CountStatusOfPermutation(results, rs, Ntwrk);
    CountStatusOfPermutation(results, rs, Bcast);
    assert |results| == |rs| by {
      assert |multiset(results)| == |results| && |multiset(rs)| == |rs|;
    }
  }

  // ---------------------------------------------------------------- the report

  /**
   * `main` from the address list on: the list is generated, the pool hands
   * back `collected` in completion order, and the results are sorted.  The
   * report is the per-entry scan in walk order, and its summary counts every
   * listed entry once and every host as "UP" or "DOWN".
   */
  method ScanReport(startIp: string, numHosts: int, cidr: int, run: string -> Option<int>,
                    resolve: string -> Option<string>, collected: seq<ScanResult>)
    returns (ips: seq<Entry>, results: seq<ScanResult>)
    requires Parsable(startIp) && cidr <= 32
    requires multiset(collected) == multiset(ScanEach(Tagged(Walk(IpToInt(startIp), numHosts, cidr), cidr), run, resolve))
    ensures ips == Tagged(Walk(IpToInt(startIp), numHosts, cidr), cidr)
    ensures results == ScanEach(ips, run, resolve)
    ensures Summarize(results).total == |ips| && Summarize(results).up + Summarize(results).down == HostsIn(ips)
  {
    ips := GenerateIpList(startIp, numHosts, cidr);
    CollectedResultsAreKeyed(IpToInt(startIp), numHosts, cidr, run, resolve, collected);
    results := SortedReport(collected);
    ReportIsWalkOrder(IpToInt(startIp), numHosts, cidr, run, resolve, results);
    SummaryOfScan(ips, run, resolve, results);
  }

  // ---------------------------------------------------------------- the table

  const HostnameWidth: nat := 45

  /** The hostname cell: a name longer than 45 characters keeps its first 42 and ends in "...". */
  function DisplayHostname(name: string): (cell: string)
    ensures |cell| <= HostnameWidth
    ensures |name| <= HostnameWidth ==> cell == name
    ensures |name| > HostnameWidth ==> |cell| == HostnameWidth && cell[..42] == name[..42] && cell[42..] == "..."
  {
    if |name| > HostnameWidth then name[..42] + "..." else name
  }
}
