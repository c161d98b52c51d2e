# Network host scanner — a Dafny model of its core

`scan_network.py` is an interactive IPv4 scanner. It proceeds in five steps:

1. It reads a start address, a number of hosts and a CIDR prefix length, and checks all three.
2. It walks forward from the start address until it has listed that many *host* addresses. Network and broadcast addresses met on the way are listed, tagged "NTWRK" or "BCAST", but not counted.
3. A thread pool probes every host entry with `ping` and reverse DNS.
4. It sorts the results by the numeric octets of the address.
5. It shows a table and a summary panel with the counts per status.

This project models that core in Dafny and proves what it promises.

| file | module | what it models |
|---|---|---|
| `Text.dfy` | `Text` | `str.split(".")`, the dotted join, `int()` on digit strings, `str()` of a non-negative integer |
| `AddressCodec.dfy` | `AddressCodec` | `ip_to_int`, `int_to_ip` and their round trips |
| `Classifier.dfy` | `Classifier` | `get_ip_type`; counts of each role per CIDR block |
| `Enumerator.dfy` | `Enumerator` | `generate_ip_list` as a method with a loop; the walk it performs as a function, with its properties |
| `Validation.dfy` | `Validation` | the checks in `get_user_input` |
| `Probe.dfy` | `Probe` | `scan_host`, with `ping_host` and `get_hostname` as oracles |
| `Report.dfy` | `Report` | the scan banner, the in-place sort of the results, the summary counts, the hostname cell |

Python integers are unbounded, so addresses are `int`, and the walk's guard against passing 255.255.255.255 is modelled as written. `ping` and reverse DNS are parameters (`run`, `resolve`):

- `run` gives the exit code of the ping process, or `None` when starting it raised.
- `resolve` gives the resolved name, or `None` when the lookup raised.

The pool hands results back in completion order. The model takes that order as an input: any list with the same multiset of results as the per-entry scan. `Report.ReportIsWalkOrder` proves that the sorted report is the same whatever that order was.

## Model

| member | source | states |
|---|---|---|
| Text.Split | scan_network.py:96 | splitting on "." gives at least one piece and no piece holds a dot |
| Text.FormatDecimal | scan_network.py:102 | `str(n)` of a non-negative number is a digit string with no leading zero and no dot |
| Text.DecimalValueOfFormat | scan_network.py:97-102 | `int(str(v)) == v` |
| Text.FormatOfDecimalValue | scan_network.py:97-102 | `str(int(s)) == s` for a digit string without leading zeros |
| Text.SplitOfJoin | scan_network.py:96-102 | splitting the dotted join of dot-free pieces gives the pieces back |
| Text.JoinOfSplit | scan_network.py:96 | joining the pieces of a split with "." gives the text back |
| AddressCodec.Octets | scan_network.py:102 | the four values `(n >> 24) & 255` … `n & 255` are each in [0,255] |
| AddressCodec.IpToInt | scan_network.py:94-97 | the value is non-negative; for four parts in [0,255] it is an address in [0, 2^32-1] whose octets are the parts |
| AddressCodec.IntToIp | scan_network.py:100-102 | definition: the four extracted octets written in decimal and joined with "."; properties in `AddressCodec.IntToIpIsDottedQuad` and `AddressCodec.IpToIntOfIntToIp` |
| AddressCodec.IntToIpIsDottedQuad | scan_network.py:100-102 | `int_to_ip` always writes four dot-separated canonical decimals, each in [0,255], which the input check accepts |
| AddressCodec.OctetsOfPack | scan_network.py:97-102 | shifting four octets together and extracting them again gives the same octets |
| AddressCodec.PackOfOctets | scan_network.py:97-102 | an address is the shifted sum of its four extracted octets |
| AddressCodec.IpToIntOfIntToIp | scan_network.py:94-102 | `ip_to_int(int_to_ip(n)) == n` for every address n |
| AddressCodec.IntToIpOfIpToInt | scan_network.py:94-102 | `int_to_ip(ip_to_int(s)) == s` for every dotted quad without leading zeros |
| Classifier.BlockSize | scan_network.py:109 | a block holds at least one address, and at least three for /30 and shorter prefixes |
| Classifier.GetIpType | scan_network.py:105-122 | "NTWRK" exactly when the prefix is at most 30 and the address is block-aligned; "BCAST" exactly when the prefix is at most 30 and the address is the last of its block; "HOST" otherwise |
| Classifier.RoleInBlock | scan_network.py:109-122 | inside block b, the network address is the block's first address and the broadcast address its last |
| Classifier.DegenerateBlocksAreHosts | scan_network.py:113-115 | for /31 and /32 every address of every range is a host |
| Classifier.BlockCounts | scan_network.py:109-122 | for /30 and shorter prefixes each block has exactly one network address, exactly one broadcast address, and size − 2 hosts |
| Enumerator.Tagged | scan_network.py:141-145 | entry k carries `int_to_ip` of address k and `get_ip_type` of address k |
| Enumerator.HostsIn | scan_network.py:296 | definition: the number of entries tagged "HOST"; properties in `Enumerator.TaggedCounts`, `Enumerator.WalkHostCount` and `Report.SummaryOfScan` |
| Enumerator.Walk | scan_network.py:133-151 | reference definition of the loop: from the current address, list it and go on with one host fewer to find when it is a host, until the target is met or the address passes 2^32-1; properties in `Enumerator.WalkIsConsecutive`, `Enumerator.WalkHostCount`, `Enumerator.WalkStopsAtTarget` and `Enumerator.WalkHostCountIsMin` |
| Enumerator.GenerateIpList | scan_network.py:125-153 | the loop appends exactly the tagged walk from `ip_to_int(start_ip)` |
| Enumerator.WalkStep | scan_network.py:136-151 | one loop iteration: the current address followed by the walk from the next address, with one host fewer to find when the current one is a host |
| Enumerator.WalkIsConsecutive | scan_network.py:133-151 | the addresses are `start, start+1, …`; the list is empty exactly when fewer than one host is asked for or the start is past 2^32-1; it never passes 2^32-1 |
| Enumerator.WalkHostCount | scan_network.py:136-151 | never more hosts than asked for; exactly that many unless the walk stopped past 2^32-1 |
| Enumerator.WalkStopsAtTarget | scan_network.py:136-151 | every entry but the last leaves the host target unmet; when the target is met, the last entry is a host |
| Enumerator.WalkHostCountIsMin | scan_network.py:136-151 | the host count is the smaller of the target and the number of hosts between the start and 2^32-1 |
| Enumerator.TaggedCounts | scan_network.py:141-149 | counting tags in the entry list counts roles of the walked addresses |
| Enumerator.EntryReadsBack | scan_network.py:143 | an entry's text converts back to its address |
| Enumerator.TaggedReadsBack | scan_network.py:141-145 | every entry's text converts back to its address |
| Enumerator.ListedEntries | scan_network.py:130-153 | entry k is address `start + k`, within [0, 2^32-1], its text converts back to that address, and its tag is `get_ip_type` of it; so the first entry is the start even when it is a network or broadcast address |
| Enumerator.WalkFromNetworkAddress | scan_network.py:125-153 | from 10.0.0.0 at /24 with five hosts the walk is 10.0.0.0 to 10.0.0.5; the first is the network address and the other five are hosts |
| Enumerator.WalkAcrossBlocks | scan_network.py:125-153 | from 192.168.1.254 at /24 with three hosts the walk is 192.168.1.254 to 192.168.2.2; their roles are host, broadcast, network, host, host |
| Validation.CheckStartAddress | scan_network.py:161-186 | accepted exactly for four parts each in [0,255]; the wrong-count message exactly for a part count other than four; otherwise the first bad part decides between not-a-number and out-of-range |
| Validation.CheckHostCount | scan_network.py:193-197 | a host count is accepted exactly when it is at least 1; otherwise the "at least 1" message |
| Validation.CheckCidr | scan_network.py:208-212 | a prefix length is accepted exactly when it lies in [8, 32]; otherwise the "between 8 and 32" message |
| Validation.AcceptedInputsStartTheWalk | scan_network.py:161-219 | accepted inputs give a non-empty list whose first entry is the start address, with no more hosts than asked for; a start without leading zeros is listed as typed |
| Probe.ScanHost | scan_network.py:57-76 | a network or broadcast entry keeps its tag as status with hostname "-"; a host is "UP" exactly when ping exited with 0, otherwise "DOWN"; its hostname is the resolved name, or "-" when the lookup failed |
| Probe.NonHostsAreNotProbed | scan_network.py:62-68 | the result for a network or broadcast entry does not depend on ping or DNS |
| Probe.ScanEach | scan_network.py:326-327 | one result per submitted entry, each the `scan_host` of that entry |
| Probe.PingHost | scan_network.py:33-43 | definition: up exactly when the ping process started and exited with 0; properties in `Probe.ScanHost` |
| Probe.GetHostname | scan_network.py:46-54 | definition: the resolved name, or "-" when the lookup raised; properties in `Probe.ScanHost` |
| Report.LexLeReflexive | scan_network.py:334 | the list comparison orders every key before itself |
| Report.LexLeTotal | scan_network.py:334 | any two keys are ordered one way or the other |
| Report.LexLeTransitive | scan_network.py:334 | the list comparison is transitive |
| Report.LexLe | scan_network.py:334 | definition of Python's `<=` on integer lists; properties in `Report.LexLeReflexive`, `Report.LexLeTotal`, `Report.LexLeTransitive` and `Report.OctetOrder` |
| Report.SortKey | scan_network.py:334 | definition of `[int(p) for p in ip.split(".")]`; properties in `Report.SortKeyOfIntToIp` and `Report.SortKeyOrdersByAddress` |
| Report.OctetOrder | scan_network.py:334 | comparing the octet lists of two addresses compares the addresses |
| Report.SortKeyOfIntToIp | scan_network.py:334 | the sort key of an address's text is its list of octets |
| Report.SortKeyOrdersByAddress | scan_network.py:334 | sorting by the key orders results by `ip_to_int` value |
| Report.ScanRangeBanner | scan_network.py:293-306 | the list is not empty; the first entry is the start; the last is `len − 1` addresses further on; the host count is the number asked for unless the walk reached 2^32-1 |
| Report.Insert | scan_network.py:334 | one insertion step extends the sorted prefix by one element: the first i + 1 elements are sorted and hold the same multiset as before, the rest of the array is unchanged, and the whole array is a permutation of what it was |
| Report.SortResults | scan_network.py:334 | after the sort the results are in key order and are a permutation of the results before it |
| Report.SortedReport | scan_network.py:325-334 | the report list is in key order and holds exactly the collected results |
| Report.SortedIsUnique | scan_network.py:334 | a sorted permutation of a list with strictly increasing keys is that list |
| Report.IncreasingAddressesIncreasingKeys | scan_network.py:334 | results for increasing addresses have strictly increasing keys |
| Report.ReportIsWalkOrder | scan_network.py:325-334 | whatever the completion order, the sorted results are the per-entry results in walk order |
| Report.CollectedResultsAreKeyed | scan_network.py:325-334 | every collected result, in any completion order, has an address whose parts all parse with `int()`, so the sort key never raises |
| Report.ScanReport | scan_network.py:292-334 | from the generated list through the pool to the sort: the entries are the tagged walk from the start, the report is the per-entry scan in walk order whatever the completion order, its total is the number of entries and UP + DOWN is the number of host entries |
| Report.CountStatus | scan_network.py:261-264 | a status count never exceeds the number of results |
| Report.StatusCountsAddUp | scan_network.py:261-265 | the four status counts add up to the number of results |
| Report.Summarize | scan_network.py:261-265 | UP + DOWN + NTWRK + BCAST equals the total, and the total is the number of results |
| Report.CountStatusRemove | scan_network.py:261-264 | removing one result removes its status from the counts |
| Report.CountStatusOfPermutation | scan_network.py:261-264 | the counts do not depend on the order results were collected in |
| Report.Responding | scan_network.py:71-74 | the number of responding hosts never exceeds the number of host entries |
| Report.ScanEachCounts | scan_network.py:261-264 | in the scanned list, NTWRK and BCAST count the network and broadcast entries, UP counts the hosts whose ping succeeded, and UP + DOWN counts the host entries |
| Report.SummaryOfScan | scan_network.py:259-265 | the same facts for the summary of the collected results, in any completion order |
| Report.DisplayHostname | scan_network.py:251-252 | the cell is at most 45 characters; a name that fits is shown whole; a longer one keeps its first 42 characters followed by "..." |

## Left out

- `ping_host` and `get_hostname` run a process and a DNS lookup. They are the oracles `run` and `resolve`. `run` gives the exit code of `ping`; no timeout is passed to the process, and `-W 1` makes a ping that gets no answer exit with a non-zero code, which is `Some(1)` here and gives "DOWN". `run` gives `None` only when starting the process raised, and `resolve` gives `None` only when the lookup raised.
- The thread pool, `as_completed` and the progress bar are left out. The collected list is any list with the same multiset of results as the per-entry scan.
- Rendering is not modelled: the banner, colours, table layout, summary panel text and console prompts. Only the hostname truncation rule is kept.
- The prompt loops that ask again after a rejection are not modelled. Each check returns its verdict once.
- `.strip()` on the console input is not modelled. The checks see the text after stripping.
- Validation.CheckStartAddress: Python's `int()` is modelled only on plain ASCII digit strings. A part such as "-5" is reported as not a number, where Python reports it out of range. Parts that Python accepts with a sign, surrounding whitespace, underscores or non-ASCII digits are rejected here. The model has no limit on the number of digits. Python 3.11 and later refuse to convert a digit string of more than 4300 digits, so a part "1" followed by 4300 zeros is not a number in Python and out of range here.
- Validation.CheckHostCount: takes the host count as an already parsed integer; the "not a number" message for that prompt is not modelled.
- Validation.CheckCidr: takes the prefix length as an already parsed integer; the "not a number" message for that prompt is not modelled.
- Classifier.GetIpType: requires a prefix of at most 32, which the input check guarantees. For longer prefixes Python computes `2 ** (32 - cidr)` as a float, and that case is not modelled.
- Report.SortResults: models `list.sort` by an insertion sort and states only its outcome, a key-ordered permutation. Stability is not stated. Results whose addresses have no numeric key (where `int()` would raise) are excluded by the precondition.
- The default `cidr = 24` of `generate_ip_list` (scan_network.py:125) has no counterpart. Every call in the model passes the prefix length, as `get_user_input` does.
- The `block_size` computed and never used in `generate_ip_list` has no counterpart.
