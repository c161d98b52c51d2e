/**
 * The per-entry scan (`scan_host` in scan_network.py).  Network and broadcast
 * entries are answered at once with their own tag and no hostname; host
 * entries are looked up by reverse DNS and pinged.
 *
 * The two external services are parameters: `run` gives the exit code of
 * `ping -c 1 -W 1 <ip>` (None when starting the process raised), `resolve`
 * the name reverse DNS returns (None when the lookup raised).
 */
module Probe {
  import opened Classifier
  import opened Enumerator

  datatype Option<T> = None | Some(value: T)

  /** The four statuses of the report: "UP", "DOWN", "NTWRK", "BCAST". */
  datatype Status = Up | Down | Ntwrk | Bcast

  /** One result: `{"ip": ..., "status": ..., "hostname": ...}`. */
  datatype ScanResult = ScanResult(ip: string, status: Status, hostname: string)

  const NoHostname: string := "-"

  /** `ping_host`: up exactly when ping ran and exited with 0. */
  function PingHost(ip: string, run: string -> Option<int>): bool {
    run(ip) == Some(0)
  }

  /** `get_hostname`: the resolved name, or "-" when the lookup failed. */
  function GetHostname(ip: string, resolve: string -> Option<string>): string {
    match resolve(ip)
    case Some(name) => name
    case None => NoHostname
  }

  /** `scan_host`. */
  function ScanHost(entry: Entry, run: string -> Option<int>, resolve: string -> Option<string>): (r: ScanResult)
    ensures r.ip == entry.ip
    ensures entry.ipType == Network ==> r.status == Ntwrk && r.hostname == NoHostname
    ensures entry.ipType == Broadcast ==> r.status == Bcast && r.hostname == NoHostname
    ensures entry.ipType == Host ==>
      && (r.status == Up || r.status == Down)
      && (r.status == Up <==> run(entry.ip) == Some(0))
      && (r.hostname == NoHostname <==> resolve(entry.ip) == None || resolve(entry.ip) == Some(NoHostname))
      && (resolve(entry.ip).Some? ==> r.hostname == resolve(entry.ip).value)
  {
    match entry.ipType
    case Network => ScanResult(entry.ip, Ntwrk, NoHostname)
    case Broadcast => ScanResult(entry.ip, Bcast, NoHostname)
    case Host =>
      var hostname := GetHostname(entry.ip, resolve);
      var isUp := PingHost(entry.ip, run);
      ScanResult(entry.ip, if isUp then Up else Down, hostname)
  }

  /**
   * Network and broadcast entries are never probed: their result is the same
   * whatever ping and reverse DNS would answer.
   */
  lemma NonHostsAreNotProbed(entry: Entry, run1: string -> Option<int>, resolve1: string -> Option<string>,
                             run2: string -> Option<int>, resolve2: string -> Option<string>)
    requires entry.ipType != Host
    ensures ScanHost(entry, run1, resolve1) == ScanHost(entry, run2, resolve2)
  {
  }

  /** Every entry of the list submitted to the pool, scanned: one result per entry, in the same order. */
  function ScanEach(entries: seq<Entry>, run: string -> Option<int>, resolve: string -> Option<string>): (rs: seq<ScanResult>)
    ensures |rs| == |entries|
    ensures forall k | 0 <= k < |entries| :: rs[k] == ScanHost(entries[k], run, resolve)
  {
    if entries == [] then [] else [ScanHost(entries[0], run, resolve)] + ScanEach(entries[1..], run, resolve)
  }
}
