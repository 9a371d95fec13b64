/**
 * `PingWork::DoWork`: classify the target as a private or public network,
 * describe it, and fan out to the found set and an HTTP probe on port 80.
 * The reachability check itself (`IPOutput::Ping`) is an input.
 */
module PingProbe {
  import opened Util
  import opened Text
  import opened Results
  import opened Work
  import opened Manager
  import opened ScanWork

  /**
   * The outcome of `IPOutput::Ping`. `PingFailed` stands for every state other
   * than `PING_OK` and `PING_WEBOK`; the probe treats them all alike.
   */
  datatype PingState = PingOk | PingWebOk | PingFailed

  predicate Reachable(state: PingState) {
    state == PingOk || state == PingWebOk
  }

  /** The if-chain over the four octets, as written: only the first three branches leave the flag set. */
  function IsPrivate(ip1: int, ip2: int, ip3: int, ip4: int): bool {
    if ip1 == 10 then !(ip2 == 255 && ip3 == 255 && ip4 == 255)
    else if ip1 == 192 && ip2 == 168 then !(ip3 == 255 && ip4 == 255)
    else if ip1 == 172 && ip2 >= 16 && ip2 <= 31 then true
    else if ip1 == 255 && ip2 == 255 && ip3 == 255 && ip4 == 255 then false
    else if ip1 == 0 then false
    else if ip1 >= 224 && ip1 <= 239 then false
    else false
  }

  /** The three private blocks of section 3 of RFC 1918: 10/8, 172.16/12 and 192.168/16. */
  predicate InRfc1918(ip1: int, ip2: int) {
    ip1 == 10 || (ip1 == 172 && 16 <= ip2 <= 31) || (ip1 == 192 && ip2 == 168)
  }

  /**
   * Private exactly means inside an RFC 1918 block, except the two broadcast
   * forms 10.255.255.255 and 192.168.255.255.
   */
  lemma PrivateIsRfc1918(ip1: int, ip2: int, ip3: int, ip4: int)
    ensures IsPrivate(ip1, ip2, ip3, ip4) <==>
      && InRfc1918(ip1, ip2)
      && !(ip1 == 10 && ip2 == 255 && ip3 == 255 && ip4 == 255)
      && !(ip1 == 192 && ip2 == 168 && ip3 == 255 && ip4 == 255)
  {
  }

  /** Invalid (0.x), multicast (224-239.x) and the limited broadcast address are public. */
  lemma ReservedArePublic(ip1: int, ip2: int, ip3: int, ip4: int)
    requires ip1 == 0 || 224 <= ip1 <= 239 || (ip1 == 255 && ip2 == 255 && ip3 == 255 && ip4 == 255)
    ensures !IsPrivate(ip1, ip2, ip3, ip4)
  {
  }

  /** The entries of the record for `ip` once its octets are read. */
  function PingFields(ip: string, why: string, ip1: int, ip2: int, ip3: int, ip4: int, state: PingState): seq<Field> {
    [Field("IP", ip), Field("Type", "Ping")]
    + (if why != "" then [Field("Why", why)] else [])
    + [ Field("Network", DottedQuad(ip1, ip2, ip3, 0)),
        Field("Network Type", if IsPrivate(ip1, ip2, ip3, ip4) then "Private" else "Public"),
        Field("PING", if Reachable(state) then "OK" else "FAILED") ]
  }

  /** The first four dot-separated components of `ip` read as integers; none when there are fewer. */
  function Octets(ip: string): Option<(int, int, int, int)> {
    var parts := Split(ip, '.');
    if |parts| <= 3 then None
    else Some((Atoi(parts[0]), Atoi(parts[1]), Atoi(parts[2]), Atoi(parts[3])))
  }

  /** The record the probe publishes for `ip`; none when `ip` has fewer than four components. */
  function PingRecord(ip: string, why: string, state: PingState): Option<seq<Field>> {
    match Octets(ip)
    case None => None
    case Some((ip1, ip2, ip3, ip4)) => Some(PingFields(ip, why, ip1, ip2, ip3, ip4, state))
  }

  /**
   * The entries are IP, Type, Why (only for a non-empty reason), Network,
   * Network Type and PING, in that order; the keys are distinct, so
   * publishing leaves the record as it is.
   */
  lemma PingFieldsShape(ip: string, why: string, ip1: int, ip2: int, ip3: int, ip4: int, state: PingState)
    ensures var r := PingFields(ip, why, ip1, ip2, ip3, ip4, state);
      && Keys(r) == ["IP", "Type"] + (if why != "" then ["Why"] else []) + ["Network", "Network Type", "PING"]
      && r[0].value == ip
      && r[|r| - 1].value == (if Reachable(state) then "OK" else "FAILED")
      && KeepLast(r) == r
  {
    var r := PingFields(ip, why, ip1, ip2, ip3, ip4, state);
    var ks := Keys(r);
    assert ks == ["IP", "Type"] + (if why != "" then ["Why"] else []) + ["Network", "Network Type", "PING"];
    assert NoDup(ks);
    KeepLastOfDistinct(r);
  }

  lemma PingFieldsPublished(ip: string, why: string, ip1: int, ip2: int, ip3: int, ip4: int, state: PingState)
    ensures var r := PingFields(ip, why, ip1, ip2, ip3, ip4, state); r != [] && KeepLast(r) == r
  {
    PingFieldsShape(ip, why, ip1, ip2, ip3, ip4, state);
  }

  /** A record is produced exactly for inputs with more than three components. */
  lemma PingRecordDefined(ip: string, why: string, state: PingState)
    ensures PingRecord(ip, why, state).Some? <==> |Split(ip, '.')| > 3
  {
  }

  /** For a formatted quad the record names its /24 network and classifies it by its octets. */
  lemma PingRecordOfQuad(a: int, b: int, c: int, d: int, why: string, state: PingState)
    ensures var ip := DottedQuad(a, b, c, d);
      PingRecord(ip, why, state) == Some([Field("IP", ip), Field("Type", "Ping")]
        + (if why != "" then [Field("Why", why)] else [])
        + [ Field("Network", DottedQuad(a, b, c, 0)),
            Field("Network Type", if IsPrivate(a, b, c, d) then "Private" else "Public"),
            Field("PING", if Reachable(state) then "OK" else "FAILED") ])
  {
    DottedQuadParse(a, b, c, d);
  }

  /** The usual examples: 10.1.2.3 and 192.168.1.1 are private; a broadcast, a multicast and a routable address are public. */
  lemma ClassificationExamples()
    ensures IsPrivate(10, 1, 2, 3) && IsPrivate(192, 168, 1, 1)
    ensures !IsPrivate(10, 255, 255, 255) && !IsPrivate(224, 0, 0, 1) && !IsPrivate(8, 8, 8, 8)
  {
  }

  /**
   * The probe: for a dotted quad, publish the record; a reachable host is
   * added to the found set; both outcomes queue `AddHTTP(ip, HttpPort, proxy)`.
   * Anything else is ignored.
   */
  method DoPingWork(wm: WorkManager, ip: string, why: string, proxy: string, state: PingState)
    requires wm.Valid()
    modifies wm`published, wm`found, wm`scannedHTTP, wm`queueMain
    ensures wm.Valid()
    ensures PingRecord(ip, why, state).None? ==>
      && wm.published == old(wm.published) && wm.found == old(wm.found)
      && wm.scannedHTTP == old(wm.scannedHTTP) && wm.queueMain == old(wm.queueMain)
    ensures PingRecord(ip, why, state).Some? ==>
      && wm.published == old(wm.published) + [PingRecord(ip, why, state).value]
      && wm.found == (if Reachable(state) then old(wm.found) + {ip} else old(wm.found))
      && (wm.scannedHTTP, wm.queueMain) == AddHTTPStep(old(wm.scannedHTTP), old(wm.queueMain), ip, HttpPort, proxy)
  {
    var octets := Octets(ip);
    if octets.Some? {
      var (ip1, ip2, ip3, ip4) := octets.value;
      var results := PingFields(ip, why, ip1, ip2, ip3, ip4, state);
      PingFieldsPublished(ip, why, ip1, ip2, ip3, ip4, state);
      if Reachable(state) {
        wm.AddFoundIP(ip);
        wm.AddHTTP(ip, HttpPort, proxy);
        PublishResult(wm, results);
      } else {
        PublishResult(wm, results);
        // still tried: the host may sit behind an HTTP proxy
        wm.AddHTTP(ip, HttpPort, proxy);
      }
    }
  }
}
