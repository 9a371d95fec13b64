/**
 * `WorkManager`: the dedup lists, the three lane queues, the found set, the
 * result sink and the worker pools, with the submission API that probes call.
 * Every `Add*` is atomic (the source holds `_mutex` across check and insert).
 */
module Manager {
  import opened Util
  import opened Text
  import opened Results
  import opened Work

  /** `WORKER_THREADS`: workers per lane in the normal configuration. */
  const WorkerThreads: nat := 15

  /** A worker: its lane, whether it owns a socket client, and the `Run`/`Terminate` requests it got. */
  datatype ScanThread = ScanThread(lane: Lane, hasClient: bool, running: bool, terminating: bool)

  /** Workers per lane: 15 each, or 1 ping, 1 main and 2 other when single-threaded. */
  function PoolSize(singleThreaded: bool, lane: Lane): nat {
    if !singleThreaded then WorkerThreads
    else if lane == OtherLane then 2
    else 1
  }

  /** Every worker of `ts` serves `lane`, and exactly the main-lane ones own a client. */
  predicate PoolOf(ts: seq<ScanThread>, lane: Lane) {
    forall i :: 0 <= i < |ts| ==> ts[i].lane == lane && ts[i].hasClient == (lane == MainLane)
  }

  function NewThread(lane: Lane): ScanThread {
    ScanThread(lane, lane == MainLane, false, false)
  }

  function FreshPool(lane: Lane, n: nat): (ts: seq<ScanThread>)
    ensures |ts| == n && PoolOf(ts, lane)
  {
    seq(n, _ => NewThread(lane))
  }

  lemma FreshPoolSnoc(lane: Lane, n: nat)
    ensures FreshPool(lane, n + 1) == FreshPool(lane, n) + [NewThread(lane)]
  {
  }

  lemma PoolOfAppend(ts: seq<ScanThread>, us: seq<ScanThread>, lane: Lane)
    requires PoolOf(ts, lane) && PoolOf(us, lane)
    ensures PoolOf(ts + us, lane)
  {
  }

  /** `ts` after `Run()` on each worker. */
  function Ran(ts: seq<ScanThread>): seq<ScanThread> {
    seq(|ts|, i requires 0 <= i < |ts| => ts[i].(running := true))
  }

  /** `ts` after `Terminate()` on each worker. */
  function Terminated(ts: seq<ScanThread>): seq<ScanThread> {
    seq(|ts|, i requires 0 <= i < |ts| => ts[i].(terminating := true))
  }

  /** `for (const auto& it : threads) it->Run();` */
  method RunAll(ts: seq<ScanThread>) returns (r: seq<ScanThread>)
    ensures |r| == |ts|
    ensures forall i :: 0 <= i < |ts| ==> r[i].running && r[i] == ts[i].(running := true)
    ensures r == Ran(ts)
  {
    r := ts;
    var i := 0;
    while i < |r|
      invariant 0 <= i <= |r| == |ts|
      invariant forall j :: 0 <= j < i ==> r[j] == ts[j].(running := true)
      invariant forall j :: i <= j < |r| ==> r[j] == ts[j]
    {
      r := r[i := r[i].(running := true)];
      i := i + 1;
    }
  }

  /** `for (const auto& it : threads) it->Terminate();` */
  method TerminateAll(ts: seq<ScanThread>) returns (r: seq<ScanThread>)
    ensures |r| == |ts|
    ensures forall i :: 0 <= i < |ts| ==> r[i].terminating && r[i] == ts[i].(terminating := true)
    ensures r == Terminated(ts)
  {
    r := ts;
    var i := 0;
    while i < |r|
      invariant 0 <= i <= |r| == |ts|
      invariant forall j :: 0 <= j < i ==> r[j] == ts[j].(terminating := true)
      invariant forall j :: i <= j < |r| ==> r[j] == ts[j]
    {
      r := r[i := r[i].(terminating := true)];
      i := i + 1;
    }
  }

  // ------------------------------------------------------------ HTTP dedup key

  /** `wxString::Format("%s:%s:%d", ip, proxy, port)`. */
  function HttpKey(ip: string, proxy: string, port: int): string {
    ip + ":" + proxy + ":" + FormatInt(port)
  }

  /**
   * Two HTTP endpoints share a dedup key only if they are the same endpoint,
   * provided both proxies are free of `:` (the address itself may hold colons).
   */
  lemma HttpKeyInjective(ip1: string, proxy1: string, port1: int, ip2: string, proxy2: string, port2: int)
    requires ':' !in proxy1 && ':' !in proxy2
    requires HttpKey(ip1, proxy1, port1) == HttpKey(ip2, proxy2, port2)
    ensures ip1 == ip2 && proxy1 == proxy2 && port1 == port2
  {
    var f1, f2 := FormatInt(port1), FormatInt(port2);
    FormatIntHasNo(port1, ':');
    FormatIntHasNo(port2, ':');
    assert HttpKey(ip1, proxy1, port1) == (ip1 + ":" + proxy1) + [':'] + f1;
    assert HttpKey(ip2, proxy2, port2) == (ip2 + ":" + proxy2) + [':'] + f2;
    LastSeparatorUnique(ip1 + ":" + proxy1, f1, ip2 + ":" + proxy2, f2, ':');
    assert ip1 + ":" + proxy1 == ip1 + [':'] + proxy1;
    assert ip2 + ":" + proxy2 == ip2 + [':'] + proxy2;
    LastSeparatorUnique(ip1, proxy1, ip2, proxy2, ':');
    FormatIntInjective(port1, port2);
  }

  /** With a colon in the proxy, two different endpoints do collide on one key. */
  lemma HttpKeyCollidesOnColonProxy()
    ensures HttpKey("a:b", "c", 80) == HttpKey("a", "b:c", 80)
  {
  }

  // ------------------------------------------------------------ dotted quads

  /** `wxString::Format("%d.%d.%d.%d", a, b, c, d)`. */
  function DottedQuad(a: int, b: int, c: int, d: int): string {
    FormatInt(a) + "." + FormatInt(b) + "." + FormatInt(c) + "." + FormatInt(d)
  }

  /** `"%d"` writes only a sign and digits. */
  lemma FormatIntHasNo(n: int, c: char)
    requires !IsDigit(c) && c != '-'
    ensures c !in FormatInt(n)
  {
  }

  /** A formatted quad splits back into its four formatted numbers. */
  lemma DottedQuadSplit(a: int, b: int, c: int, d: int)
    ensures Split(DottedQuad(a, b, c, d), '.') == [FormatInt(a), FormatInt(b), FormatInt(c), FormatInt(d)]
  {
    var parts := [FormatInt(a), FormatInt(b), FormatInt(c), FormatInt(d)];
    FormatIntHasNo(a, '.');
    FormatIntHasNo(b, '.');
    FormatIntHasNo(c, '.');
    FormatIntHasNo(d, '.');
    assert parts[1..][1..][1..] == [FormatInt(d)];
    assert JoinWith(parts[1..][1..][1..], '.') == FormatInt(d);
    assert JoinWith(parts[1..][1..], '.') == FormatInt(c) + "." + FormatInt(d);
    assert JoinWith(parts[1..], '.') == FormatInt(b) + "." + FormatInt(c) + "." + FormatInt(d);
    assert JoinWith(parts, '.') == DottedQuad(a, b, c, d);
    SplitJoin(parts, '.');
    assert DottedQuad(a, b, c, d) != "";
  }

  /** ...so `wxAtoi` of its components gives the numbers back. */
  lemma DottedQuadParse(a: int, b: int, c: int, d: int)
    ensures var parts := Split(DottedQuad(a, b, c, d), '.');
      |parts| == 4 && Atoi(parts[0]) == a && Atoi(parts[1]) == b && Atoi(parts[2]) == c && Atoi(parts[3]) == d
  {
    DottedQuadSplit(a, b, c, d);
    var parts := Split(DottedQuad(a, b, c, d), '.');
    assert parts[0] == FormatInt(a) && parts[1] == FormatInt(b);
    assert parts[2] == FormatInt(c) && parts[3] == FormatInt(d);
    AtoiFormatInt(a);
    AtoiFormatInt(b);
    AtoiFormatInt(c);
    AtoiFormatInt(d);
  }

  lemma DottedQuadInjective(a: int, b: int, c: int, d: int, a': int, b': int, c': int, d': int)
    requires DottedQuad(a, b, c, d) == DottedQuad(a', b', c', d')
    ensures a == a' && b == b' && c == c' && d == d'
  {
    DottedQuadParse(a, b, c, d);
    DottedQuadParse(a', b', c', d');
  }

  /** The 254 host addresses `a.b.c.1` ... `a.b.c.254`, ascending. */
  function SubnetHosts(a: int, b: int, c: int): (hs: seq<string>)
    ensures |hs| == 254
  {
    seq(254, k => DottedQuad(a, b, c, k + 1))
  }

  /** The sweep names 254 distinct hosts, the k-th being `a.b.c.(k+1)`. */
  lemma SubnetHostsSpec(a: int, b: int, c: int)
    ensures NoDup(SubnetHosts(a, b, c))
    ensures forall k :: 0 <= k < 254 ==>
      var parts := Split(SubnetHosts(a, b, c)[k], '.');
      |parts| == 4 && Atoi(parts[0]) == a && Atoi(parts[1]) == b && Atoi(parts[2]) == c
      && Atoi(parts[3]) == k + 1
  {
    var hs := SubnetHosts(a, b, c);
    forall i, j | 0 <= i < j < 254 ensures hs[i] != hs[j] {
      if hs[i] == hs[j] {
        DottedQuadInjective(a, b, c, i + 1, a, b, c, j + 1);
      }
    }
    forall k | 0 <= k < 254
      ensures var parts := Split(hs[k], '.');
        |parts| == 4 && Atoi(parts[0]) == a && Atoi(parts[1]) == b && Atoi(parts[2]) == c
        && Atoi(parts[3]) == k + 1
    {
      DottedQuadParse(a, b, c, k + 1);
    }
  }

  lemma SubnetHostsPrefix(a: int, b: int, c: int, i: nat)
    requires 1 <= i <= 254
    ensures SubnetHosts(a, b, c)[..i] == SubnetHosts(a, b, c)[..i - 1] + [DottedQuad(a, b, c, i)]
  {
    var hs := SubnetHosts(a, b, c);
    assert hs[i - 1] == DottedQuad(a, b, c, i);
    assert hs[..i] == hs[..i - 1] + [hs[i - 1]];
  }

  // ------------------------------------------------------------ submission as values

  /** `AddIP` on the pair (`_scannedIP`, `_queuePing`). */
  function AddIPStep(scanned: seq<string>, queue: seq<Work>, ip: string, why: string, proxy: string): (seq<string>, seq<Work>) {
    if ip in scanned then (scanned, queue) else (scanned + [ip], queue + [PingWork(ip, why, proxy)])
  }

  /** `AddIP` called for each of `ips` in turn, with one `why` and `proxy`. */
  function AddIPs(scanned: seq<string>, queue: seq<Work>, ips: seq<string>, why: string, proxy: string): (seq<string>, seq<Work>) {
    if ips == [] then (scanned, queue)
    else
      var (s, q) := AddIPs(scanned, queue, ips[..|ips| - 1], why, proxy);
      AddIPStep(s, q, ips[|ips| - 1], why, proxy)
  }

  lemma AddIPsSnoc(scanned: seq<string>, queue: seq<Work>, ips: seq<string>, ip: string, why: string, proxy: string)
    ensures var (s, q) := AddIPs(scanned, queue, ips, why, proxy);
      AddIPs(scanned, queue, ips + [ip], why, proxy) == AddIPStep(s, q, ip, why, proxy)
  {
    assert (ips + [ip])[..|ips|] == ips;
  }

  /** `AddIP` over two series in a row is `AddIP` over their concatenation. */
  lemma {:induction false} AddIPsAppend(scanned: seq<string>, queue: seq<Work>, a: seq<string>, b: seq<string>, why: string, proxy: string)
    ensures AddIPs(scanned, queue, a + b, why, proxy)
      == AddIPs(AddIPs(scanned, queue, a, why, proxy).0, AddIPs(scanned, queue, a, why, proxy).1, b, why, proxy)
  {
    if b == [] {
      assert a + b == a;
    } else {
      var init, x := b[..|b| - 1], b[|b| - 1];
      AddIPsAppend(scanned, queue, a, init, why, proxy);
      assert a + b == (a + init) + [x];
      AddIPsSnoc(scanned, queue, a + init, x, why, proxy);
      var r := AddIPs(scanned, queue, a, why, proxy);
      AddIPsSnoc(r.0, r.1, init, x, why, proxy);
      assert b == init + [x];
    }
  }

  function PingWorks(ips: seq<string>, why: string, proxy: string): (ws: seq<Work>)
    ensures |ws| == |ips|
  {
    seq(|ips|, i requires 0 <= i < |ips| => PingWork(ips[i], why, proxy))
  }

  /** A repeated `AddIP` changes nothing, whatever its `why` and `proxy`. */
  lemma AddIPIdempotent(scanned: seq<string>, queue: seq<Work>, ip: string, why: string, proxy: string, why': string, proxy': string)
    ensures var (s, q) := AddIPStep(scanned, queue, ip, why, proxy);
      AddIPStep(s, q, ip, why', proxy') == (s, q)
  {
  }

  /** Every address handed to `AddIP` ends up scanned, and nothing scanned is forgotten. */
  lemma {:induction false} AddIPsCovers(scanned: seq<string>, queue: seq<Work>, ips: seq<string>, why: string, proxy: string)
    ensures var (s, q) := AddIPs(scanned, queue, ips, why, proxy);
      scanned <= s && queue <= q && |s| - |scanned| == |q| - |queue|
      && forall ip :: ip in ips ==> ip in s
  {
    if ips != [] {
      var init := ips[..|ips| - 1];
      AddIPsCovers(scanned, queue, init, why, proxy);
      assert ips == init + [ips[|ips| - 1]];
    }
  }

  /**
   * Distinct, not-yet-scanned addresses are all queued, in order, each with
   * one reachability probe.
   */
  lemma {:induction false} AddIPsFresh(scanned: seq<string>, queue: seq<Work>, ips: seq<string>, why: string, proxy: string)
    requires NoDup(ips)
    requires forall i :: 0 <= i < |ips| ==> ips[i] !in scanned
    ensures AddIPs(scanned, queue, ips, why, proxy) == (scanned + ips, queue + PingWorks(ips, why, proxy))
  {
    if ips != [] {
      var n := |ips| - 1;
      var init := ips[..n];
      assert NoDup(init);
      AddIPsFresh(scanned, queue, init, why, proxy);
      assert ips[n] !in init;
      assert ips[n] !in scanned + init;
      assert scanned + init + [ips[n]] == scanned + ips;
      assert PingWorks(init, why, proxy) + [PingWork(ips[n], why, proxy)] == PingWorks(ips, why, proxy);
      assert ips[..|ips| - 1] == init;
      assert queue + PingWorks(init, why, proxy) + [PingWork(ips[n], why, proxy)] == queue + PingWorks(ips, why, proxy);
      assert AddIPs(scanned, queue, ips, why, proxy)
        == AddIPStep(scanned + init, queue + PingWorks(init, why, proxy), ips[n], why, proxy);
    } else {
      assert scanned + ips == scanned && queue + PingWorks(ips, why, proxy) == queue;
    }
  }

  /**
   * A /24 sweep over a manager that has seen none of its hosts queues exactly
   * the 254 probes for `a.b.c.1` ... `a.b.c.254`, in increasing order.
   */
  lemma SubnetSweepFresh(a: int, b: int, c: int, scanned: seq<string>, queue: seq<Work>, proxy: string)
    requires forall k :: 1 <= k <= 254 ==> DottedQuad(a, b, c, k) !in scanned
    ensures var hs := SubnetHosts(a, b, c);
      AddIPs(scanned, queue, hs, "", proxy) == (scanned + hs, queue + PingWorks(hs, "", proxy))
  {
    var hs := SubnetHosts(a, b, c);
    SubnetHostsSpec(a, b, c);
    forall i | 0 <= i < |hs| ensures hs[i] !in scanned {
      assert hs[i] == DottedQuad(a, b, c, i + 1);
    }
    AddIPsFresh(scanned, queue, hs, "", proxy);
  }

  /** `AddHTTP` on the pair (`_scannedHTTP`, `_queueMain`). */
  function AddHTTPStep(scanned: seq<string>, queue: seq<Work>, ip: string, port: int, proxy: string): (seq<string>, seq<Work>) {
    var h := HttpKey(ip, proxy, port);
    if h in scanned then (scanned, queue) else (scanned + [h], queue + [HTTPWork(ip, port, proxy)])
  }

  /** The same endpoint twice enqueues one HTTP probe. */
  lemma AddHTTPTwice(scanned: seq<string>, queue: seq<Work>, ip: string, port: int, proxy: string)
    requires HttpKey(ip, proxy, port) !in scanned
    ensures var (s, q) := AddHTTPStep(scanned, queue, ip, port, proxy);
      AddHTTPStep(s, q, ip, port, proxy) == (s, q) && q == queue + [HTTPWork(ip, port, proxy)]
  {
  }

  /** Two proxies without `:` make two endpoints, and both are probed. */
  lemma AddHTTPDistinctProxies(scanned: seq<string>, queue: seq<Work>, ip: string, port: int, proxyA: string, proxyB: string)
    requires proxyA != proxyB && ':' !in proxyA && ':' !in proxyB
    requires HttpKey(ip, proxyA, port) !in scanned && HttpKey(ip, proxyB, port) !in scanned
    ensures var (s, q) := AddHTTPStep(scanned, queue, ip, port, proxyA);
      AddHTTPStep(s, q, ip, port, proxyB).1 == queue + [HTTPWork(ip, port, proxyA), HTTPWork(ip, port, proxyB)]
  {
    if HttpKey(ip, proxyA, port) == HttpKey(ip, proxyB, port) {
      HttpKeyInjective(ip, proxyA, port, ip, proxyB, port);
    }
  }

  // ------------------------------------------------------------ the manager

  class WorkManager {
    var scannedIP: seq<string>
    var scannedHTTP: seq<string>
    var queuePing: seq<Work>
    var queueMain: seq<Work>
    var queueOther: seq<Work>
    var found: set<string>
    /** What the consumer has been given, one de-duplicated record per publish. */
    var published: seq<seq<Field>>
    var singleThreaded: bool
    var started: bool
    var threadsPing: seq<ScanThread>
    var threadsMain: seq<ScanThread>
    var threadsOther: seq<ScanThread>

    /**
     * The bookkeeping invariant: no address and no HTTP endpoint is recorded
     * twice, every queue holds only its own lane's work, every pool only its
     * own lane's workers, and a started manager has workers.
     */
    ghost predicate Valid()
      reads this
    {
      && NoDup(scannedIP) && NoDup(scannedHTTP)
      && InLane(queuePing, PingLane) && InLane(queueMain, MainLane) && InLane(queueOther, OtherLane)
      && PoolOf(threadsPing, PingLane) && PoolOf(threadsMain, MainLane) && PoolOf(threadsOther, OtherLane)
      && (started ==> threadsPing != [])
    }

    function QueueOf(lane: Lane): seq<Work>
      reads this
    {
      match lane
      case PingLane => queuePing
      case MainLane => queueMain
      case OtherLane => queueOther
    }

    constructor (singleThreaded: bool)
      ensures Valid() && this.singleThreaded == singleThreaded && !started
      ensures scannedIP == [] && scannedHTTP == [] && found == {} && published == []
      ensures queuePing == [] && queueMain == [] && queueOther == []
      ensures threadsPing == [] && threadsMain == [] && threadsOther == []
    {
      this.singleThreaded := singleThreaded;
      scannedIP, scannedHTTP := [], [];
      queuePing, queueMain, queueOther := [], [], [];
      found, published := {}, [];
      started := false;
      threadsPing, threadsMain, threadsOther := [], [], [];
    }

    /** A first-seen address is recorded and gets one ping probe; a known one changes nothing. */
    method AddIP(ip: string, why: string, proxy: string)
      requires Valid()
      modifies this`scannedIP, this`queuePing
      ensures Valid()
      ensures (scannedIP, queuePing) == AddIPStep(old(scannedIP), old(queuePing), ip, why, proxy)
    {
      if ip !in scannedIP {
        NoDupSnoc(scannedIP, ip);
        scannedIP := scannedIP + [ip];
        queuePing := queuePing + [PingWork(ip, why, proxy)];
      }
    }

    /** Dedup on `ip:proxy:port`; a first-seen endpoint gets one HTTP probe on the main queue. */
    method AddHTTP(ip: string, port: int, proxy: string)
      requires Valid()
      modifies this`scannedHTTP, this`queueMain
      ensures Valid()
      ensures (scannedHTTP, queueMain) == AddHTTPStep(old(scannedHTTP), old(queueMain), ip, port, proxy)
    {
      var h := HttpKey(ip, proxy, port);
      if h !in scannedHTTP {
        NoDupSnoc(scannedHTTP, h);
        scannedHTTP := scannedHTTP + [h];
        queueMain := queueMain + [HTTPWork(ip, port, proxy)];
      }
    }

    /**
     * With more than three dot-separated components, `AddIP` for `a.b.c.1` ...
     * `a.b.c.254` in turn (the fourth component is read and ignored); otherwise nothing.
     */
    method AddClassDSubnet(ip: string, proxy: string)
      requires Valid()
      modifies this`scannedIP, this`queuePing
      ensures Valid()
      ensures var parts := Split(ip, '.');
        if |parts| > 3 then
          (scannedIP, queuePing)
            == AddIPs(old(scannedIP), old(queuePing), SubnetHosts(Atoi(parts[0]), Atoi(parts[1]), Atoi(parts[2])), "", proxy)
        else scannedIP == old(scannedIP) && queuePing == old(queuePing)
    {
      var parts := Split(ip, '.');
      if |parts| > 3 {
        var ip1, ip2, ip3 := Atoi(parts[0]), Atoi(parts[1]), Atoi(parts[2]);
        AddHosts(ip1, ip2, ip3, proxy);
      }
    }

    /** The loop of `AddClassDSubnet`: `AddIP("a.b.c.i", "", proxy)` for i = 1 .. 254. */
    method AddHosts(a: int, b: int, c: int, proxy: string)
      requires Valid()
      modifies this`scannedIP, this`queuePing
      ensures Valid()
      ensures (scannedIP, queuePing) == AddIPs(old(scannedIP), old(queuePing), SubnetHosts(a, b, c), "", proxy)
    {
      ghost var hosts := SubnetHosts(a, b, c);
      // the source's counter is a uint8_t; it stops at 255 and never wraps
      var i := 1;
      while i < 255
        invariant 1 <= i <= 255
        invariant Valid()
        invariant (scannedIP, queuePing) == AddIPs(old(scannedIP), old(queuePing), hosts[..i - 1], "", proxy)
      {
        var ipa := DottedQuad(a, b, c, i);
        SubnetHostsPrefix(a, b, c, i);
        AddIPsSnoc(old(scannedIP), old(queuePing), hosts[..i - 1], ipa, "", proxy);
        AddIP(ipa, "", proxy);
        i := i + 1;
      }
      assert hosts[..254] == hosts;
    }

    /** No dedup: the item goes to the back of its own lane's queue. */
    method AddWork(w: Work)
      requires Valid()
      modifies this`queuePing, this`queueMain, this`queueOther
      ensures Valid()
      ensures queuePing == old(queuePing) + (if LaneOf(w) == PingLane then [w] else [])
      ensures queueMain == old(queueMain) + (if LaneOf(w) == MainLane then [w] else [])
      ensures queueOther == old(queueOther) + (if LaneOf(w) == OtherLane then [w] else [])
    {
      match LaneOf(w)
      case PingLane => queuePing := queuePing + [w];
      case MainLane => queueMain := queueMain + [w];
      case OtherLane => queueOther := queueOther + [w];
    }

    /** Pops the oldest item of `lane`, or nothing when that lane is idle. */
    method GetWork(lane: Lane) returns (w: Option<Work>)
      requires Valid()
      modifies this`queuePing, this`queueMain, this`queueOther
      ensures Valid()
      ensures old(QueueOf(lane)) == [] ==> w == None && QueueOf(lane) == []
      ensures old(QueueOf(lane)) != [] ==>
        w == Some(old(QueueOf(lane))[0]) && QueueOf(lane) == old(QueueOf(lane))[1..]
      ensures w.Some? ==> LaneOf(w.value) == lane
      ensures forall l :: l != lane ==> QueueOf(l) == old(QueueOf(l))
    {
      var q := QueueOf(lane);
      if q == [] {
        w := None;
      } else {
        w := Some(q[0]);
        match lane
        case PingLane => queuePing := q[1..];
        case MainLane => queueMain := q[1..];
        case OtherLane => queueOther := q[1..];
      }
    }

    method AddFoundIP(ip: string)
      requires Valid()
      modifies this`found
      ensures Valid()
      ensures found == old(found) + {ip}
    {
      found := found + {ip};
    }

    /** `WorkManager::PublishResult`: hands one record to the consumer. */
    method Publish(out: seq<Field>)
      requires Valid()
      modifies this`published
      ensures Valid()
      ensures published == old(published) + [out]
    {
      published := published + [out];
    }

    /**
     * Creates the pools on the first call (appending to the vectors), and
     * runs every worker when not yet started. A second call on a started
     * manager changes nothing.
     */
    method Start()
      requires Valid()
      modifies this`threadsPing, this`threadsMain, this`threadsOther, this`started
      ensures Valid() && started
      ensures var created := old(threadsPing) == [];
        var ping := if created then FreshPool(PingLane, PoolSize(singleThreaded, PingLane)) else old(threadsPing);
        var main := if created then old(threadsMain) + FreshPool(MainLane, PoolSize(singleThreaded, MainLane)) else old(threadsMain);
        var other := if created then old(threadsOther) + FreshPool(OtherLane, PoolSize(singleThreaded, OtherLane)) else old(threadsOther);
        if old(started) then threadsPing == ping && threadsMain == main && threadsOther == other
        else threadsPing == Ran(ping) && threadsMain == Ran(main) && threadsOther == Ran(other)
      ensures old(started) ==> threadsPing == old(threadsPing) && threadsMain == old(threadsMain) && threadsOther == old(threadsOther)
    {
      if threadsPing == [] {
        CreatePools();
      }
      if !started {
        started := true;
        threadsMain := RunAll(threadsMain);
        threadsPing := RunAll(threadsPing);
        threadsOther := RunAll(threadsOther);
      }
    }

    /** The first `Start`: one pool per lane, sized by `PoolSize`, appended to the (empty) vectors. */
    method CreatePools()
      requires Valid() && threadsPing == []
      modifies this`threadsPing, this`threadsMain, this`threadsOther
      ensures Valid()
      ensures threadsPing == FreshPool(PingLane, PoolSize(singleThreaded, PingLane))
      ensures threadsMain == old(threadsMain) + FreshPool(MainLane, PoolSize(singleThreaded, MainLane))
      ensures threadsOther == old(threadsOther) + FreshPool(OtherLane, PoolSize(singleThreaded, OtherLane))
    {
      ghost var main0, other0 := threadsMain, threadsOther;
      if singleThreaded {
        threadsPing := threadsPing + [NewThread(PingLane)];
        threadsOther := threadsOther + [NewThread(OtherLane)];
        threadsOther := threadsOther + [NewThread(OtherLane)];
        threadsMain := threadsMain + [NewThread(MainLane)];
        assert threadsPing == FreshPool(PingLane, 1);
        assert threadsOther == other0 + FreshPool(OtherLane, 2);
        assert threadsMain == main0 + FreshPool(MainLane, 1);
      } else {
        var i := 0;
        while i < WorkerThreads
          invariant 0 <= i <= WorkerThreads
          invariant threadsPing == FreshPool(PingLane, i)
          invariant threadsOther == other0 + FreshPool(OtherLane, i)
          invariant threadsMain == main0 + FreshPool(MainLane, i)
        {
          FreshPoolSnoc(PingLane, i);
          FreshPoolSnoc(OtherLane, i);
          FreshPoolSnoc(MainLane, i);
          threadsPing := threadsPing + [NewThread(PingLane)];
          threadsOther := threadsOther + [NewThread(OtherLane)];
          threadsMain := threadsMain + [NewThread(MainLane)];
          i := i + 1;
        }
      }
      PoolOfAppend(other0, FreshPool(OtherLane, PoolSize(singleThreaded, OtherLane)), OtherLane);
      PoolOfAppend(main0, FreshPool(MainLane, PoolSize(singleThreaded, MainLane)), MainLane);
    }

    /** Asks every worker to stop after its current item; safe to repeat. */
    method Stop()
      requires Valid()
      modifies this`threadsPing, this`threadsMain, this`threadsOther, this`started
      ensures Valid() && !started
      ensures threadsPing == Terminated(old(threadsPing))
      ensures threadsMain == Terminated(old(threadsMain))
      ensures threadsOther == Terminated(old(threadsOther))
    {
      threadsMain := TerminateAll(threadsMain);
      threadsPing := TerminateAll(threadsPing);
      threadsOther := TerminateAll(threadsOther);
      started := false;
    }
  }

  /** Stopping twice is stopping once. */
  lemma StopIdempotent(ts: seq<ScanThread>)
    ensures Terminated(Terminated(ts)) == Terminated(ts)
  {
  }
}
