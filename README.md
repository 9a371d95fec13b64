# xScanner work engine, modelled in Dafny

xScanner is the xLights network scanner. It discovers lighting controllers,
players and schedulers on a LAN. Its engine in `xScanner/ScanWork.cpp` is a
self-expanding graph of small probes. A `WorkManager` keeps one FIFO queue
per lane (ping, main, other), plus:

- dedup lists of scanned addresses and HTTP endpoints;
- a set of hosts found reachable;
- a sink for result records.

Each probe (`PingWork`, `HTTPWork`, `FalconWork`, `xScheduleWork`,
`MACWork`, `ComputerWork`) publishes a record of `(key, value)` pairs and may
submit follow-up work. Of the probes modelled, `PingWork`, `HTTPWork` and
`ComputerWork` submit follow-ups; `xScheduleWork` and `MACWork` only publish.
`FalconWork` submits work only in its V4 session, which is left out.
`ScanWork::PublishResult` de-duplicates each record first.

The model keeps the bookkeeping and the decisions. Every network answer is
an input of the operation that uses it, and so are the socket connect and the
XML/JSON parse results. The modules are:

| module | file | what it models |
|---|---|---|
| `Util` | `util.dfy` | `Option` and duplicate-freedom |
| `Text` | `text.dfy` | `"%d"` formatting, `wxAtoi` (C `atoi`), `wxSplit` on one character, substring search |
| `Results` | `results.dfy` | the record type and the de-duplication loop of `PublishResult` |
| `Work` | `work.dfy` | the work items as values, and the lane of each |
| `Manager` | `manager.dfy` | `class WorkManager`: submission with dedup, queues, lifecycle and pools |
| `ScanWork` | `scanwork.dfy` | publishing, which all probes share, and the prefix the FPP and Falcon probes put before proxied URLs |
| `PingProbe` | `ping.dfy` | private/public classification, the ping record and its fan-out |
| `HttpProbe` | `http.dfy` | title extraction, the HTTP record and its three follow-ups |
| `FalconProbe` | `falcon.dfy` | the walk over `status.xml`, the Banks rule and the model name |
| `XScheduleProbe` | `xschedule.dfy` | the xSchedule status record |
| `MacProbe` | `mac.dfy` | the vendor lookup, through local table, shared cache and remote service |
| `Computer` | `computer.dfy` | ARP correlation, with its once-per-MAC gate, and the bounded re-scan loop |

Modelling choices:

- State the source updates in place is a class with `seq`, `set` and `map`
  fields, and `modifies` frames per field. These classes are `WorkManager`,
  the function-static vendor cache `VendorCache`, and `ArpScanState`, the
  part of `ComputerWork` that survives between ARP passes (its `macsDone` list).
- Every mutator of `WorkManager` keeps `Valid()`. `Valid()` says that:
  - no address or endpoint is recorded twice;
  - each queue holds only its own lane's items;
  - each pool holds only its own lane's workers.
- Each modelled loop of the source is a `while` loop. It is proved against a
  specification function, and the properties are lemmas about that function:
  - the dedup loop of `PublishResult` (`Results.Deduplicate`), against the
    recursive `KeepLast`;
  - the 254-host sweep (`Manager.WorkManager.AddHosts`), against the
    recursive `AddIPs` over `SubnetHosts`;
  - the child walk of the Falcon probe (`FalconProbe.ReadStatus`), against the
    recursive `Walk`;
  - the found-host loop of `ScanARP` (`Computer.ArpScanState.QueueMacWork`),
    against the recursive `MacFanOut`;
  - the table loop of `ScanARP` (`Computer.AddArpSightings`), against `AddIPs`;
  - the ARP re-scan rounds (`Computer.ArpScanState.RescanArp`), against the
    recursive `RescanMacs` and `Sightings`;
  - the `Run` loops of `Start` (`Manager.RunAll`) and the `Terminate` loops of
    `Stop` (`Manager.TerminateAll`), against the sequence comprehensions `Ran`
    and `Terminated`;
  - the pool-creation loop of `Start` (`Manager.WorkManager.CreatePools`),
    against the comprehension `FreshPool`.
- The loops the model leaves out are listed under "## Left out":
  - the loops of `FPPWork` and `DiscoverWork`;
  - the destructor's loops;
  - the OS ARP-table read;
  - the sleep loop between ARP passes.
- Three behaviours of the code are easy to misread. The model follows the
  code:
  - `PublishResult` keeps each key's **last** entry, in the input order of
    those last entries. `[(K,1),(J,x),(K,2)]` becomes `[(J,x),(K,2)]`, not
    `[(K,2),(J,x)]` (`Results.LastOccurrenceOrder`).
  - `AddClassDSubnet` sweeps any address with **more than** three
    dot-separated components, not only one with exactly four.
  - A "Not Found" MAC reply **is** written to the cache, as an empty vendor.
    An empty cached vendor counts as a miss, so the address is looked up
    again anyway (`MacProbe.NotFoundRetries`).

## Model

| member | source | states |
|---|---|---|
| Results.KeepLastIsLastOccurrences | xScanner/ScanWork.cpp:594-615 | the published record is exactly the subsequence of input entries whose key does not occur later: the input picked at ascending indices, an index picked iff its entry is the last with its key |
| Results.KeepLastDistinct | xScanner/ScanWork.cpp:600-611 | no key occurs twice in a de-duplicated record |
| Results.KeepLastKeys | xScanner/ScanWork.cpp:600-611 | de-duplication keeps exactly the keys the input had |
| Results.KeepLastOfDistinct | xScanner/ScanWork.cpp:600-611 | a record with distinct keys is published unchanged |
| Results.LastOccurrenceOrder | xScanner/ScanWork.cpp:600-611 | `[(K,v1),(J,x),(K,v2)]` publishes as `[(J,x),(K,v2)]` |
| Results.Deduplicate | xScanner/ScanWork.cpp:600-611 | the back-to-front loop with linear search and `push_front` computes `KeepLast` |
| ScanWork.PublishResult | xScanner/ScanWork.cpp:594-615 | an empty record publishes nothing; any other is appended to the sink de-duplicated |
| Text.AtoiFormatInt | xScanner/ScanWork.cpp:180-185 | `wxAtoi` of a `"%d"`-formatted number gives the number back, negative numbers included |
| Text.FormatIntInjective | xScanner/ScanWork.cpp:153 | distinct numbers format differently |
| Text.SplitJoin | xScanner/ScanWork.cpp:175 | splitting undoes joining pieces free of the separator |
| Text.JoinSplit | xScanner/ScanWork.cpp:175 | joining the pieces of a split gives the string back |
| Text.ContainsIff | xScanner/ScanWork.cpp:506 | `Contains` holds exactly when the pattern occurs at some index |
| Manager.HttpKeyInjective | xScanner/ScanWork.cpp:153 | with `:`-free proxies, equal `ip:proxy:port` keys mean the same ip, proxy and port |
| Manager.HttpKeyCollidesOnColonProxy | xScanner/ScanWork.cpp:153 | a proxy holding `:` lets two different endpoints share one key |
| Manager.AddHTTPTwice | xScanner/ScanWork.cpp:149-160 | the same endpoint twice enqueues one HTTP probe on the main queue |
| Manager.AddHTTPDistinctProxies | xScanner/ScanWork.cpp:149-160 | two different `:`-free proxies for one address both enqueue, in call order |
| Manager.WorkManager.AddHTTP | xScanner/ScanWork.cpp:149-160 | check-then-insert on the formatted key: either both the key list and the main queue grow by one, or nothing changes |
| Manager.WorkManager.AddIP | xScanner/ScanWork.cpp:162-171 | a first-seen address is appended to the scanned list with one ping probe; a known one changes nothing |
| Manager.AddIPIdempotent | xScanner/ScanWork.cpp:162-171 | a repeated address, whatever its reason and proxy, changes nothing |
| Manager.AddIPsCovers | xScanner/ScanWork.cpp:162-171 | after a series of `AddIP` calls every address is scanned, nothing is forgotten, and the list and queue grow alike |
| Manager.AddIPsFresh | xScanner/ScanWork.cpp:162-171 | distinct unseen addresses are all appended and queued in call order |
| Manager.SubnetHostsSpec | xScanner/ScanWork.cpp:184-187 | the sweep addresses are `a.b.c.1` … `a.b.c.254`, in order and distinct |
| Manager.SubnetSweepFresh | xScanner/ScanWork.cpp:173-188 | a sweep over a /24 none of whose hosts were seen queues exactly the 254 probes in increasing order |
| Manager.DottedQuadParse | xScanner/ScanWork.cpp:185 | a formatted quad splits into four components that `wxAtoi` reads back |
| Manager.DottedQuadInjective | xScanner/ScanWork.cpp:185 | distinct quads format differently |
| Manager.WorkManager.AddClassDSubnet | xScanner/ScanWork.cpp:173-188 | more than three components: `AddIP` of the 254 hosts of the first three octets, ignoring the fourth; otherwise nothing |
| Manager.WorkManager.AddHosts | xScanner/ScanWork.cpp:184-187 | the loop over `i = 1 .. 254` performs the `AddIP` series of the sweep |
| Manager.WorkManager.AddWork | xScanner/ScanWork.cpp:325-327 | no dedup: the item goes to the back of its own lane's queue, other queues untouched |
| Manager.WorkManager.GetWork | xScanner/ScanWork.cpp:120-121 | pops the oldest item of the lane, or nothing when that queue is empty; other lanes untouched |
| Manager.WorkManager.AddFoundIP | xScanner/ScanWork.cpp:256 | adds the address to the found set |
| Manager.WorkManager.Publish | xScanner/ScanWork.cpp:614 | hands one record to the sink |
| Manager.WorkManager.constructor | xScanner/ScanWork.cpp:35-37 | a new manager is empty, not started and without workers |
| Manager.WorkManager.Start | xScanner/ScanWork.cpp:39-73 | pools are created only on the first call; an unstarted manager runs every worker; a started one is left as it is |
| Manager.WorkManager.CreatePools | xScanner/ScanWork.cpp:43-57 | 15 workers per lane, or 1 ping, 1 main and 2 other when single-threaded; only main-lane workers own a socket client |
| Manager.RunAll | xScanner/ScanWork.cpp:62-71 | every worker of a pool is asked to run, nothing else about it changes |
| Manager.WorkManager.Stop | xScanner/ScanWork.cpp:75-89 | every worker is asked to terminate and the manager is no longer started |
| Manager.TerminateAll | xScanner/ScanWork.cpp:78-86 | every worker of a pool is asked to terminate, nothing else about it changes |
| Manager.StopIdempotent | xScanner/ScanWork.cpp:75-89 | stopping twice is stopping once |
| PingProbe.PrivateIsRfc1918 | xScanner/ScanWork.cpp:211-243 | Private exactly for the RFC 1918 blocks (section 3 of RFC 1918) minus the broadcast addresses 10.255.255.255 and 192.168.255.255 |
| PingProbe.ReservedArePublic | xScanner/ScanWork.cpp:229-243 | 0.x, 224–239.x and 255.255.255.255 are Public |
| PingProbe.ClassificationExamples | xScanner/ScanWork.cpp:211-243 | 10.1.2.3 and 192.168.1.1 are private; 10.255.255.255, 224.0.0.1 and 8.8.8.8 are public |
| PingProbe.PingFieldsShape | xScanner/ScanWork.cpp:245-262 | keys IP, Type, [Why only if non-empty], Network, Network Type, PING, in that order; the record is published unchanged |
| PingProbe.PingRecordDefined | xScanner/ScanWork.cpp:203-204 | a record exists exactly for inputs with more than three dot-separated components |
| PingProbe.PingRecordOfQuad | xScanner/ScanWork.cpp:203-250 | for a formatted quad the record names the `a.b.c.0` network and classifies by the quad's own octets |
| PingProbe.DoPingWork | xScanner/ScanWork.cpp:190-269 | for an address: publish the record; add to the found set only on PING_OK/PING_WEBOK; `AddHTTP(ip, 80, proxy)` on both outcomes. Fewer than four components: nothing changes |
| HttpProbe.PageTitleOfMatch | xScanner/ScanWork.cpp:280-289 | on a match of `<title>([^<]*)<` the title is the captured text, or "" when it contains `404` |
| HttpProbe.PageTitleNoMatch | xScanner/ScanWork.cpp:280-296 | without a match the title is "" |
| HttpProbe.PageTitleShape | xScanner/ScanWork.cpp:280-289 | a title never contains `<` or `404` |
| HttpProbe.PageTitleNotFoundExample | xScanner/ScanWork.cpp:283-287 | a page titled "404 Not Found" has no title |
| HttpProbe.GetTitle | xScanner/ScanWork.cpp:271-296 | the title of the page fetched from `proxy + ip`, the URL as written (an empty page has none); it never holds `<` or `404` |
| HttpProbe.TitleUrlAsWrittenCollides | xScanner/ScanWork.cpp:274 | as written, two different proxy/target pairs fetch one URL |
| HttpProbe.TitleUrlInjective | xScanner/ScanWork.cpp:274 | the corrected URL determines proxy and target, for slash-free inputs |
| HttpProbe.HttpRecordShape | xScanner/ScanWork.cpp:315-323 | keys IP, Type, Port, Web, [Title only if non-empty]; the port reads back as the number; published unchanged |
| HttpProbe.DoHttpWork | xScanner/ScanWork.cpp:298-336 | on connect: publish the record with the title of the page at `proxy + ip`, and queue FPP, Falcon and xSchedule probes, in that order, on the other lane; without a client or connect: nothing |
| ScanWork.ProxiedUrlInjective | xScanner/ScanWork.cpp:344-347 | with slash-free proxies and addresses, the URL `proxy/proxy/ip` (or `ip` direct) determines both the proxy and the target |
| FalconProbe.ReadStatus | xScanner/ScanWork.cpp:520-545 | the loop over the root's children computes the walk |
| FalconProbe.WalkSettings | xScanner/ScanWork.cpp:516-537 | k0, k1, k2 and p end as `wxAtoi` of the last such element with content, or 0 |
| FalconProbe.WalkKeys | xScanner/ScanWork.cpp:520-545 | the walk reports only Mode, Firmware Version and Name entries |
| FalconProbe.BanksRoundTrip | xScanner/ScanWork.cpp:546-548 | Banks is emitted iff some count is nonzero, and its value splits at `:` back into the three counts |
| FalconProbe.ModelNameRoundTrip | xScanner/ScanWork.cpp:582 | the `F%dv%d` model name reads back into model and version |
| FalconProbe.FalconRecordPublished | xScanner/ScanWork.cpp:506-585 | the published record starts with IP and Type, has distinct keys, and holds Banks iff the document parsed with a nonzero bank count |
| FalconProbe.BanksPresence | xScanner/ScanWork.cpp:546-548 | the record before de-duplication holds Banks iff the document parsed with a nonzero bank count |
| FalconProbe.Describe | xScanner/ScanWork.cpp:520-583 | the entries a parsed document adds: walk entries, Banks, then the model name unless p is 128 |
| FalconProbe.DoFalconWork | xScanner/ScanWork.cpp:492-587 | a reply holding `<response>` and `<fv>` publishes the de-duplicated record; any other publishes nothing |
| XScheduleProbe.XScheduleRecordShape | xScanner/ScanWork.cpp:627-634 | keys IP, Type, Port, [Version when the reply parsed]; the port reads back; published unchanged |
| XScheduleProbe.DoXScheduleWork | xScanner/ScanWork.cpp:617-640 | a non-empty reply starting with `{` publishes the record; any other publishes nothing |
| MacProbe.ErrorRepliesNotPublished | xScanner/ScanWork.cpp:1004-1009 | the vendor read from a reply never holds the service's "Not Found" or "Too Many Requests" text; any other reply is the vendor unchanged; there is no vendor exactly for an empty or not-found reply |
| MacProbe.RemoteExactlyOnMiss | xScanner/ScanWork.cpp:991-1000 | the service is asked exactly when the local table gives "" and the cache has no non-empty entry |
| MacProbe.CacheUpdate | xScanner/ScanWork.cpp:1011-1014 | only the looked-up MAC is written, with the remote answer and never the placeholder; a cache free of placeholders stays so |
| MacProbe.SecondLookupIsCached | xScanner/ScanWork.cpp:991-1014 | after a remote lookup that found a real vendor, the next lookup of the MAC asks no one and, with no local answer, gives the same vendor |
| MacProbe.PlaceholderRetries | xScanner/ScanWork.cpp:1007-1014 | after a rate-limited lookup the next lookup asks the service again |
| MacProbe.NotFoundRetries | xScanner/ScanWork.cpp:1004-1014 | "Not Found" caches "" and the next lookup asks the service again |
| MacProbe.VendorCache.Resolve | xScanner/ScanWork.cpp:991-1015 | the lookup against the shared cache, asking the service at `https://api.macvendors.com/<mac>` on a miss: vendor, whether the service was asked, and the new cache |
| MacProbe.MacRecordShape | xScanner/ScanWork.cpp:1017-1029 | keys Type, IP, MAC, [MAC Vendor only if non-empty]; published unchanged |
| MacProbe.DoMacWork | xScanner/ScanWork.cpp:981-1030 | always publishes the MAC record with the looked-up vendor and updates the cache as the lookup says |
| Computer.ArpLookup | xScanner/ScanWork.cpp:778 | a MAC is found exactly for addresses in the table, and it is that address's entry |
| Computer.ArpLookupUnique | xScanner/ScanWork.cpp:778-784 | in a table without repeated addresses, as a `std::map` is, the lookup gives the address's own MAC |
| Computer.MacFanOutOnce | xScanner/ScanWork.cpp:777-788 | the done list grows by exactly the MACs of queued `MACWork`s and stays duplicate-free, so each MAC gets at most one `MACWork` |
| Computer.MacFanOutWorks | xScanner/ScanWork.cpp:777-788 | only `MACWork`s for found addresses, with the table's MAC, on the other lane |
| Computer.MacFanOutCovers | xScanner/ScanWork.cpp:777-788 | every found address in the table ends with its MAC done |
| Computer.MacFanOutDone | xScanner/ScanWork.cpp:783-786 | a pass whose MACs are all done queues nothing |
| Computer.AddIPsKnown | xScanner/ScanWork.cpp:790-792 | `AddIP` of addresses already scanned changes nothing |
| Computer.ScanTwiceIsOnce | xScanner/ScanWork.cpp:777-792 | a pass over a table and found listing unchanged since the last pass changes nothing |
| Computer.RescanMacsOnce | xScanner/ScanWork.cpp:971-978 | over any number of passes, each with its own table and found listing, the done list grows by exactly the MACs of the queued `MACWork`s and stays duplicate-free |
| Computer.RescanMacsWorks | xScanner/ScanWork.cpp:971-978 | everything the passes queue is a `MACWork` on the other lane |
| Computer.RescanMacsFresh | xScanner/ScanWork.cpp:782-786 | across all passes, the queued `MACWork`s carry distinct MACs, none of them done before the first pass |
| Computer.AddArpSightings | xScanner/ScanWork.cpp:790-792 | `AddIP(ip, "ARP")` for every table entry, in order |
| Computer.ArpScanState.QueueMacWork | xScanner/ScanWork.cpp:777-788 | the fan-out loop queues `MacFanOut`'s work and records its MACs |
| Computer.ArpScanState.ScanArp | xScanner/ScanWork.cpp:777-792 | one pass: the MAC fan-out, then the ARP sightings; the main queue is untouched; the done list stays duplicate-free |
| Computer.ArpScanState.RescanArp | xScanner/ScanWork.cpp:971-978 | min(40, passes before termination) passes; pass `k` reads table `k` and found listing `k`. The new state is the fold of those passes. The queued MACs are distinct and new |

## Left out

- Threads and locks are left out (`ScanThread::Entry`, `TerminateWork`, `Kill`, the destructor, the mutexes). Each `Add*` call is atomic, as the lock makes it.
- Network I/O becomes inputs: the ping result, the socket connect, each HTTP(S) fetch, and the reply of the MAC vendor service. No timeouts are modelled.
- `FPPWork::DoWork` is left out, apart from its proxy-prefix rule (`ScanWork.ProxyPrefix`, `ScanWork.ProxiedUrlInjective`). The parsing of its REST answers is left out. So are the follow-ups it submits and the record it publishes for each proxy:
  - `AddIP` of each interface address (line 395);
  - `AddIP(p, "FPP Proxied", ip)` and `AddClassDSubnet(p, ip)` for each proxied address `p` (lines 417-418), together with its child record of Type `Proxied`, IP and `Proxied By` (lines 419-423);
  - `AddIP(address, "FPP Multisync")` for each multisync peer (line 480).
- FalconProbe.DoFalconWork: for a V4 board (`p == 128`) the separate Falcon V4 session is left out. The model adds no entries for that case, which matches the session failing to connect. The session's two `AddIP` follow-ups (lines 561 and 565) are left out with it. Its entries include float-formatted temperatures and voltages.
- XML and JSON parsing are inputs:
  - the Falcon document arrives as the root's child elements, each with the text of its first child;
  - the xSchedule reply arrives as its parsed `version`, if it parsed.
- `Falcon::DecodeMode`, `Falcon::DecodeModelVersion` and `LookupMacAddress` live outside this file. They are function or value parameters.
- `DiscoverWork`, and `ComputerWork::DoWork` before its ARP loop, are left out. That part covers configuration reads, controller loading including `ProcessController`, local interfaces and static routes. It consists of calls into collaborators not in this file.
- Reading the OS ARP table is left out. The table is an input: its entries in map order. The 15-second wait between ARP passes is left out too.
- Computer.ArpScanState.ScanArp: the found listing is an input, not read from the manager's found set. Other workers grow that set concurrently, and the order of `GetFound` is not visible in this file.
- Computer.ArpScanState.RescanArp: the tables and found listings of the 40 possible passes are given up front. This does not capture how they come from the OS and from other workers.
- `xScanner/ScanWork.h` is not part of this model. From it, `AddWork`, `GetWork`, `AddFoundIP`, `GetFound` and `WorkManager::PublishResult` are modelled abstractly. The model also assumes:
  - one lane per work type, the one its constructor names;
  - port 80 as `xScheduleWork`'s default port;
  - `""` as `AddIP`'s default proxy.
- For `wxAtoi`, overflow beyond 32 bits is left out; numbers are unbounded.
- For `wxSplit`, the backslash escape of separators is left out.
- Logging is left out.
- `xLights/effects/ShockwaveEffect.h`, `TwinkleEffect.h` and `FireEffect.h` are left out. They declare rendering classes with no logic.

## Findings

| source | as written | input that shows it | evidently intended | confidence | as-written member | corrected member |
|---|---|---|---|---|---|---|
| xScanner/ScanWork.cpp:274 | `HTTPWork::GetTitle` fetches `_proxy + _ip`, with no separator between proxy and target | proxy `10.0.0.5` with target `192.168.1.2`, and proxy `10.0.0.51` with target `92.168.1.2`: both fetch `10.0.0.5192.168.1.2` | the `proxy/proxy/ip` form that `FPPWork` and `FalconWork` build (lines 344-347, 498-501) | not executed | HttpProbe.TitleUrlAsWrittenCollides (`HttpProbe.GetTitle` and `HttpProbe.DoHttpWork` fetch this as-written URL) | HttpProbe.TitleUrlInjective |
