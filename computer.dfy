/**
 * `ComputerWork`'s ARP correlation: after the ARP table is read (platform
 * code, not part of this model), each found address whose hardware address
 * is new gets one `MACWork`, and every address in the table is handed to
 * `AddIP` as an ARP sighting. The table of each pass arrives as its entries
 * in the map's iteration order, so no address occurs twice in it.
 */
module Computer {
  import opened Util
  import opened Work
  import opened Manager

  /** An ARP table entry: an address and its hardware address. */
  datatype ArpEntry = ArpEntry(ip: string, mac: string)

  /** `ScanARP` makes at most this many passes over the ARP table. */
  const ArpRounds: nat := 40

  function ArpIps(arps: seq<ArpEntry>): (ips: seq<string>)
    ensures |ips| == |arps| && forall i :: 0 <= i < |arps| ==> ips[i] == arps[i].ip
  {
    seq(|arps|, i requires 0 <= i < |arps| => arps[i].ip)
  }

  /** The hardware address the table holds for `ip`, if any. */
  function ArpLookup(arps: seq<ArpEntry>, ip: string): (r: Option<string>)
    ensures r.Some? <==> ip in ArpIps(arps)
    ensures r.Some? ==> ArpEntry(ip, r.value) in arps
  {
    if arps == [] then None
    else if arps[0].ip == ip then Some(arps[0].mac)
    else
      assert ArpIps(arps) == [arps[0].ip] + ArpIps(arps[1..]);
      ArpLookup(arps[1..], ip)
  }

  /** In a table without repeated addresses, the lookup gives an address's own entry. */
  lemma ArpLookupUnique(arps: seq<ArpEntry>, ip: string, mac: string)
    requires NoDup(ArpIps(arps))
    requires ArpEntry(ip, mac) in arps
    ensures ArpLookup(arps, ip) == Some(mac)
  {
    var r := ArpLookup(arps, ip);
    assert ip in ArpIps(arps) by {
      var i :| 0 <= i < |arps| && arps[i] == ArpEntry(ip, mac);
      assert ArpIps(arps)[i] == ip;
    }
    var i :| 0 <= i < |arps| && arps[i] == ArpEntry(ip, mac);
    var j :| 0 <= j < |arps| && arps[j] == ArpEntry(ip, r.value);
    assert ArpIps(arps)[i] == ArpIps(arps)[j];
  }

  /**
   * The pass over the found addresses, in order: a MAC not yet done gets a
   * `MACWork` and joins the done list. Gives the queued work and the new list.
   */
  function MacFanOut(found: seq<string>, arps: seq<ArpEntry>, done: seq<string>): (seq<Work>, seq<string>) {
    if found == [] then ([], done)
    else
      var (ws, d) := MacFanOut(found[..|found| - 1], arps, done);
      var ip := found[|found| - 1];
      match ArpLookup(arps, ip)
      case None => (ws, d)
      case Some(mac) => if mac in d then (ws, d) else (ws + [MACWork(ip, mac)], d + [mac])
  }

  /** The hardware addresses of queued `MACWork`s. */
  function MacsOf(ws: seq<Work>): seq<string> {
    if ws == [] then []
    else MacsOf(ws[..|ws| - 1]) + (if ws[|ws| - 1].MACWork? then [ws[|ws| - 1].mac] else [])
  }

  lemma MacsOfSnoc(ws: seq<Work>, w: Work)
    ensures MacsOf(ws + [w]) == MacsOf(ws) + (if w.MACWork? then [w.mac] else [])
  {
    assert (ws + [w])[..|ws|] == ws;
  }

  lemma {:induction false} MacsOfAppend(a: seq<Work>, b: seq<Work>)
    ensures MacsOf(a + b) == MacsOf(a) + MacsOf(b)
  {
    if b == [] {
      assert a + b == a;
    } else {
      var init, w := b[..|b| - 1], b[|b| - 1];
      MacsOfAppend(a, init);
      assert a + b == (a + init) + [w];
      MacsOfSnoc(a + init, w);
      MacsOfSnoc(init, w);
      assert b == init + [w];
    }
  }

  /**
   * Each hardware address gets at most one `MACWork`: the done list grows by
   * exactly the MACs of the queued work, and stays free of repeats.
   */
  lemma {:induction false} MacFanOutOnce(found: seq<string>, arps: seq<ArpEntry>, done: seq<string>)
    requires NoDup(done)
    ensures MacFanOut(found, arps, done).1 == done + MacsOf(MacFanOut(found, arps, done).0)
    ensures NoDup(MacFanOut(found, arps, done).1)
  {
    if found != [] {
      var init := found[..|found| - 1];
      MacFanOutOnce(init, arps, done);
      var r := MacFanOut(init, arps, done);
      var ip := found[|found| - 1];
      var mac := ArpLookup(arps, ip);
      if mac.Some? && mac.value !in r.1 {
        assert MacFanOut(found, arps, done) == (r.0 + [MACWork(ip, mac.value)], r.1 + [mac.value]);
        MacsOfSnoc(r.0, MACWork(ip, mac.value));
        NoDupSnoc(r.1, mac.value);
        assert done + MacsOf(r.0) + [mac.value] == done + (MacsOf(r.0) + [mac.value]);
      } else {
        assert MacFanOut(found, arps, done) == r;
      }
    }
  }

  /**
   * The queued work is `MACWork` on the other lane, each for a found address
   * and the MAC the table gives it.
   */
  lemma {:induction false} MacFanOutWorks(found: seq<string>, arps: seq<ArpEntry>, done: seq<string>)
    ensures InLane(MacFanOut(found, arps, done).0, OtherLane)
    ensures forall i :: 0 <= i < |MacFanOut(found, arps, done).0| ==>
      && MacFanOut(found, arps, done).0[i].MACWork?
      && MacFanOut(found, arps, done).0[i].ip in found
      && ArpLookup(arps, MacFanOut(found, arps, done).0[i].ip) == Some(MacFanOut(found, arps, done).0[i].mac)
  {
    if found != [] {
      var init := found[..|found| - 1];
      MacFanOutWorks(init, arps, done);
      var r := MacFanOut(init, arps, done);
      var ip := found[|found| - 1];
      var mac := ArpLookup(arps, ip);
      assert forall x :: x in init ==> x in found;
      if mac.Some? && mac.value !in r.1 {
        assert MacFanOut(found, arps, done).0 == r.0 + [MACWork(ip, mac.value)];
      } else {
        assert MacFanOut(found, arps, done) == r;
      }
    }
  }

  /** Every found address with an entry in the table ends with its MAC done. */
  lemma {:induction false} MacFanOutCovers(found: seq<string>, arps: seq<ArpEntry>, done: seq<string>)
    ensures done <= MacFanOut(found, arps, done).1
    ensures forall ip :: ip in found && ArpLookup(arps, ip).Some? ==> ArpLookup(arps, ip).value in MacFanOut(found, arps, done).1
  {
    if found != [] {
      var init := found[..|found| - 1];
      MacFanOutCovers(init, arps, done);
      var r := MacFanOut(init, arps, done);
      var last := found[|found| - 1];
      assert found == init + [last];
      var mac := ArpLookup(arps, last);
      if mac.Some? && mac.value !in r.1 {
        assert MacFanOut(found, arps, done).1 == r.1 + [mac.value];
      } else {
        assert MacFanOut(found, arps, done).1 == r.1;
      }
    }
  }

  /** A pass whose MACs are all done already queues nothing. */
  lemma {:induction false} MacFanOutDone(found: seq<string>, arps: seq<ArpEntry>, done: seq<string>)
    requires forall ip :: ip in found && ArpLookup(arps, ip).Some? ==> ArpLookup(arps, ip).value in done
    ensures MacFanOut(found, arps, done) == ([], done)
  {
    if found != [] {
      var init := found[..|found| - 1];
      assert found == init + [found[|found| - 1]];
      MacFanOutDone(init, arps, done);
    }
  }

  /** Every address scanned already: `AddIP` for each changes nothing. */
  lemma {:induction false} AddIPsKnown(scanned: seq<string>, queue: seq<Work>, ips: seq<string>, why: string, proxy: string)
    requires forall ip :: ip in ips ==> ip in scanned
    ensures AddIPs(scanned, queue, ips, why, proxy) == (scanned, queue)
  {
    if ips != [] {
      AddIPsKnown(scanned, queue, ips[..|ips| - 1], why, proxy);
    }
  }

  /** A pass over a table and found listing that did not change since the last pass changes nothing. */
  lemma ScanTwiceIsOnce(found: seq<string>, arps: seq<ArpEntry>, done: seq<string>,
                        scanned: seq<string>, queue: seq<Work>)
    ensures var (ws, d) := MacFanOut(found, arps, done);
      var (s, q) := AddIPs(scanned, queue, ArpIps(arps), "ARP", "");
      MacFanOut(found, arps, d) == ([], d) && AddIPs(s, q, ArpIps(arps), "ARP", "") == (s, q)
  {
    var (ws, d) := MacFanOut(found, arps, done);
    MacFanOutCovers(found, arps, done);
    MacFanOutDone(found, arps, d);
    AddIPsCovers(scanned, queue, ArpIps(arps), "ARP", "");
    var (s, q) := AddIPs(scanned, queue, ArpIps(arps), "ARP", "");
    AddIPsKnown(s, q, ArpIps(arps), "ARP", "");
  }

  // ------------------------------------------------------------ repeated passes

  /**
   * The MAC fan-out of successive passes: pass `k` reads `tables[k]` and the
   * found listing `founds[k]`, against the done list the passes before left.
   */
  function RescanMacs(tables: seq<seq<ArpEntry>>, founds: seq<seq<string>>, done: seq<string>, n: nat): (seq<Work>, seq<string>)
    requires n <= |tables| && n <= |founds|
  {
    if n == 0 then ([], done)
    else
      var r := RescanMacs(tables, founds, done, n - 1);
      var f := MacFanOut(founds[n - 1], tables[n - 1], r.1);
      (r.0 + f.0, f.1)
  }

  /** The addresses of the first `n` tables, in pass order: the ARP sightings of those passes. */
  function Sightings(tables: seq<seq<ArpEntry>>, n: nat): seq<string>
    requires n <= |tables|
  {
    if n == 0 then [] else Sightings(tables, n - 1) + ArpIps(tables[n - 1])
  }

  /** Over all passes, the done list grows by exactly the MACs of the queued work and stays free of repeats. */
  lemma {:induction false} RescanMacsOnce(tables: seq<seq<ArpEntry>>, founds: seq<seq<string>>, done: seq<string>, n: nat)
    requires n <= |tables| && n <= |founds|
    requires NoDup(done)
    ensures RescanMacs(tables, founds, done, n).1 == done + MacsOf(RescanMacs(tables, founds, done, n).0)
    ensures NoDup(RescanMacs(tables, founds, done, n).1)
  {
    if n > 0 {
      RescanMacsOnce(tables, founds, done, n - 1);
      var r := RescanMacs(tables, founds, done, n - 1);
      var f := MacFanOut(founds[n - 1], tables[n - 1], r.1);
      assert RescanMacs(tables, founds, done, n) == (r.0 + f.0, f.1);
      MacFanOutOnce(founds[n - 1], tables[n - 1], r.1);
      assert f.1 == r.1 + MacsOf(f.0);
      MacsOfAppend(r.0, f.0);
      calc {
        f.1;
        (done + MacsOf(r.0)) + MacsOf(f.0);
        done + (MacsOf(r.0) + MacsOf(f.0));
        done + MacsOf(r.0 + f.0);
      }
    }
  }

  /** All work the passes queue is `MACWork` on the other lane. */
  lemma {:induction false} RescanMacsWorks(tables: seq<seq<ArpEntry>>, founds: seq<seq<string>>, done: seq<string>, n: nat)
    requires n <= |tables| && n <= |founds|
    ensures InLane(RescanMacs(tables, founds, done, n).0, OtherLane)
    ensures forall i :: 0 <= i < |RescanMacs(tables, founds, done, n).0| ==> RescanMacs(tables, founds, done, n).0[i].MACWork?
  {
    if n > 0 {
      RescanMacsWorks(tables, founds, done, n - 1);
      var r := RescanMacs(tables, founds, done, n - 1);
      var f := MacFanOut(founds[n - 1], tables[n - 1], r.1);
      assert RescanMacs(tables, founds, done, n) == (r.0 + f.0, f.1);
      MacFanOutWorks(founds[n - 1], tables[n - 1], r.1);
      forall i | 0 <= i < |r.0 + f.0|
        ensures (r.0 + f.0)[i].MACWork? && LaneOf((r.0 + f.0)[i]) == OtherLane
      {
        if i >= |r.0| {
          assert (r.0 + f.0)[i] == f.0[i - |r.0|];
        }
      }
    }
  }

  /**
   * The `ComputerWork` gate across passes: the hardware addresses of all
   * queued `MACWork`s are distinct, and none of them was done before the first pass.
   */
  lemma RescanMacsFresh(tables: seq<seq<ArpEntry>>, founds: seq<seq<string>>, done: seq<string>, n: nat)
    requires n <= |tables| && n <= |founds|
    requires NoDup(done)
    ensures NoDup(MacsOf(RescanMacs(tables, founds, done, n).0))
    ensures forall m :: m in MacsOf(RescanMacs(tables, founds, done, n).0) ==> m !in done
  {
    RescanMacsOnce(tables, founds, done, n);
    NoDupAppend(done, MacsOf(RescanMacs(tables, founds, done, n).0));
  }

  /** The second loop of `ScanARP`: `AddIP(ip, "ARP")` for every table entry, in order. */
  method AddArpSightings(wm: WorkManager, arps: seq<ArpEntry>)
    requires wm.Valid()
    modifies wm`scannedIP, wm`queuePing
    ensures wm.Valid()
    ensures (wm.scannedIP, wm.queuePing) == AddIPs(old(wm.scannedIP), old(wm.queuePing), ArpIps(arps), "ARP", "")
  {
    var ips := ArpIps(arps);
    var j := 0;
    while j < |arps|
      invariant 0 <= j <= |arps|
      invariant wm.Valid()
      invariant (wm.scannedIP, wm.queuePing) == AddIPs(old(wm.scannedIP), old(wm.queuePing), ips[..j], "ARP", "")
    {
      AddIPsSnoc(old(wm.scannedIP), old(wm.queuePing), ips[..j], arps[j].ip, "ARP", "");
      assert ips[..j + 1] == ips[..j] + [arps[j].ip];
      wm.AddIP(arps[j].ip, "ARP", "");
      j := j + 1;
    }
    assert ips[..j] == ips;
  }

  /** The part of `ComputerWork` that survives between ARP passes. */
  class ArpScanState {
    /** The hardware addresses a `MACWork` was queued for. */
    var macsDone: seq<string>

    /** No hardware address was queued twice. */
    predicate Valid()
      reads this
    {
      NoDup(macsDone)
    }

    constructor ()
      ensures Valid() && macsDone == []
    {
      macsDone := [];
    }

    /**
     * One pass: `MACWork`s for found addresses with a new MAC, then
     * `AddIP(ip, "ARP")` for every table entry. `found` is the found set in
     * the order `GetFound` lists it at the time of the pass.
     */
    method ScanArp(wm: WorkManager, arps: seq<ArpEntry>, found: seq<string>)
      requires wm.Valid() && Valid()
      requires NoDup(ArpIps(arps))
      modifies this, wm`queuePing, wm`queueMain, wm`queueOther, wm`scannedIP
      ensures wm.Valid() && Valid()
      ensures macsDone == MacFanOut(found, arps, old(macsDone)).1
      ensures wm.queueOther == old(wm.queueOther) + MacFanOut(found, arps, old(macsDone)).0
      ensures wm.queueMain == old(wm.queueMain)
      ensures (wm.scannedIP, wm.queuePing) == AddIPs(old(wm.scannedIP), old(wm.queuePing), ArpIps(arps), "ARP", "")
    {
      QueueMacWork(wm, arps, found);
      AddArpSightings(wm, arps);
    }

    /** The first loop of `ScanARP`: one `MACWork` per found address whose MAC is not done yet. */
    method QueueMacWork(wm: WorkManager, arps: seq<ArpEntry>, found: seq<string>)
      requires wm.Valid() && Valid()
      requires NoDup(ArpIps(arps))
      modifies this`macsDone, wm`queuePing, wm`queueMain, wm`queueOther
      ensures wm.Valid() && Valid()
      ensures macsDone == MacFanOut(found, arps, old(macsDone)).1
      ensures wm.queueOther == old(wm.queueOther) + MacFanOut(found, arps, old(macsDone)).0
      ensures wm.queueMain == old(wm.queueMain) && wm.queuePing == old(wm.queuePing)
    {
      ghost var other0, done0 := wm.queueOther, macsDone;
      var i := 0;
      while i < |found|
        invariant 0 <= i <= |found|
        invariant wm.Valid()
        invariant wm.queueMain == old(wm.queueMain) && wm.queuePing == old(wm.queuePing)
        invariant macsDone == MacFanOut(found[..i], arps, done0).1
        invariant wm.queueOther == other0 + MacFanOut(found[..i], arps, done0).0
      {
        var ip := found[i];
        assert found[..i + 1][..i] == found[..i];
        var mac := ArpLookup(arps, ip);
        if mac.Some? && mac.value !in macsDone {
          wm.AddWork(MACWork(ip, mac.value));
          macsDone := macsDone + [mac.value];
        }
        i := i + 1;
      }
      assert found[..i] == found;
      MacFanOutOnce(found, arps, done0);
    }

    /** Pass `n` of the re-scan, stated against the passes before it. */
    method ScanPass(wm: WorkManager, tables: seq<seq<ArpEntry>>, founds: seq<seq<string>>, n: nat,
                    ghost done0: seq<string>, ghost other0: seq<Work>, ghost scanned0: seq<string>, ghost ping0: seq<Work>)
      requires n < |tables| && n < |founds| && NoDup(ArpIps(tables[n]))
      requires wm.Valid() && Valid()
      requires macsDone == RescanMacs(tables, founds, done0, n).1
      requires wm.queueOther == other0 + RescanMacs(tables, founds, done0, n).0
      requires (wm.scannedIP, wm.queuePing) == AddIPs(scanned0, ping0, Sightings(tables, n), "ARP", "")
      modifies this, wm`queuePing, wm`queueMain, wm`queueOther, wm`scannedIP
      ensures wm.Valid() && Valid()
      ensures wm.queueMain == old(wm.queueMain)
      ensures macsDone == RescanMacs(tables, founds, done0, n + 1).1
      ensures wm.queueOther == other0 + RescanMacs(tables, founds, done0, n + 1).0
      ensures (wm.scannedIP, wm.queuePing) == AddIPs(scanned0, ping0, Sightings(tables, n + 1), "ARP", "")
    {
      AddIPsAppend(scanned0, ping0, Sightings(tables, n), ArpIps(tables[n]), "ARP", "");
      ghost var r := RescanMacs(tables, founds, done0, n);
      ghost var f := MacFanOut(founds[n], tables[n], r.1);
      ScanArp(wm, tables[n], founds[n]);
      assert wm.queueOther == other0 + (r.0 + f.0);
    }

    /**
     * The tail of `ComputerWork::DoWork`: up to `ArpRounds` passes, stopping
     * once termination is requested. Pass `k` reads the ARP table afresh,
     * given as `tables[k]`, and the found listing of that moment, `founds[k]`.
     * `stop` is the number of passes that find the flag clear; the waits
     * between passes are left out.
     */
    method RescanArp(wm: WorkManager, tables: seq<seq<ArpEntry>>, founds: seq<seq<string>>, stop: nat) returns (passes: nat)
      requires wm.Valid() && Valid()
      requires |tables| == ArpRounds && |founds| == ArpRounds
      requires forall k :: 0 <= k < |tables| ==> NoDup(ArpIps(tables[k]))
      modifies this, wm`queuePing, wm`queueMain, wm`queueOther, wm`scannedIP
      ensures wm.Valid() && Valid()
      ensures passes == if stop < ArpRounds then stop else ArpRounds
      ensures macsDone == RescanMacs(tables, founds, old(macsDone), passes).1
      ensures wm.queueOther == old(wm.queueOther) + RescanMacs(tables, founds, old(macsDone), passes).0
      ensures NoDup(MacsOf(RescanMacs(tables, founds, old(macsDone), passes).0))
      ensures forall m :: m in MacsOf(RescanMacs(tables, founds, old(macsDone), passes).0) ==> m !in old(macsDone)
      ensures (wm.scannedIP, wm.queuePing) == AddIPs(old(wm.scannedIP), old(wm.queuePing), Sightings(tables, passes), "ARP", "")
      ensures wm.queueMain == old(wm.queueMain)
    {
      ghost var done0, other0, scanned0, ping0 := macsDone, wm.queueOther, wm.scannedIP, wm.queuePing;
      passes := 0;
      while passes < ArpRounds && passes < stop
        invariant passes <= ArpRounds && passes <= stop
        invariant wm.Valid() && Valid()
        invariant wm.queueMain == old(wm.queueMain)
        invariant macsDone == RescanMacs(tables, founds, done0, passes).1
        invariant wm.queueOther == other0 + RescanMacs(tables, founds, done0, passes).0
        invariant (wm.scannedIP, wm.queuePing) == AddIPs(scanned0, ping0, Sightings(tables, passes), "ARP", "")
      {
        ScanPass(wm, tables, founds, passes, done0, other0, scanned0, ping0);
        passes := passes + 1;
      }
      RescanMacsFresh(tables, founds, old(macsDone), passes);
    }
  }
}
