/**
 * `MACWork`: name the vendor of a hardware address. The local table
 * (`LookupMacAddress`) is consulted first, then a cache shared by every
 * `MACWork`, then the macvendors.com service. The local answer is an
 * input, the service a function from URL to reply; the cache is an explicit object.
 */
module MacProbe {
  import opened Util
  import opened Text
  import opened Results
  import opened Manager
  import opened ScanWork

  /** The vendor shown when the service refuses to answer. */
  const Unavailable := "MAC Lookup Unavailable"

  /** The service's address for looking `mac` up. */
  function VendorUrl(mac: string): string {
    "https://api.macvendors.com/" + mac
  }

  /** The service's reply as a vendor: a not-found reply is no vendor, a rate-limit reply the placeholder. */
  function NormalizeReply(reply: string): string {
    if Contains(reply, "\"Not Found\"") then ""
    else if Contains(reply, "\"Too Many Requests\"") then Unavailable
    else reply
  }

  /** A text without the first character of `pat` does not contain `pat`. */
  lemma MissingFirstChar(s: string, pat: string)
    requires |pat| > 0 && pat[0] !in s
    ensures !Contains(s, pat)
  {
    forall i: nat | i < |s|
      ensures !OccursAt(s, pat, i)
    {
      assert s[i] in s;
    }
    ContainsIff(s, pat);
  }

  /**
   * The vendor a reply yields is never one of the service's error replies;
   * any other reply is taken as it is, and only a not-found reply or an empty
   * one gives no vendor.
   */
  lemma ErrorRepliesNotPublished(reply: string)
    ensures !Contains(NormalizeReply(reply), "\"Not Found\"")
    ensures !Contains(NormalizeReply(reply), "\"Too Many Requests\"")
    ensures NormalizeReply(reply) != reply ==> Contains(reply, "\"Not Found\"") || Contains(reply, "\"Too Many Requests\"")
    ensures NormalizeReply(reply) == "" <==> reply == "" || Contains(reply, "\"Not Found\"")
  {
    MissingFirstChar("", "\"Not Found\"");
    MissingFirstChar("", "\"Too Many Requests\"");
    MissingFirstChar(Unavailable, "\"Not Found\"");
    MissingFirstChar(Unavailable, "\"Too Many Requests\"");
  }

  /** The outcome of one lookup: the vendor, whether the service was asked, and the cache afterwards. */
  datatype Lookup = Lookup(vendor: string, remoteCalled: bool, cache: map<string, string>)

  /**
   * One lookup of `mac`: the local answer, else a cached one, else the
   * service's reply, which is cached unless it is the placeholder. An empty
   * answer at any stage falls through to the next.
   */
  function LookupVendor(cache: map<string, string>, mac: string, local: string, reply: string): Lookup {
    var cached := if local == "" && mac in cache then cache[mac] else local;
    if cached != "" then Lookup(cached, false, cache)
    else
      var v := NormalizeReply(reply);
      Lookup(v, true, if v != Unavailable then cache[mac := v] else cache)
  }

  /** No entry of the cache is the placeholder. */
  predicate NoPlaceholder(cache: map<string, string>) {
    forall m :: m in cache ==> cache[m] != Unavailable
  }

  /** The service is asked exactly when neither the local table nor the cache has a non-empty answer. */
  lemma RemoteExactlyOnMiss(cache: map<string, string>, mac: string, local: string, reply: string)
    ensures LookupVendor(cache, mac, local, reply).remoteCalled <==> local == "" && (mac !in cache || cache[mac] == "")
  {
  }

  /**
   * The cache only ever gains the looked-up address, with the answer just
   * given; the placeholder is never written, and nothing else changes.
   */
  lemma CacheUpdate(cache: map<string, string>, mac: string, local: string, reply: string)
    ensures var r := LookupVendor(cache, mac, local, reply);
      && r.cache.Keys <= cache.Keys + {mac}
      && (forall m :: m in cache && m != mac ==> m in r.cache && r.cache[m] == cache[m])
      && (r.remoteCalled && r.vendor != Unavailable ==> mac in r.cache && r.cache[mac] == r.vendor)
      && (!r.remoteCalled || r.vendor == Unavailable ==> r.cache == cache)
      && (NoPlaceholder(cache) ==> NoPlaceholder(r.cache))
  {
  }

  /**
   * A lookup the service answered with a real vendor is answered again from
   * the cache: the second lookup of the address asks no one.
   */
  lemma SecondLookupIsCached(cache: map<string, string>, mac: string, local: string, reply: string,
                             local': string, reply': string)
    requires LookupVendor(cache, mac, local, reply).remoteCalled
    requires LookupVendor(cache, mac, local, reply).vendor !in {"", Unavailable}
    ensures var first := LookupVendor(cache, mac, local, reply);
      var second := LookupVendor(first.cache, mac, local', reply');
      !second.remoteCalled && (local' == "" ==> second.vendor == first.vendor) && second.cache == first.cache
  {
  }

  /** A refused lookup is retried: the next lookup with no local answer asks the service again. */
  lemma PlaceholderRetries(cache: map<string, string>, mac: string, local: string, reply: string, reply': string)
    requires LookupVendor(cache, mac, local, reply).remoteCalled
    requires LookupVendor(cache, mac, local, reply).vendor == Unavailable
    ensures LookupVendor(LookupVendor(cache, mac, local, reply).cache, mac, "", reply').remoteCalled
  {
  }

  /** A not-found answer is cached as no vendor, and a cached empty answer counts as a miss: it is asked again. */
  lemma NotFoundRetries(cache: map<string, string>, mac: string, local: string, reply: string, reply': string)
    requires LookupVendor(cache, mac, local, reply).remoteCalled
    requires Contains(reply, "\"Not Found\"")
    ensures LookupVendor(cache, mac, local, reply).cache == cache[mac := ""]
    ensures LookupVendor(LookupVendor(cache, mac, local, reply).cache, mac, "", reply').remoteCalled
  {
  }

  /** The function-static `cache` of `MACWork::DoWork`. */
  class VendorCache {
    var entries: map<string, string>

    constructor ()
      ensures entries == map[]
    {
      entries := map[];
    }

    /**
     * One lookup, as `LookupVendor` describes it, where `fetch` answers a
     * request for a URL; the service is asked only when `remoteCalled`.
     */
    method Resolve(mac: string, local: string, fetch: string -> string) returns (vendor: string, remoteCalled: bool)
      modifies this
      ensures LookupVendor(old(entries), mac, local, fetch(VendorUrl(mac))) == Lookup(vendor, remoteCalled, entries)
    {
      vendor := local;
      if vendor == "" {
        if mac in entries {
          vendor := entries[mac];
        }
      }
      remoteCalled := false;
      if vendor == "" {
        remoteCalled := true;
        vendor := fetch(VendorUrl(mac));
        if Contains(vendor, "\"Not Found\"") {
          vendor := "";
        } else if Contains(vendor, "\"Too Many Requests\"") {
          vendor := Unavailable;
        }
        if vendor != Unavailable {
          entries := entries[mac := vendor];
        }
      }
    }
  }

  /** The record: Type, IP and MAC, and the vendor only when there is one. */
  function MacRecord(ip: string, mac: string, vendor: string): seq<Field> {
    [Field("Type", "MAC"), Field("IP", ip), Field("MAC", mac)]
    + (if vendor != "" then [Field("MAC Vendor", vendor)] else [])
  }

  lemma MacRecordShape(ip: string, mac: string, vendor: string)
    ensures Keys(MacRecord(ip, mac, vendor)) == ["Type", "IP", "MAC"] + (if vendor != "" then ["MAC Vendor"] else [])
    ensures KeepLast(MacRecord(ip, mac, vendor)) == MacRecord(ip, mac, vendor)
  {
    var r := MacRecord(ip, mac, vendor);
    assert Keys(r) == ["Type", "IP", "MAC"] + (if vendor != "" then ["MAC Vendor"] else []);
    assert NoDup(Keys(r));
    KeepLastOfDistinct(r);
  }

  lemma MacRecordPublished(ip: string, mac: string, vendor: string)
    ensures var r := MacRecord(ip, mac, vendor); r != [] && KeepLast(r) == r
  {
    MacRecordShape(ip, mac, vendor);
  }

  /**
   * The probe: look the address up (`local` is the local table's answer,
   * `fetch` answers the request to the service) and always publish a record.
   */
  method DoMacWork(wm: WorkManager, cache: VendorCache, ip: string, mac: string, local: string, fetch: string -> string)
    returns (remoteCalled: bool)
    requires wm.Valid()
    modifies wm`published, cache
    ensures wm.Valid()
    ensures var r := LookupVendor(old(cache.entries), mac, local, fetch(VendorUrl(mac)));
      && cache.entries == r.cache && remoteCalled == r.remoteCalled
      && wm.published == old(wm.published) + [MacRecord(ip, mac, r.vendor)]
  {
    var vendor;
    vendor, remoteCalled := cache.Resolve(mac, local, fetch);
    var results := [Field("Type", "MAC"), Field("IP", ip), Field("MAC", mac)];
    if vendor != "" {
      results := results + [Field("MAC Vendor", vendor)];
    }
    assert results == MacRecord(ip, mac, vendor);
    MacRecordPublished(ip, mac, vendor);
    PublishResult(wm, results);
  }
}
