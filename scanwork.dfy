/** What every probe shares with the `ScanWork` base class. */
module ScanWork {
  import opened Text
  import opened Results
  import opened Manager

  /**
   * `ScanWork::PublishResult`: an empty record publishes nothing; any other
   * is de-duplicated (each key's last entry) and handed to the manager's sink.
   */
  method PublishResult(wm: WorkManager, result: seq<Field>)
    requires wm.Valid()
    modifies wm`published
    ensures wm.Valid()
    ensures wm.published == old(wm.published) + (if result == [] then [] else [KeepLast(result)])
  {
    if |result| == 0 {
      return;
    }
    var out := Deduplicate(result);
    wm.Publish(out);
  }

  /** The URL prefix the FPP and Falcon probes put before an address: `proxy/proxy/` when proxied. */
  function ProxyPrefix(proxy: string): string {
    if proxy != "" then proxy + "/proxy/" else ""
  }

  /** The address `ip` as the FPP and Falcon probes reach it, through `proxy` when there is one. */
  function ProxiedUrl(proxy: string, ip: string): string {
    ProxyPrefix(proxy) + ip
  }

  /** A proxied URL has a `/` right after the proxy. */
  lemma ProxiedUrlSlash(proxy: string, ip: string)
    requires proxy != ""
    ensures |proxy| < |ProxiedUrl(proxy, ip)| && ProxiedUrl(proxy, ip)[|proxy|] == '/'
  {
  }

  /** A direct URL without `/` is never a proxied one. */
  lemma DirectIsNotProxied(ip1: string, proxy2: string, ip2: string)
    requires '/' !in ip1 && proxy2 != ""
    ensures ProxiedUrl("", ip1) != ProxiedUrl(proxy2, ip2)
  {
    ProxiedUrlSlash(proxy2, ip2);
    assert ProxiedUrl("", ip1) == ip1;
  }

  /**
   * With slash-free proxies and addresses, the prefixed URL names its proxy
   * and target uniquely: probes of different targets, or through different
   * proxies, never fetch the same URL.
   */
  lemma ProxiedUrlInjective(proxy1: string, ip1: string, proxy2: string, ip2: string)
    requires '/' !in proxy1 && '/' !in proxy2 && '/' !in ip1 && '/' !in ip2
    requires ProxiedUrl(proxy1, ip1) == ProxiedUrl(proxy2, ip2)
    ensures proxy1 == proxy2 && ip1 == ip2
  {
    var u := ProxiedUrl(proxy1, ip1);
    if proxy1 == "" && proxy2 != "" {
      DirectIsNotProxied(ip1, proxy2, ip2);
      assert false;
    } else if proxy1 != "" && proxy2 == "" {
      DirectIsNotProxied(ip2, proxy1, ip1);
      assert false;
    } else if proxy1 != "" {
      var tail1, tail2 := "proxy/" + ip1, "proxy/" + ip2;
      assert u == proxy1 + ['/'] + tail1;
      assert u == proxy2 + ['/'] + tail2;
      FirstIndexAfter(proxy1, '/', tail1);
      FirstIndexAfter(proxy2, '/', tail2);
      assert proxy1 == u[..|proxy1|] && proxy2 == u[..|proxy2|];
      assert ip1 == u[|proxy1| + 7..] && ip2 == u[|proxy2| + 7..];
    }
  }
}

