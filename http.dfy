/**
 * `HTTPWork`: a TCP connect to `ip:port`; on success the page title is read
 * and the host is handed to the FPP, Falcon and xSchedule probes. The
 * connect and the page fetch (`Curl::HTTPSGet`) are inputs.
 */
module HttpProbe {
  import opened Util
  import opened Text
  import opened Results
  import opened Work
  import opened Manager
  import opened ScanWork

  const TitleTag := "<title>"

  /**
   * The title `HTTPWork::GetTitle` reads from a fetched page: the text after the first
   * `<title>` up to the next `<` (the leftmost match of `<title>([^<]*)<`),
   * or nothing when there is no match or the text mentions `404`.
   */
  function PageTitle(page: string): string {
    if page == "" then ""
    else match FindFrom(page, TitleTag, 0)
      case None => ""
      case Some(p) =>
        match FindFrom(page, "<", p + |TitleTag|)
        case None => ""
        case Some(q) =>
          var t := page[p + |TitleTag|..q];
          if Contains(t, "404") then "" else t
  }

  /** The title sits between the first `<title>`, at `p`, and the first `<` after it, at `q`. */
  predicate TitleMatch(page: string, p: nat, q: nat) {
    && OccursAt(page, TitleTag, p)
    && (forall j :: 0 <= j < p ==> !OccursAt(page, TitleTag, j))
    && p + |TitleTag| <= q < |page| && page[q] == '<'
    && '<' !in page[p + |TitleTag|..q]
  }

  lemma OccursAtChar(s: string, c: char, i: nat)
    ensures OccursAt(s, [c], i) <==> i < |s| && s[i] == c
  {
    if i < |s| {
      assert s[i..i + 1] == [s[i]];
    }
  }

  lemma InSlice(s: string, lo: nat, hi: nat, k: nat)
    requires lo <= k < hi <= |s|
    ensures s[k] in s[lo..hi]
  {
    assert s[lo..hi][k - lo] == s[k];
  }

  /** The first `c` at or after `from` is at `q` when `c` does not occur in between. */
  lemma FirstCharAt(s: string, c: char, from: nat, q: nat)
    requires from <= q < |s| && s[q] == c && c !in s[from..q]
    ensures FindFrom(s, [c], from) == Some(q)
  {
    OccursAtChar(s, c, q);
    var r := FindFrom(s, [c], from);
    OccursAtChar(s, c, r.value);
    if r.value < q {
      InSlice(s, from, q, r.value);
      assert false;
    }
  }

  /** The first occurrence of `pat` is the one nothing precedes. */
  lemma FirstOccurrenceAt(s: string, pat: string, p: nat)
    requires OccursAt(s, pat, p) && forall j :: 0 <= j < p ==> !OccursAt(s, pat, j)
    ensures FindFrom(s, pat, 0) == Some(p)
  {
  }

  /**
   * When the pattern matches, the title is the enclosed text, unless that
   * text mentions `404`.
   */
  lemma PageTitleOfMatch(page: string, p: nat, q: nat)
    requires TitleMatch(page, p, q)
    ensures PageTitle(page) == (if Contains(page[p + |TitleTag|..q], "404") then "" else page[p + |TitleTag|..q])
  {
    FirstOccurrenceAt(page, TitleTag, p);
    FirstCharAt(page, '<', p + |TitleTag|, q);
  }

  /** When nothing matches, there is no title. */
  lemma PageTitleNoMatch(page: string)
    requires forall p: nat, q: nat :: !TitleMatch(page, p, q)
    ensures PageTitle(page) == ""
  {
    if page != "" {
      var r := FindFrom(page, TitleTag, 0);
      if r.Some? {
        var p := r.value;
        var r' := FindFrom(page, "<", p + |TitleTag|);
        if r'.Some? {
          var q := r'.value;
          OccursAtChar(page, '<', q);
          forall k | p + |TitleTag| <= k < q
            ensures page[k] != '<'
          {
            OccursAtChar(page, '<', k);
          }
          assert TitleMatch(page, p, q);
          assert false;
        }
      }
    }
  }

  /** A title never holds a `<` and never mentions `404`. */
  lemma PageTitleShape(page: string)
    ensures '<' !in PageTitle(page)
    ensures !Contains(PageTitle(page), "404")
  {
    var t := PageTitle(page);
    if t != "" {
      var p := FindFrom(page, TitleTag, 0).value;
      var q := FindFrom(page, "<", p + |TitleTag|).value;
      assert t == page[p + |TitleTag|..q];
      forall k | 0 <= k < |t|
        ensures t[k] != '<'
      {
        OccursAtChar(page, '<', p + |TitleTag| + k);
      }
    } else {
      assert !OccursAt(t, "404", 0);
      assert FindFrom(t, "404", 0) == None;
    }
  }

  /** A text that starts with `pat` contains it. */
  lemma StartsWithContains(t: string, pat: string)
    requires |pat| <= |t| && t[..|pat|] == pat
    ensures Contains(t, pat)
  {
    assert OccursAt(t, pat, 0);
  }

  /** A page whose title mentions `404` has none. */
  lemma PageTitleNotFoundExample()
    ensures PageTitle(TitleTag + "404 Not Found" + "</title>") == ""
  {
    var t, rest := "404 Not Found", "</title>";
    var page := TitleTag + t + rest;
    assert page[..|TitleTag|] == TitleTag;
    assert page[|TitleTag|..|TitleTag| + |t|] == t;
    assert page[|TitleTag| + |t|] == rest[0] == '<';
    assert '<' !in t;
    StartsWithContains(t, "404");
    assert TitleMatch(page, 0, |TitleTag| + |t|);
    PageTitleOfMatch(page, 0, |TitleTag| + |t|);
  }

  // ------------------------------------------------------------ the page URL

  /** The URL `GetTitle` fetches in the source: proxy and address run together. */
  function TitleUrlAsWritten(proxy: string, ip: string): string {
    proxy + ip
  }

  /** Two different proxy/target pairs fetch the same URL. */
  lemma TitleUrlAsWrittenCollides()
    ensures ("10.0.0.5", "192.168.1.2") != ("10.0.0.51", "92.168.1.2")
    ensures TitleUrlAsWritten("10.0.0.5", "192.168.1.2") == TitleUrlAsWritten("10.0.0.51", "92.168.1.2")
  {
  }

  /**
   * The evidently intended URL: the `proxy/proxy/ip` form the FPP and Falcon
   * probes use for the same target, or `ip` direct. The probe below fetches
   * the URL as written.
   */
  function TitleUrl(proxy: string, ip: string): string {
    ProxiedUrl(proxy, ip)
  }

  /** With slash-free proxies and addresses, the corrected URL names its proxy and target uniquely. */
  lemma TitleUrlInjective(proxy1: string, ip1: string, proxy2: string, ip2: string)
    requires '/' !in proxy1 && '/' !in proxy2 && '/' !in ip1 && '/' !in ip2
    requires TitleUrl(proxy1, ip1) == TitleUrl(proxy2, ip2)
    ensures proxy1 == proxy2 && ip1 == ip2
  {
    ProxiedUrlInjective(proxy1, ip1, proxy2, ip2);
  }

  // ------------------------------------------------------------ the probe

  /** The record of a host that accepted the connection. */
  function HttpRecord(ip: string, port: int, title: string): seq<Field> {
    [Field("IP", ip), Field("Type", "HTTP"), Field("Port", FormatInt(port)), Field("Web", "OK")]
      + (if title != "" then [Field("Title", title)] else [])
  }

  /** Keys IP, Type, Port, Web and, with a title, Title; the port reads back as the number. */
  lemma HttpRecordShape(ip: string, port: int, title: string)
    ensures var r := HttpRecord(ip, port, title);
      && Keys(r) == ["IP", "Type", "Port", "Web"] + (if title != "" then ["Title"] else [])
      && Atoi(r[2].value) == port
      && KeepLast(r) == r
  {
    var r := HttpRecord(ip, port, title);
    assert Keys(r) == ["IP", "Type", "Port", "Web"] + (if title != "" then ["Title"] else []);
    assert NoDup(Keys(r));
    KeepLastOfDistinct(r);
    AtoiFormatInt(port);
  }

  lemma HttpRecordPublished(ip: string, port: int, title: string)
    ensures var r := HttpRecord(ip, port, title); r != [] && KeepLast(r) == r
  {
    HttpRecordShape(ip, port, title);
  }

  /**
   * `HTTPWork::GetTitle`: fetch the page at the URL as written (a failed
   * fetch reads as an empty page) and read its title.
   */
  method GetTitle(ip: string, proxy: string, fetch: string -> string) returns (title: string)
    ensures title == PageTitle(fetch(TitleUrlAsWritten(proxy, ip)))
    ensures '<' !in title && !Contains(title, "404")
  {
    var page := fetch(proxy + ip);
    title := PageTitle(page);
    PageTitleShape(page);
  }

  /** The follow-up probes for a host that answers on HTTP. */
  function FollowUps(ip: string, proxy: string): seq<Work> {
    [FPPWork(ip, proxy), FalconWork(ip, proxy), XScheduleWork(ip, HttpPort)]
  }

  /**
   * Without a client, or when the connect fails, nothing happens. Otherwise
   * the record with the page's title is published and the three follow-up
   * probes go to the back of the other lane's queue.
   */
  method DoHttpWork(wm: WorkManager, ip: string, port: int, proxy: string,
                    hasClient: bool, connects: bool, fetch: string -> string)
    requires wm.Valid()
    modifies wm`published, wm`queuePing, wm`queueMain, wm`queueOther
    ensures wm.Valid()
    ensures wm.queuePing == old(wm.queuePing) && wm.queueMain == old(wm.queueMain)
    ensures !(hasClient && connects) ==> wm.published == old(wm.published) && wm.queueOther == old(wm.queueOther)
    ensures hasClient && connects ==>
      && wm.published == old(wm.published) + [HttpRecord(ip, port, PageTitle(fetch(TitleUrlAsWritten(proxy, ip))))]
      && wm.queueOther == old(wm.queueOther) + FollowUps(ip, proxy)
  {
    if hasClient && connects {
      var results := [Field("IP", ip), Field("Type", "HTTP"), Field("Port", FormatInt(port)), Field("Web", "OK")];
      var title := GetTitle(ip, proxy, fetch);
      if title != "" {
        results := results + [Field("Title", title)];
      }
      assert results == HttpRecord(ip, port, title);
      HttpRecordPublished(ip, port, title);
      PublishResult(wm, results);
      QueueFollowUps(wm, ip, proxy);
    }
  }

  /** The three `AddWork` calls of a host that answered: FPP, Falcon and xSchedule, in that order. */
  method QueueFollowUps(wm: WorkManager, ip: string, proxy: string)
    requires wm.Valid()
    modifies wm`queuePing, wm`queueMain, wm`queueOther
    ensures wm.Valid()
    ensures wm.queuePing == old(wm.queuePing) && wm.queueMain == old(wm.queueMain)
    ensures wm.queueOther == old(wm.queueOther) + FollowUps(ip, proxy)
  {
    wm.AddWork(FPPWork(ip, proxy));
    wm.AddWork(FalconWork(ip, proxy));
    wm.AddWork(XScheduleWork(ip, HttpPort));
  }
}
