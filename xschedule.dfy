/**
 * `xScheduleWork`: ask a host for xSchedule's playing status. The fetch and
 * the JSON parse are inputs; the parse is seen only through the `version`
 * member it yields.
 */
module XScheduleProbe {
  import opened Util
  import opened Text
  import opened Results
  import opened Manager
  import opened ScanWork

  function QueryUrl(ip: string, port: int): string {
    ip + ":" + FormatInt(port) + "/xScheduleQuery?Query=getplayingstatus"
  }

  /** An answer counts as xSchedule's when it is a non-empty JSON object text. */
  predicate IsXScheduleReply(xs: string) {
    xs != "" && xs[0] == '{'
  }

  /**
   * The record: IP, Type, Port and, when the reply parsed, its `version`
   * (which reads as "" when the member is missing).
   */
  function XScheduleRecord(ip: string, port: int, version: Option<string>): seq<Field> {
    [Field("IP", ip), Field("Type", "xSchedule"), Field("Port", FormatInt(port))]
    + (if version.Some? then [Field("Version", version.value)] else [])
  }

  /** The keys are distinct, so publishing keeps the record whole; the port reads back as the number. */
  lemma XScheduleRecordShape(ip: string, port: int, version: Option<string>)
    ensures Keys(XScheduleRecord(ip, port, version)) == ["IP", "Type", "Port"] + (if version.Some? then ["Version"] else [])
    ensures KeepLast(XScheduleRecord(ip, port, version)) == XScheduleRecord(ip, port, version)
    ensures Atoi(XScheduleRecord(ip, port, version)[2].value) == port
  {
    var r := XScheduleRecord(ip, port, version);
    assert Keys(r) == ["IP", "Type", "Port"] + (if version.Some? then ["Version"] else []);
    assert NoDup(Keys(r));
    KeepLastOfDistinct(r);
    AtoiFormatInt(port);
  }

  lemma XScheduleRecordPublished(ip: string, port: int, version: Option<string>)
    ensures var r := XScheduleRecord(ip, port, version); r != [] && KeepLast(r) == r
  {
    XScheduleRecordShape(ip, port, version);
  }

  /** The probe publishes the record for an xSchedule answer and nothing otherwise. */
  method DoXScheduleWork(wm: WorkManager, ip: string, port: int, fetch: string -> string,
                         parseVersion: string -> Option<string>)
    requires wm.Valid()
    modifies wm`published
    ensures wm.Valid()
    ensures var xs := fetch(QueryUrl(ip, port));
      wm.published == old(wm.published)
        + (if IsXScheduleReply(xs) then [XScheduleRecord(ip, port, parseVersion(xs))] else [])
  {
    var xs := fetch(QueryUrl(ip, port));
    if IsXScheduleReply(xs) {
      var results := [Field("IP", ip), Field("Type", "xSchedule"), Field("Port", FormatInt(port))];
      var version := parseVersion(xs);
      if version.Some? {
        results := results + [Field("Version", version.value)];
      }
      assert results == XScheduleRecord(ip, port, version);
      XScheduleRecordPublished(ip, port, version);
      PublishResult(wm, results);
    }
  }
}
