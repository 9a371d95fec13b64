/**
 * `FalconWork`: read a Falcon controller's `status.xml` and describe it. The
 * fetch, the XML parse and Falcon's own decoders (`Falcon::DecodeMode`,
 * `Falcon::DecodeModelVersion`) are inputs; the document arrives as the list
 * of the root's child elements.
 */
module FalconProbe {
  import opened Util
  import opened Text
  import opened Results
  import opened Manager
  import opened ScanWork

  /**
   * A child element of the document root: its name, and the content of its
   * first child node, or `None` when it has no children (such elements are skipped).
   */
  datatype XmlElement = XmlElement(name: string, text: Option<string>)

  /** What the walk over the root's children has gathered: the reported entries and the settings. */
  datatype Status = Status(fields: seq<Field>, k0: int, k1: int, k2: int, p: int)

  /** One element of the walk: `m`, `fv` and `n` report an entry, `k0`, `k1`, `k2` and `p` set a number. */
  function Step(st: Status, e: XmlElement, decodeMode: int -> string): Status {
    match e.text
    case None => st
    case Some(t) =>
      if e.name == "m" then st.(fields := st.fields + [Field("Mode", decodeMode(Atoi(t)))])
      else if e.name == "k0" then st.(k0 := Atoi(t))
      else if e.name == "k1" then st.(k1 := Atoi(t))
      else if e.name == "k2" then st.(k2 := Atoi(t))
      else if e.name == "p" then st.(p := Atoi(t))
      else if e.name == "fv" then st.(fields := st.fields + [Field("Firmware Version", t)])
      else if e.name == "n" then st.(fields := st.fields + [Field("Name", t)])
      else st
  }

  /** The walk over `es`, in document order, from no entries and all settings 0. */
  function Walk(es: seq<XmlElement>, decodeMode: int -> string): Status {
    if es == [] then Status([], 0, 0, 0, 0)
    else Step(Walk(es[..|es| - 1], decodeMode), es[|es| - 1], decodeMode)
  }

  /** The value a setting ends with: `atoi` of the last element named `name` that has content, else 0. */
  function Setting(es: seq<XmlElement>, name: string): int {
    if es == [] then 0
    else if es[|es| - 1].name == name && es[|es| - 1].text.Some? then Atoi(es[|es| - 1].text.value)
    else Setting(es[..|es| - 1], name)
  }

  /** The keys the walk may report. */
  predicate ReportKey(k: string) {
    k == "Mode" || k == "Firmware Version" || k == "Name"
  }

  /** The loop over the root's children. */
  method ReadStatus(es: seq<XmlElement>, decodeMode: int -> string) returns (st: Status)
    ensures st == Walk(es, decodeMode)
  {
    st := Status([], 0, 0, 0, 0);
    var i := 0;
    while i < |es|
      invariant 0 <= i <= |es|
      invariant st == Walk(es[..i], decodeMode)
    {
      assert es[..i + 1][..i] == es[..i];
      st := Step(st, es[i], decodeMode);
      i := i + 1;
    }
    assert es[..i] == es;
  }

  /** Each setting read by the walk is the one its last element with content gives, or 0. */
  lemma {:induction false} WalkSettings(es: seq<XmlElement>, decodeMode: int -> string)
    ensures Walk(es, decodeMode).k0 == Setting(es, "k0")
    ensures Walk(es, decodeMode).k1 == Setting(es, "k1")
    ensures Walk(es, decodeMode).k2 == Setting(es, "k2")
    ensures Walk(es, decodeMode).p == Setting(es, "p")
  {
    if es != [] {
      WalkSettings(es[..|es| - 1], decodeMode);
    }
  }

  /** The walk reports only modes, firmware versions and names. */
  lemma {:induction false} WalkKeys(es: seq<XmlElement>, decodeMode: int -> string)
    ensures forall i :: 0 <= i < |Walk(es, decodeMode).fields| ==> ReportKey(Walk(es, decodeMode).fields[i].key)
  {
    if es != [] {
      WalkKeys(es[..|es| - 1], decodeMode);
    }
  }

  // ------------------------------------------------------------ banks and model

  /** The `Banks` entry: `"%d:%d:%d"` of the three bank counts, only when one of them is nonzero. */
  function BanksField(k0: int, k1: int, k2: int): seq<Field> {
    if k0 != 0 || k1 != 0 || k2 != 0 then [Field("Banks", FormatInt(k0) + ":" + FormatInt(k1) + ":" + FormatInt(k2))]
    else []
  }

  /** `wxString::Format("F%dv%d", model, version)`. */
  function ModelName(model: int, version: int): string {
    "F" + FormatInt(model) + "v" + FormatInt(version)
  }

  /** Three formatted numbers joined by a separator that `"%d"` never writes split back into the numbers. */
  lemma SplitThree(x: int, y: int, z: int, sep: char)
    requires !IsDigit(sep) && sep != '-'
    ensures var parts := Split(FormatInt(x) + [sep] + FormatInt(y) + [sep] + FormatInt(z), sep);
      |parts| == 3 && Atoi(parts[0]) == x && Atoi(parts[1]) == y && Atoi(parts[2]) == z
  {
    var ps := [FormatInt(x), FormatInt(y), FormatInt(z)];
    FormatIntHasNo(x, sep);
    FormatIntHasNo(y, sep);
    FormatIntHasNo(z, sep);
    assert ps[1..][1..] == [FormatInt(z)];
    assert JoinWith(ps[1..], sep) == FormatInt(y) + [sep] + FormatInt(z);
    assert JoinWith(ps, sep) == FormatInt(x) + [sep] + FormatInt(y) + [sep] + FormatInt(z);
    SplitJoin(ps, sep);
    AtoiFormatInt(x);
    AtoiFormatInt(y);
    AtoiFormatInt(z);
  }

  /**
   * The entry is there exactly when some count is nonzero, and its value
   * splits at `:` into the three counts again.
   */
  lemma BanksRoundTrip(k0: int, k1: int, k2: int)
    ensures BanksField(k0, k1, k2) != [] <==> k0 != 0 || k1 != 0 || k2 != 0
    ensures BanksField(k0, k1, k2) != [] ==>
      && BanksField(k0, k1, k2)[0].key == "Banks"
      && var parts := Split(BanksField(k0, k1, k2)[0].value, ':');
         |parts| == 3 && Atoi(parts[0]) == k0 && Atoi(parts[1]) == k1 && Atoi(parts[2]) == k2
  {
    if k0 != 0 || k1 != 0 || k2 != 0 {
      SplitThree(k0, k1, k2, ':');
      assert BanksField(k0, k1, k2)[0].value == FormatInt(k0) + [':'] + FormatInt(k1) + [':'] + FormatInt(k2);
    }
  }

  /** The model name is `F`, the model, `v` and the version, and reads back into both. */
  lemma ModelNameRoundTrip(model: int, version: int)
    ensures var s := ModelName(model, version);
      && |s| > 0 && s[0] == 'F'
      && var parts := Split(s[1..], 'v');
         |parts| == 2 && Atoi(parts[0]) == model && Atoi(parts[1]) == version
  {
    var s := ModelName(model, version);
    var ps := [FormatInt(model), FormatInt(version)];
    FormatIntHasNo(model, 'v');
    FormatIntHasNo(version, 'v');
    assert s[1..] == FormatInt(model) + ['v'] + FormatInt(version);
    assert JoinWith(ps, 'v') == s[1..];
    SplitJoin(ps, 'v');
    AtoiFormatInt(model);
    AtoiFormatInt(version);
  }

  // ------------------------------------------------------------ the probe

  /** A reply is a Falcon status page when it is non-empty and holds `<response>` and `<fv>`. */
  predicate IsFalconStatus(status: string) {
    status != "" && Contains(status, "<response>") && Contains(status, "<fv>")
  }

  function StatusUrl(proxy: string, ip: string): string {
    ProxyPrefix(proxy) + ip + "/status.xml"
  }

  /**
   * Everything after IP and Type for a parsed document: the walk's entries,
   * then Banks, then the model name -- except for `p == 128`, a V4 board,
   * whose description comes from a separate session (not part of this model).
   */
  function Details(st: Status, decodeModelVersion: int -> (int, int)): seq<Field> {
    st.fields + BanksField(st.k0, st.k1, st.k2)
    + (if st.p == 128 then [] else [Field("Model", ModelName(decodeModelVersion(st.p).0, decodeModelVersion(st.p).1))])
  }

  /** The record before de-duplication; an unreadable document adds nothing after IP and Type. */
  function FalconRecord(ip: string, doc: Option<seq<XmlElement>>, decodeMode: int -> string,
                        decodeModelVersion: int -> (int, int)): seq<Field> {
    [Field("IP", ip)] + ([Field("Type", "Falcon")]
      + (if doc.Some? then Details(Walk(doc.value, decodeMode), decodeModelVersion) else []))
  }

  lemma KeepLastCons(x: Field, rest: seq<Field>)
    requires x.key !in Keys(rest)
    ensures KeepLast([x] + rest) == [x] + KeepLast(rest)
  {
    var s := [x] + rest;
    assert s[0] == x;
    assert s[1..] == rest;
  }

  lemma KeysCons(x: Field, rest: seq<Field>)
    ensures Keys([x] + rest) == [x.key] + Keys(rest)
  {
  }

  /** IP and Type are never reported again after the first two entries. */
  lemma DetailKeys(st: Status, decodeModelVersion: int -> (int, int))
    requires forall i :: 0 <= i < |st.fields| ==> ReportKey(st.fields[i].key)
    ensures "IP" !in Keys(Details(st, decodeModelVersion)) && "Type" !in Keys(Details(st, decodeModelVersion))
  {
    var d := Details(st, decodeModelVersion);
    forall i | 0 <= i < |d|
      ensures d[i].key != "IP" && d[i].key != "Type"
    {
      if i < |st.fields| {
        assert d[i] == st.fields[i];
      }
    }
  }

  /** A parsed document with a nonzero bank count. */
  predicate HasBanks(doc: Option<seq<XmlElement>>, decodeMode: int -> string) {
    doc.Some? && (Walk(doc.value, decodeMode).k0 != 0 || Walk(doc.value, decodeMode).k1 != 0 || Walk(doc.value, decodeMode).k2 != 0)
  }

  /**
   * The published record starts with the address and the type, has distinct
   * keys, and holds Banks exactly for a parsed document with a nonzero bank count.
   */
  lemma FalconRecordPublished(ip: string, doc: Option<seq<XmlElement>>, decodeMode: int -> string,
                              decodeModelVersion: int -> (int, int))
    ensures |KeepLast(FalconRecord(ip, doc, decodeMode, decodeModelVersion))| >= 2
    ensures KeepLast(FalconRecord(ip, doc, decodeMode, decodeModelVersion))[0] == Field("IP", ip)
    ensures KeepLast(FalconRecord(ip, doc, decodeMode, decodeModelVersion))[1] == Field("Type", "Falcon")
    ensures NoDup(Keys(KeepLast(FalconRecord(ip, doc, decodeMode, decodeModelVersion))))
    ensures "Banks" in Keys(KeepLast(FalconRecord(ip, doc, decodeMode, decodeModelVersion))) <==> HasBanks(doc, decodeMode)
  {
    var rec := FalconRecord(ip, doc, decodeMode, decodeModelVersion);
    var d := if doc.Some? then Details(Walk(doc.value, decodeMode), decodeModelVersion) else [];
    if doc.Some? {
      WalkKeys(doc.value, decodeMode);
      DetailKeys(Walk(doc.value, decodeMode), decodeModelVersion);
    }
    KeysCons(Field("Type", "Falcon"), d);
    KeepLastCons(Field("Type", "Falcon"), d);
    KeepLastCons(Field("IP", ip), [Field("Type", "Falcon")] + d);
    KeepLastDistinct(rec);
    KeepLastKeys(rec, "Banks");
    BanksPresence(ip, doc, decodeMode, decodeModelVersion);
  }

  lemma BanksPresence(ip: string, doc: Option<seq<XmlElement>>, decodeMode: int -> string,
                      decodeModelVersion: int -> (int, int))
    ensures "Banks" in Keys(FalconRecord(ip, doc, decodeMode, decodeModelVersion)) <==> HasBanks(doc, decodeMode)
  {
    var rec := FalconRecord(ip, doc, decodeMode, decodeModelVersion);
    if doc.Some? {
      var st := Walk(doc.value, decodeMode);
      WalkKeys(doc.value, decodeMode);
      var b := BanksField(st.k0, st.k1, st.k2);
      var i := 2 + |st.fields|;
      if b != [] {
        assert rec[i] == b[0];
      }
      forall j | 0 <= j < |rec| && (b == [] || j != i)
        ensures rec[j].key != "Banks"
      {
        if 2 <= j < i {
          assert rec[j] == st.fields[j - 2];
        }
      }
    }
  }

  /**
   * The probe: fetch `status.xml` (through the proxy when there is one). A
   * Falcon status page publishes the record's last entry per key; anything
   * else publishes nothing.
   */
  method DoFalconWork(wm: WorkManager, ip: string, proxy: string, fetch: string -> string,
                      parse: string -> Option<seq<XmlElement>>, decodeMode: int -> string,
                      decodeModelVersion: int -> (int, int))
    requires wm.Valid()
    modifies wm`published
    ensures wm.Valid()
    ensures var status := fetch(StatusUrl(proxy, ip));
      wm.published == old(wm.published)
        + (if IsFalconStatus(status) then [KeepLast(FalconRecord(ip, parse(status), decodeMode, decodeModelVersion))] else [])
  {
    var status := fetch(StatusUrl(proxy, ip));
    if IsFalconStatus(status) {
      var doc := parse(status);
      var details := [];
      if doc.Some? {
        details := Describe(doc.value, decodeMode, decodeModelVersion);
      }
      var results := [Field("IP", ip)] + ([Field("Type", "Falcon")] + details);
      assert results == FalconRecord(ip, doc, decodeMode, decodeModelVersion);
      PublishResult(wm, results);
    }
  }

  /** The entries a parsed status document contributes, in the order the probe appends them. */
  method Describe(es: seq<XmlElement>, decodeMode: int -> string, decodeModelVersion: int -> (int, int))
    returns (details: seq<Field>)
    ensures details == Details(Walk(es, decodeMode), decodeModelVersion)
  {
    var st := ReadStatus(es, decodeMode);
    details := st.fields;
    if st.k0 != 0 || st.k1 != 0 || st.k2 != 0 {
      details := details + [Field("Banks", FormatInt(st.k0) + ":" + FormatInt(st.k1) + ":" + FormatInt(st.k2))];
    }
    var (model, version) := decodeModelVersion(st.p);
    if st.p != 128 {
      details := details + [Field("Model", ModelName(model, version))];
    }
  }
}
