/**
  What a client gets: the answers of the HTTP service read back from their texts, and compared with what
  the store holds (http-server.cpp).
 */
module Answers {
  import opened Bytes
  import opened Keys
  import opened Rows
  import opened Seqs
  import opened LogStore
  import opened OtherScans
  import opened Agreement
  import opened MacText
  import opened Json
  import opened JsonReader
  import opened Histogram
  import opened Callbacks
  import opened Paging
  import opened Http

  // ---- What a filter reports ----------------------------------------------------------------

  lemma ParsedFilter(text: string, p: Prefix)
    requires WrittenAs(text, p)
    ensures FilterPrefix(text) == p
  {
    WrittenIsRead(text, p, 6);
  }

  /** A log request reports, for a filter that writes a MAC prefix, the records of those MACs between the ends. */
  lemma {:induction false} LogAnswer(rows: seq<Row>, start: Time, finish: Time, text: string, p: Prefix, rep: Report)
    requires WellFormed(rows) && WrittenAs(text, p)
    ensures rep in ScanReports(rows, false, start, finish, text)
            <==> rep.data.Some? && Logged(rows, rep.sa, rep.dt, rep.data.value)
                 && p <= rep.sa && Asked(start, finish, rep.dt) && (|p| == 6 ==> start <= rep.dt)
  {
    hide ReadRows, Logged, WrittenAs, FilterPrefix, Asked;
    ParsedFilter(text, p);
    if rep.data.Some? {
      ReadReports(rows, p, start, finish, rep.sa, rep.dt, rep.data.value);
    } else {
      LogHasData(rows, p, start, finish, rep);
    }
  }

  lemma LogHasData(rows: seq<Row>, p: Prefix, start: Time, finish: Time, rep: Report)
    requires WellFormed(rows)
    ensures rep in LogReports(ReadRows(rows, p, start, finish)) ==> rep.data.Some?
  {
    var got := ReadRows(rows, p, start, finish);
    if rep in LogReports(got) {
      var i :| 0 <= i < |got| && LogReports(got)[i] == rep;
      assert got[i] in got;
    }
  }

  /**
    A last-probe request reports, in a store without notifications, the last probes of those MACs between
    the ends, and no data.
   */
  lemma {:induction false} ProbeAnswer(rows: seq<Row>, start: Time, finish: Time, text: string, p: Prefix, rep: Report)
    requires WellFormed(rows) && Agreement.NoNotes(rows) && WrittenAs(text, p)
    ensures rep in ScanReports(rows, true, start, finish, text)
            <==> rep.data == None && ProbeAt(rows, rep.sa, rep.dt) && p <= rep.sa && Asked(start, finish, rep.dt)
  {
    hide ProbeRows, ProbeAt, WrittenAs, FilterPrefix, Asked;
    ParsedFilter(text, p);
    ProbeReads(rows, p, start, finish, rep.sa, rep.dt, rep.data);
  }

  /** With or without notifications it never reports data. */
  lemma ProbesHaveNoData(rows: seq<Row>, start: Time, finish: Time, text: string)
    ensures forall rep :: rep in ScanReports(rows, true, start, finish, text) ==> rep.data == None
  {
    hide ProbeRows;
  }

  /** There is one scan for each filter, in their order. */
  lemma {:induction false} ScansAt(rows: seq<Row>, probes: bool, start: Time, finish: Time, filters: seq<string>, i: nat)
    requires i < |filters|
    ensures ScansOf(rows, probes, start, finish, filters)[i] == ScanReports(rows, probes, start, finish, filters[i])
  {
    hide ScanReports;
    var n := |filters| - 1;
    if i < n {
      ScansAt(rows, probes, start, finish, filters[..n], i);
    }
  }

  // ---- A record in the answer ---------------------------------------------------------------

  /** The value is the MAC in quotes. */
  ghost predicate Quoted(value: string, sa: Mac) {
    |value| >= 2 && value[0] == '"' && value[|value| - 1] == '"' && WrittenAs(value[1..|value| - 1], sa)
  }

  /** The object shows the report: its MAC, its time, and its device and signal if it has them. */
  ghost predicate Shows(fields: seq<Field>, r: Report) {
    && Lookup(fields, "sa").Some? && Quoted(Lookup(fields, "sa").value, r.sa)
    && IntField(fields, "dt") == Some(r.dt)
    && (r.data.Some? ==> IntField(fields, "device_id") == Some(r.data.value.deviceId)
                         && IntField(fields, "ssi_signal") == Some(r.data.value.ssiSignal))
    && (r.data.None? ==> Lookup(fields, "device_id") == None && Lookup(fields, "ssi_signal") == None)
  }

  function QuotedMac(sa: Mac): string {
    "\"" + MacToStr(sa) + "\""
  }

  function DataFields(d: LogData): seq<Field> {
    [Field("device_id", Dec(d.deviceId)), Field("ssi_signal", Dec(d.ssiSignal))]
  }

  function ReportFields(r: Report): seq<Field> {
    [Field("sa", QuotedMac(r.sa)), Field("dt", Dec(r.dt))] + if r.data.Some? then DataFields(r.data.value) else []
  }

  lemma QuotedMacIs(sa: Mac)
    ensures Quoted(QuotedMac(sa), sa) && PlainValue(QuotedMac(sa))
  {
    hide MacToStr, PrefixText, WrittenAs;
    PrintersAgree(sa);
    PrintedIsWritten(sa);
    assert QuotedMac(sa)[1..|QuotedMac(sa)| - 1] == MacToStr(sa);
    MacPlain(sa);
  }

  lemma {:induction false} MacPlain(p: seq<Byte>)
    ensures PlainValue(PrefixText(p))
  {
    if p != [] {
      DigitPlainValue(p[0] / 16);
      DigitPlainValue(p[0] % 16);
      MacPlain(p[1..]);
      assert Hex2(p[0]) == [HEX_DIGITS[p[0] / 16], HEX_DIGITS[p[0] % 16]];
    }
  }

  lemma DigitPlainValue(n: nat)
    requires n < 16
    ensures HEX_DIGITS[n] != ',' && HEX_DIGITS[n] != '}' && HEX_DIGITS[n] != ' '
  {
    DigitValue(n);
  }

  lemma FieldsShow(r: Report)
    ensures Shows(ReportFields(r), r)
  {
    hide Quoted, Dec, QuotedMac, ReadInt;
    var fields := ReportFields(r);
    QuotedMacIs(r.sa);
    DecRoundTrip(r.dt);
    assert fields[0] == Field("sa", QuotedMac(r.sa)) && fields[1..][0] == Field("dt", Dec(r.dt));
    assert Lookup(fields, "dt") == Lookup(fields[1..], "dt");
    var rest := if r.data.Some? then DataFields(r.data.value) else [];
    assert fields[1..][1..] == rest;
    assert Lookup(fields, "device_id") == Lookup(fields[1..], "device_id") == Lookup(rest, "device_id");
    assert Lookup(fields, "ssi_signal") == Lookup(fields[1..], "ssi_signal") == Lookup(rest, "ssi_signal");
    if r.data.Some? {
      DataShown(r.data.value);
    }
  }

  lemma DataShown(d: LogData)
    ensures IntField(DataFields(d), "device_id") == Some(d.deviceId)
    ensures IntField(DataFields(d), "ssi_signal") == Some(d.ssiSignal)
  {
    hide Dec, ReadInt;
    DecRoundTrip(d.deviceId);
    DecRoundTrip(d.ssiSignal);
    var last := [Field("ssi_signal", Dec(d.ssiSignal))];
    assert DataFields(d)[1..] == last && Lookup(last, "ssi_signal") == Some(Dec(d.ssiSignal));
  }

  /** The text of the fields of a report, from its first one on. */
  function FieldText(name: string, value: string, tail: string): string {
    "\"" + (name + ("\":" + (value + tail)))
  }

  lemma FieldIs(name: string, value: string, tail: string)
    ensures FieldText(name, value, tail) == "\"" + name + "\":" + value + tail
  {
    assert "\"" + (name + ("\":" + (value + tail))) == ("\"" + name + "\":") + (value + tail);
  }

  lemma DataTextIs(device: string, signal: string, end: string)
    ensures ",\"device_id\":" + device + ",\"ssi_signal\":" + signal + end
            == "," + FieldText("device_id", device, "," + FieldText("ssi_signal", signal, end))
  {
    FieldIs("ssi_signal", signal, end);
    var t := "," + FieldText("ssi_signal", signal, end);
    assert t == ",\"ssi_signal\":" + signal + end;
    FieldIs("device_id", device, t);
    assert "," + ("\"" + "device_id" + "\":" + device + t) == ",\"device_id\":" + device + t;
    assert ",\"device_id\":" + device + (",\"ssi_signal\":" + signal + end)
           == ",\"device_id\":" + device + ",\"ssi_signal\":" + signal + end;
  }

  lemma HeadTextIs(mac: string, time: string, rest: string)
    ensures "{\"sa\":\"" + mac + "\",\"dt\":" + time + rest
            == "{" + FieldText("sa", "\"" + mac + "\"", "," + FieldText("dt", time, rest))
  {
    FieldIs("dt", time, rest);
    var t := "," + FieldText("dt", time, rest);
    assert t == ",\"dt\":" + time + rest;
    FieldIs("sa", "\"" + mac + "\"", t);
    assert "{" + ("\"" + "sa" + "\":" + ("\"" + mac + "\"") + t) == "{\"sa\":\"" + mac + "\"" + t;
    assert "{\"sa\":\"" + mac + "\"" + (",\"dt\":" + time + rest) == "{\"sa\":\"" + mac + "\",\"dt\":" + time + rest;
  }

  lemma ReportTextIs(r: Report, tail: string)
    ensures ReportText(r) != "" && ReportText(r)[0] == '{'
    ensures var end := "}" + tail;
            ReportText(r)[1..] + tail
            == FieldText("sa", QuotedMac(r.sa), "," + FieldText("dt", Dec(r.dt),
                 if r.data.Some?
                 then "," + FieldText("device_id", Dec(r.data.value.deviceId),
                              "," + FieldText("ssi_signal", Dec(r.data.value.ssiSignal), end))
                 else end))
  {
    hide MacToStr, Dec, FieldText;
    var m, d, end := MacToStr(r.sa), Dec(r.dt), "}" + tail;
    var head := "{\"sa\":\"" + m + "\",\"dt\":" + d;
    if r.data.Some? {
      var device, signal := Dec(r.data.value.deviceId), Dec(r.data.value.ssiSignal);
      var data := ",\"device_id\":" + device + ",\"ssi_signal\":" + signal;
      DataTextIs(device, signal, end);
      HeadTextIs(m, d, data + end);
      assert ReportText(r) == head + data + "}";
      BraceThenTail(head + data, tail);
      assert head + data + end == head + (data + end);
    } else {
      HeadTextIs(m, d, end);
      assert ReportText(r) == head + "" + "}" == head + "}";
      BraceThenTail(head, tail);
    }
  }

  lemma BraceThenTail(head: string, tail: string)
    requires head != ""
    ensures (head + "}")[1..] + tail == (head + ("}" + tail))[1..]
  {
  }

  /** The text of a report is an object that shows it. */
  lemma {:induction false} ReportObject(r: Report)
    ensures IsObject(ReportText(r), ReportFields(r))
  {
    hide ReportText, ReadFields, Dec, MacToStr, FieldText;
    ReportTextIs(r, "");
    forall tail: string ensures ReadFields(ReportText(r)[1..] + tail) == Read(ReportFields(r), tail) {
      ReportTextIs(r, tail);
      ReportRead(r, tail);
    }
  }

  lemma ReportRead(r: Report, tail: string)
    ensures var end := "}" + tail;
            ReadFields(FieldText("sa", QuotedMac(r.sa), "," + FieldText("dt", Dec(r.dt),
                 if r.data.Some?
                 then "," + FieldText("device_id", Dec(r.data.value.deviceId),
                              "," + FieldText("ssi_signal", Dec(r.data.value.ssiSignal), end))
                 else end)))
            == Read(ReportFields(r), tail)
  {
    hide ReadFields, Dec, MacToStr, QuotedMac, PlainValue, FieldText;
    var end := "}" + tail;
    assert end[1..] == tail;
    QuotedMacIs(r.sa);
    DecRoundTrip(r.dt);
    if r.data.Some? {
      var d := r.data.value;
      DecRoundTrip(d.deviceId);
      DecRoundTrip(d.ssiSignal);
      var t4 := FieldText("ssi_signal", Dec(d.ssiSignal), end);
      NextField("ssi_signal", Dec(d.ssiSignal), end);
      assert ReadFields(t4) == Read([Field("ssi_signal", Dec(d.ssiSignal))], tail);
      var t3 := FieldText("device_id", Dec(d.deviceId), "," + t4);
      NextField("device_id", Dec(d.deviceId), "," + t4);
      assert ReadFields(t3) == Read(DataFields(d), tail);
      var t2 := FieldText("dt", Dec(r.dt), "," + t3);
      NextField("dt", Dec(r.dt), "," + t3);
      NextField("sa", QuotedMac(r.sa), "," + t2);
      assert ReportFields(r) == [Field("sa", QuotedMac(r.sa))] + ([Field("dt", Dec(r.dt))] + DataFields(d));
    } else {
      var t2 := FieldText("dt", Dec(r.dt), end);
      NextField("dt", Dec(r.dt), end);
      NextField("sa", QuotedMac(r.sa), "," + t2);
      assert ReportFields(r) == [Field("sa", QuotedMac(r.sa))] + [Field("dt", Dec(r.dt))];
    }
  }

  lemma NextField(name: string, value: string, tail: string)
    requires '"' !in name && PlainValue(value) && tail != "" && tail[0] in ",}"
    ensures ReadFields(FieldText(name, value, tail))
            == if tail[0] == '}' then Read([Field(name, value)], tail[1..])
               else match ReadFields(tail[1..])
                 case Bad => Bad
                 case Read(fields, rest) => Read([Field(name, value)] + fields, rest)
    ensures tail[0] == ',' ==> forall t: string :: tail == "," + t ==> tail[1..] == t
  {
    hide ReadFields;
    var t := FieldText(name, value, tail);
    assert "" + t == t;
    ReadField("", name, value, tail);
  }

  // ---- Whole answers --------------------------------------------------------------------------

  /** The objects show the reports, one each, in their order. */
  ghost predicate AllShown(objects: seq<seq<Field>>, reports: seq<Report>) {
    |objects| == |reports| && forall i :: 0 <= i < |objects| ==> Shows(objects[i], reports[i])
  }

  /** A list of reports is read back from its text. */
  lemma {:induction false} ReportsReadBack(reports: seq<Report>) returns (objects: seq<seq<Field>>)
    ensures ReadList(ListText(Texts(reports))) == Some(objects) && AllShown(objects, reports)
  {
    hide Shows, IsObject, ReadList, ListText, ReportText;
    objects := Map(ReportFields, reports);
    forall i | 0 <= i < |reports| ensures IsObject(Texts(reports)[i], objects[i]) && Shows(objects[i], reports[i]) {
      ReportObject(reports[i]);
      FieldsShow(reports[i]);
    }
    ReadListText(Texts(reports), objects);
  }

  /** The count in force: the configured one for a request without a count. */
  lemma CountInForce(count: int, configCount: SizeT)
    ensures count == 0 ==> PageCount(count, configCount) == configCount
    ensures 0 < count < TWO_TO_THE_64 ==> PageCount(count, configCount) == count
    ensures -TWO_TO_THE_64 < count < 0 ==> PageCount(count, configCount) == TWO_TO_THE_64 + count
  {
  }

  /**
    What a record request is answered with: read as JSON, the answer shows the records at the positions asked
    for among those of all filters, one after the other; a request without a count gets the configured number.
   */
  lemma {:induction false} RecordAnswer(rows: seq<Row>, probes: bool, params: RequestParams, configCount: SizeT)
    returns (objects: seq<seq<Field>>)
    requires params.offset >= 0 && params.count >= 0
    requires params.offset + (if params.count == 0 then configCount else params.count) < TWO_TO_THE_64
    ensures var scans := ScansOf(rows, probes, params.start, params.finish, params.sa);
            var n := if params.count == 0 then configCount else params.count;
            var page := Page(0, ToSizeT(params.offset), PageCount(params.count, configCount));
            && ReadList(ListText(Texts(WalkAll(true, page, scans).out))) == Some(objects)
            && AllShown(objects, Slice(Flatten(scans), params.offset, n))
  {
    hide ReadList, ListText, AllShown, ScansOf, WalkAll, Flatten;
    CountInForce(params.count, configCount);
    PageAnswer(rows, probes, params, configCount);
    var scans := ScansOf(rows, probes, params.start, params.finish, params.sa);
    objects := ReportsReadBack(WalkAll(true, Page(0, ToSizeT(params.offset), PageCount(params.count, configCount)), scans).out);
  }

  /** The element of a slice. */
  lemma SliceAt<T>(s: seq<T>, o: nat, n: nat, i: nat)
    ensures |Slice(s, o, n)| == if |s| <= o then 0 else Min(n, |s| - o)
    ensures i < |Slice(s, o, n)| ==> Slice(s, o, n)[i] == s[o + i]
  {
  }

  /** The number of records of the first k filters together. */
  function TotalOf(scans: seq<seq<Report>>, k: nat): nat
    requires k <= |scans|
  {
    |Flatten(scans[..k])|
  }

  /** Each scan adds its number of records. */
  lemma {:induction false} TotalNext(scans: seq<seq<Report>>, k: nat)
    requires k < |scans|
    ensures TotalOf(scans, 0) == 0
    ensures TotalOf(scans, k + 1) == TotalOf(scans, k) + |scans[k]|
  {
    assert scans[..k + 1] == scans[..k] + [scans[k]];
    assert scans[..k + 1][..k] == scans[..k];
  }

  /** The first k filters have brought n records. */
  ghost predicate TotalIs(scans: seq<seq<Report>>, k: int, n: int) {
    0 <= k <= |scans| && TotalOf(scans, k) == n
  }

  /** One number for each filter from the first one on that has brought a record: the total so far. */
  ghost predicate RunningTotals(scans: seq<seq<Report>>, ns: seq<int>) {
    && |ns| <= |scans|
    && (forall k :: 0 <= k <= |scans| - |ns| ==> TotalIs(scans, k, 0))
    && forall j :: 0 <= j < |ns| ==> ns[j] > 0 && TotalIs(scans, |scans| - |ns| + j + 1, ns[j])
  }

  /**
    What a count request is answered with: the running totals of the filters' numbers of records, from the
    first filter on that has brought any.
   */
  lemma {:induction false} CountAnswer(scans: seq<seq<Report>>) returns (ns: seq<int>)
    ensures ReadNumbers(ListText(CountTexts(scans))) == Some(ns) && RunningTotals(scans, ns)
  {
    hide ReadNumbers, ListText, Dec, RunningTotals, CountTexts;
    ns := CountNumbers(scans);
    ReadNumberTexts(ns, CountTexts(scans));
  }

  lemma {:induction false} CountNumbers(scans: seq<seq<Report>>) returns (ns: seq<int>)
    ensures |ns| == |CountTexts(scans)| && RunningTotals(scans, ns)
    ensures forall i :: 0 <= i < |ns| ==> CountTexts(scans)[i] == Dec(ns[i])
  {
    hide Dec, RunningTotals, Flatten;
    if scans == [] {
      ns := [];
      NoTotal(scans);
    } else {
      var before := CountNumbers(scans[..|scans| - 1]);
      ns := before + if |Flatten(scans)| == 0 then [] else [|Flatten(scans)|];
      TotalsNext(scans, before);
    }
  }

  lemma TotalsNext(scans: seq<seq<Report>>, before: seq<int>)
    requires scans != [] && RunningTotals(scans[..|scans| - 1], before)
    ensures RunningTotals(scans, before + if |Flatten(scans)| == 0 then [] else [|Flatten(scans)|])
  {
    hide TotalOf, Flatten, TotalIs;
    var n, m := |scans| - 1, |before|;
    var ns := before + if |Flatten(scans)| == 0 then [] else [|Flatten(scans)|];
    TotalOfAll(scans);
    if m > 0 {
      TotalIsOfFirst(scans, n, before[m - 1]);
    }
    forall k | 0 <= k <= |scans| - |ns| ensures TotalIs(scans, k, 0) {
      if k <= n {
        TotalIsOfFirst(scans, k, 0);
      }
    }
    forall j | 0 <= j < |ns| ensures ns[j] > 0 && TotalIs(scans, |scans| - |ns| + j + 1, ns[j]) {
      if j < m {
        TotalIsOfFirst(scans, n - m + j + 1, before[j]);
      }
    }
  }

  lemma TotalIsOfFirst(scans: seq<seq<Report>>, k: int, n: int)
    requires scans != [] && 0 <= k < |scans|
    ensures TotalIs(scans[..|scans| - 1], k, n) <==> TotalIs(scans, k, n)
    ensures TotalIs(scans, k, n) && k == |scans| - 1 ==> n <= |Flatten(scans)|
  {
    hide Flatten;
    assert scans[..|scans| - 1][..k] == scans[..k];
    TotalOfAll(scans);
  }

  lemma NoTotal(scans: seq<seq<Report>>)
    requires scans == []
    ensures RunningTotals(scans, [])
  {
  }

  lemma TotalOfAll(scans: seq<seq<Report>>)
    requires scans != []
    ensures TotalIs(scans, |scans|, |Flatten(scans)|) && TotalOf(scans, |scans| - 1) <= |Flatten(scans)|
  {
    assert scans[..|scans|] == scans;
  }

  // ---- The histogram ----------------------------------------------------------------------------

  function BucketFields(p: Params, b: map<int, nat>, k: int): seq<Field> {
    [Field("t", Dec(Label(p, k))), Field("c", Dec(Count(b, k)))]
  }

  /** The object shows a count at a time. */
  predicate ShowsCount(fields: seq<Field>, t: int, c: int) {
    IntField(fields, "t") == Some(t) && IntField(fields, "c") == Some(c)
  }

  lemma BucketFieldsShow(p: Params, b: map<int, nat>, k: int)
    ensures ShowsCount(BucketFields(p, b, k), Label(p, k), Count(b, k))
  {
    hide Dec, ReadInt, Label, Count;
    DecRoundTrip(Label(p, k));
    DecRoundTrip(Count(b, k));
    var last := [Field("c", Dec(Count(b, k)))];
    assert BucketFields(p, b, k)[1..] == last && Lookup(last, "c") == Some(Dec(Count(b, k)));
  }

  lemma BucketTextIs(time: string, count: string, tail: string)
    ensures ("{\"t\":" + time + ", \"c\":" + count + "}")[1..] + tail
            == FieldText("t", time, ", " + FieldText("c", count, "}" + tail))
  {
    FieldIs("c", count, "}" + tail);
    var rest := ", " + FieldText("c", count, "}" + tail);
    assert rest == ", \"c\":" + count + ("}" + tail);
    FieldIs("t", time, rest);
    BraceThenTail("{\"t\":" + time + ", \"c\":" + count, tail);
    assert ("{\"t\":" + time + ", \"c\":" + count + ("}" + tail))[1..] == "\"t\":" + time + (", \"c\":" + count + ("}" + tail));
  }

  lemma {:induction false} BucketObject(p: Params, b: map<int, nat>, k: int)
    ensures IsObject(BucketText(p, b, k), BucketFields(p, b, k))
  {
    hide ReadFields, Dec, Label, Count, FieldText, PlainValue;
    var time, count := Dec(Label(p, k)), Dec(Count(b, k));
    DecRoundTrip(Label(p, k));
    DecRoundTrip(Count(b, k));
    forall tail: string ensures ReadFields(BucketText(p, b, k)[1..] + tail) == Read(BucketFields(p, b, k), tail) {
      var end := "}" + tail;
      assert end[1..] == tail;
      BucketTextIs(time, count, tail);
      SpacedField("c", count, end);
      NextField("t", time, ", " + FieldText("c", count, end));
      assert (", " + FieldText("c", count, end))[1..] == " " + FieldText("c", count, end);
      assert BucketFields(p, b, k) == [Field("t", time)] + [Field("c", count)];
    }
  }

  lemma SpacedField(name: string, value: string, tail: string)
    requires '"' !in name && PlainValue(value) && tail != "" && tail[0] == '}'
    ensures ReadFields(" " + FieldText(name, value, tail)) == Read([Field(name, value)], tail[1..])
  {
    hide ReadFields;
    ReadField(" ", name, value, tail);
  }

  /** The buckets are read back from the text of the histogram, in ascending order of their indices. */
  lemma {:induction false} HistogramReadBack(p: Params, b: map<int, nat>) returns (objects: seq<seq<Field>>)
    ensures var keys := SortedKeys(b.Keys);
            && ReadList(ListText(BucketTexts(p, b, keys))) == Some(objects) && |objects| == |keys|
            && forall i :: 0 <= i < |keys| ==> ShowsCount(objects[i], Label(p, keys[i]), Count(b, keys[i]))
  {
    hide IsObject, ReadList, ListText, BucketText, BucketFields, ShowsCount, SortedKeys;
    var keys := SortedKeys(b.Keys);
    objects := Map((k: int) => BucketFields(p, b, k), keys);
    forall i | 0 <= i < |keys|
      ensures IsObject(BucketTexts(p, b, keys)[i], objects[i]) && ShowsCount(objects[i], Label(p, keys[i]), Count(b, keys[i]))
    {
      BucketObject(p, b, keys[i]);
      BucketFieldsShow(p, b, keys[i]);
    }
    ReadListText(BucketTexts(p, b, keys), objects);
  }

  /** The start of the slot of a time. */
  function SlotStart(p: Params, t: int): int
    requires p.step > 0
  {
    p.start + (t - p.start) / p.step * p.step
  }

  /** The times of the slot that starts there. */
  function InSlotAt(p: Params, s: int): int -> bool
    requires p.step > 0
  {
    u => p.start <= u <= p.finish && SlotStart(p, u) == s
  }

  lemma SameSlot(p: Params, t: int, u: int)
    requires p.step > 0
    ensures SlotStart(p, t) == SlotStart(p, u) <==> (t - p.start) / p.step == (u - p.start) / p.step
  {
    var i, j := (t - p.start) / p.step, (u - p.start) / p.step;
    if i < j {
      MulAbove(i, j, p.step);
      assert (i + 1) * p.step == i * p.step + p.step;
    } else if j < i {
      MulAbove(j, i, p.step);
      assert (j + 1) * p.step == j * p.step + p.step;
    }
  }

  lemma {:induction false} PutKeys(p: Params, ts: seq<int>, i: int)
    requires p.step > 0
    ensures i in PutTimes(map[], p, ts) <==> exists t :: t in ts && InSlot(p, i, t)
  {
    hide Histogram.Index;
    if ts != [] {
      var init, last := ts[..|ts| - 1], ts[|ts| - 1];
      PutKeys(p, init, i);
      assert ts == init + [last];
      if t :| t in ts && InSlot(p, i, t) && t != last {
        assert t in init;
      }
      if t :| t in init && InSlot(p, i, t) {
        assert t in ts;
      }
      assert last in ts;
    }
  }

  /**
    What a histogram request is answered with, where the labels are right: one object for each slot with a time
    in range, showing the slot's start and the number of times in it; no two show the same slot.
   */
  lemma {:induction false} HistogramAnswer(p: Params, ts: seq<int>) returns (objects: seq<seq<Field>>, slots: seq<int>)
    requires p.step > 0 && (p.finish - p.start) / p.step * p.step < 0x8000_0000
    ensures var b := PutTimes(map[], p, ts);
            ReadList(ListText(BucketTexts(p, b, SortedKeys(b.Keys)))) == Some(objects)
    ensures |slots| == |objects| && forall i, j :: 0 <= i < j < |slots| ==> slots[i] < slots[j]
    ensures forall s :: s in slots <==> exists t :: t in ts && p.start <= t <= p.finish && SlotStart(p, t) == s
    ensures forall i :: 0 <= i < |slots| ==> ShowsCount(objects[i], slots[i], |Keep(ts, InSlotAt(p, slots[i]))|)
  {
    hide ReadList, ListText, BucketTexts, ShowsCount, SortedKeys, Histogram.Index, Label, SlotStart, PutTimes;
    var b := PutTimes(map[], p, ts);
    var keys := SortedKeys(b.Keys);
    objects := HistogramReadBack(p, b);
    SortedKeysOf(b.Keys);
    slots := Map((k: int) => Label(p, k), keys);
    forall i | 0 <= i < |keys|
      ensures SlotOf(p, ts, keys[i]) && Count(b, keys[i]) == |Keep(ts, InSlotAt(p, Label(p, keys[i])))|
    {
      assert keys[i] in keys;
      PutKeys(p, ts, keys[i]);
      BucketOfSlot(p, ts, keys[i]);
    }
    forall i, j | 0 <= i < j < |slots| ensures slots[i] < slots[j] {
      SlotsAscend(p, ts, keys[i], keys[j]);
    }
    forall s ensures s in slots <==> exists t :: t in ts && p.start <= t <= p.finish && SlotStart(p, t) == s {
      if s in slots {
        var i :| 0 <= i < |slots| && slots[i] == s;
        var t :| t in ts && InSlot(p, keys[i], t);
        LabelOfTime(p, t);
        assert InRange(p, t) && SlotStart(p, t) == s by { SlotMeans(p, keys[i], t); }
      }
      if t :| t in ts && InRange(p, t) && SlotStart(p, t) == s {
        LabelOfTime(p, t);
        SlotMeans(p, Histogram.Index(p, t), t);
        PutKeys(p, ts, Histogram.Index(p, t));
        assert Histogram.Index(p, t) in keys;
        var i :| 0 <= i < |keys| && keys[i] == Histogram.Index(p, t);
        assert slots[i] == s;
      }
    }
  }

  /** Some time of the list is counted in bucket k. */
  ghost predicate SlotOf(p: Params, ts: seq<int>, k: int)
    requires p.step > 0
  {
    exists t :: t in ts && InSlot(p, k, t)
  }

  lemma SlotMeans(p: Params, k: int, t: int)
    requires p.step > 0
    ensures InSlot(p, k, t) <==> InRange(p, t) && Histogram.Index(p, t) == k
  {
  }

  /** The label of a time's bucket is the start of its slot, and its index is the quotient. */
  lemma LabelOfTime(p: Params, t: int)
    requires p.step > 0 && (p.finish - p.start) / p.step * p.step < 0x8000_0000
    ensures InRange(p, t) ==> Label(p, Histogram.Index(p, t)) == SlotStart(p, t) && Histogram.Index(p, t) == (t - p.start) / p.step
  {
    hide Label, Histogram.Index;
    LabelGuard(p);
    IndexGuard(p);
    SmallQuotient((p.finish - p.start) / p.step, p.step);
  }

  lemma SmallQuotient(q: int, s: int)
    requires s > 0 && q * s < 0x8000_0000
    ensures q < 0x8000_0000
  {
    if q >= 0x8000_0000 {
      MulMonotone(0x8000_0000, q, s);
    }
  }

  lemma BucketOfSlot(p: Params, ts: seq<int>, k: int)
    requires p.step > 0 && (p.finish - p.start) / p.step * p.step < 0x8000_0000 && SlotOf(p, ts, k)
    ensures Count(PutTimes(map[], p, ts), k) == |Keep(ts, InSlotAt(p, Label(p, k)))|
  {
    hide Label, Histogram.Index, SlotStart;
    var t :| t in ts && InSlot(p, k, t);
    LabelOfTime(p, t);
    BucketCount(map[], p, ts, k);
    forall u | u in ts ensures SlotBy(p, k)(u) == InSlotAt(p, Label(p, k))(u) {
      LabelOfTime(p, u);
      SameSlot(p, t, u);
    }
    KeepSame(ts, SlotBy(p, k), InSlotAt(p, Label(p, k)));
  }

  lemma SlotsAscend(p: Params, ts: seq<int>, i: int, j: int)
    requires p.step > 0 && (p.finish - p.start) / p.step * p.step < 0x8000_0000
    requires i < j && SlotOf(p, ts, i) && SlotOf(p, ts, j)
    ensures Label(p, i) < Label(p, j)
  {
    hide Label, Histogram.Index;
    var t :| t in ts && InSlot(p, i, t);
    var u :| u in ts && InSlot(p, j, u);
    LabelOfTime(p, t);
    LabelOfTime(p, u);
    MulAbove(i, j, p.step);
    assert (i + 1) * p.step == i * p.step + p.step;
  }
}
