/** The requests of the HTTP service over the log database (http-server.cpp). */
module Http {
  import opened Bytes
  import opened Keys
  import opened Rows
  import opened Seqs
  import opened Lmdb
  import opened LogStore
  import opened OtherScans
  import opened DbLog
  import opened DbRead
  import opened MacText
  import opened Json
  import opened Histogram
  import opened Callbacks
  import opened Paging

  datatype RequestParams = RequestParams(
    start: Time,
    finish: Time,
    sa: seq<string>,
    offset: int,
    count: int,
    step: int
  )

  /** The MAC prefix a filter text stands for: the bytes `strtomacaddress` reads. */
  function FilterPrefix(text: string): Prefix {
    Scan(text, 6)
  }

  /** The rows the scan of one filter reports: log records, or last probes. */
  function ScanReports(rows: seq<Row>, probes: bool, start: Time, finish: Time, filter: string): seq<Report> {
    if probes then ProbeReports(ProbeRows(rows, FilterPrefix(filter), start, finish))
    else LogReports(ReadRows(rows, FilterPrefix(filter), start, finish))
  }

  function ScansOf(rows: seq<Row>, probes: bool, start: Time, finish: Time, filters: seq<string>): (s: seq<seq<Report>>)
    ensures |s| == |filters|
  {
    if filters == [] then [] else
      var n := |filters| - 1;
      ScansOf(rows, probes, start, finish, filters[..n]) + [ScanReports(rows, probes, start, finish, filters[n])]
  }

  /** The size of a page; zero stands for the configured one.  A negative number becomes a large one. */
  function PageCount(count: int, configCount: SizeT): SizeT {
    if count == 0 then configCount else ToSizeT(count)
  }

  /** The running totals a count request prints, those that are zero left out. */
  function CountTexts(scans: seq<seq<Report>>): seq<string> {
    if scans == [] then [] else
      CountTexts(scans[..|scans| - 1]) + if |Flatten(scans)| == 0 then [] else [Dec(|Flatten(scans)|)]
  }

  /** The scan of one filter, parsed into six bytes on the way. */
  method ScanFilter(db: DbEnv, probes: bool, start: Time, finish: Time, filter: string, onLog: OnLog)
    requires db.Valid() && !db.inTxn && WellFormed(db.committed)
    requires !onLog.NoCallback? && onLog.Valid() && db !in onLog.Footprint()
    modifies db, onLog.Footprint()
    ensures db.Valid() && !db.inTxn && db.committed == old(db.committed) && onLog.Valid()
    ensures db.hard >= old(db.hard)
    ensures db.hard == old(db.hard) ==>
              onLog.State() == Feed(old(onLog.State()), ScanReports(db.committed, probes, start, finish, filter)).view
  {
    hide WellFormed, Ascending, Before, Parsed, ProbeRows, ReadRows, Feed, Step, ValidView, LogReports, ProbeReports, OnLog.State, Scan;
    var sa := new Byte[6];
    var macSize := StrToMacAddress(sa, filter);
    FilterBytes(filter);
    var mac: Mac := sa[..];
    var arg := if macSize <= 0 then None else Some(mac);
    assert PrefixOf(arg, macSize) == FilterPrefix(filter);
    var r;
    if probes {
      r := ReadLastProbe(db, arg, macSize, start, finish, onLog);
    } else {
      r := ReadLog(db, arg, macSize, start, finish, onLog);
    }
  }

  lemma FilterBytes(filter: string)
    ensures ScanCount(filter) <= 0 ==> Scan(filter, 6) == []
    ensures ScanCount(filter) > 0 ==> ScanCount(filter) == |Scan(filter, 6)|
  {
    if SkipSpace(filter) == "" {
      assert Convert(filter) == NoMatch;
    }
  }

  /**
    `lsLog` and `lsLastProbe`, which differ in the scan only.  A record request answers the
    page of the concatenated scans as a list, a count request the running totals; a database
    that does not open answers with nothing.
   */
  method List(db: DbEnv, probes: bool, counting: bool, params: RequestParams, configCount: SizeT) returns (r: string)
    requires db.Valid() && !db.inTxn && WellFormed(db.committed)
    modifies db
    ensures db.Valid() && !db.inTxn && db.committed == old(db.committed)
    ensures r == "" ==> db.hard > old(db.hard)
    ensures db.hard == old(db.hard) ==>
              var scans := ScansOf(db.committed, probes, params.start, params.finish, params.sa);
              var page := Page(0, ToSizeT(params.offset), PageCount(params.count, configCount));
              r == ListText(if counting then CountTexts(scans) else Texts(WalkAll(true, page, scans).out))
  {
    hide WellFormed, Ascending, Feed, FeedAll, Step, ScansOf, WalkAll, ListText, CountTexts, Texts, CloseList, WithCommas;
    var isOpen := OpenDb(db);
    if !isOpen {
      return "";
    }
    var req := new HttpReqEnv(ToSizeT(params.offset), PageCount(params.count, configCount));
    req.retval := "[";
    ghost var page := req.PageState();
    if counting {
      CountLoop(db, probes, params, req);
    } else {
      PageLoop(db, probes, params, req);
    }
    req.retval := req.retval + "]";
    ghost var scans := ScansOf(db.committed, probes, params.start, params.finish, params.sa);
    ClosedList(CountTexts(scans));
    ClosedList(Texts(WalkAll(true, page, scans).out));
    r := CloseList(req.retval);
    ListTextSize(if counting then CountTexts(scans) else Texts(WalkAll(true, page, scans).out));
    CloseListSize(req.retval);
  }

  lemma ListTextSize(items: seq<string>)
    ensures ListText(items) != ""
  {
  }

  lemma CloseListSize(s: string)
    ensures |CloseList(s)| == |s|
  {
  }

  lemma ScansNext(rows: seq<Row>, probes: bool, start: Time, finish: Time, filters: seq<string>, i: nat)
    requires i < |filters|
    ensures ScansOf(rows, probes, start, finish, filters[..i + 1])
            == ScansOf(rows, probes, start, finish, filters[..i]) + [ScanReports(rows, probes, start, finish, filters[i])]
    ensures ScansOf(rows, probes, start, finish, filters[..0]) == []
  {
    assert filters[..i + 1][..i] == filters[..i];
  }

  lemma FeedAllNext(v: View, scans: seq<seq<Report>>, s: seq<Report>)
    requires ValidView(v)
    ensures FeedAll(v, scans + [s]) == Feed(FeedAll(v, scans), s).view
    ensures FeedAll(v, []) == v
  {
    assert (scans + [s])[..|scans|] == scans;
  }

  /** The loop over the filters of a record request. */
  method PageLoop(db: DbEnv, probes: bool, params: RequestParams, req: HttpReqEnv)
    requires db.Valid() && !db.inTxn && WellFormed(db.committed)
    requires req.sum == 0 && req.retval == "["
    modifies db, req
    ensures db.Valid() && !db.inTxn && db.committed == old(db.committed) && db.hard >= old(db.hard)
    ensures db.hard == old(db.hard) ==>
              var scans := ScansOf(db.committed, probes, params.start, params.finish, params.sa);
              req.retval == "[" + WithCommas(Texts(WalkAll(true, old(req.PageState()), scans).out))
  {
    hide WellFormed, Ascending, Before, Feed, FeedAll, Step, ScansOf, ScanReports, WalkAll, Texts, WithCommas, Dec;
    ghost var rows, v := db.committed, HttpPage(req.PageState(), 0, "[");
    var onLog := ReqLog(req);
    var i := 0;
    ghost var scans: seq<seq<Report>> := [];
    FeedAllNext(v, [], []);
    NoScans(rows, probes, params.start, params.finish);
    assert params.sa[..0] == [];
    while i < |params.sa|
      invariant 0 <= i <= |params.sa|
      invariant db.Valid() && !db.inTxn && db.committed == rows && db.hard >= old(db.hard)
      invariant scans == ScansOf(rows, probes, params.start, params.finish, params.sa[..i])
      invariant db.hard == old(db.hard) ==> onLog.State() == FeedAll(v, scans)
    {
      ghost var s := ScanReports(rows, probes, params.start, params.finish, params.sa[i]);
      ScansNext(rows, probes, params.start, params.finish, params.sa, i);
      FeedAllNext(v, scans, s);
      ScanFilter(db, probes, params.start, params.finish, params.sa[i], onLog);
      HttpFeedAllWalks(v.page, 0, "[", scans + [s]);
      scans := scans + [s];
      if req.sum != 0 {
        req.retval := req.retval + Dec(req.sum) + ",";
      }
      i := i + 1;
    }
    assert params.sa[..i] == params.sa;
    HttpFeedAllWalks(v.page, 0, "[", scans);
  }

  lemma NoScans(rows: seq<Row>, probes: bool, start: Time, finish: Time)
    ensures ScansOf(rows, probes, start, finish, []) == []
  {
  }

  /** The loop over the filters of a count request. */
  method CountLoop(db: DbEnv, probes: bool, params: RequestParams, req: HttpReqEnv)
    requires db.Valid() && !db.inTxn && WellFormed(db.committed)
    requires req.sum == 0 && req.retval == "["
    modifies db, req
    ensures db.Valid() && !db.inTxn && db.committed == old(db.committed) && db.hard >= old(db.hard)
    ensures db.hard == old(db.hard) ==>
              var scans := ScansOf(db.committed, probes, params.start, params.finish, params.sa);
              req.retval == "[" + WithCommas(CountTexts(scans))
  {
    hide WellFormed, Ascending, Before, Feed, Step, ScansOf, ScanReports, WithCommas, CountTexts, Flatten, Dec;
    ghost var rows := db.committed;
    var onLog := ReqLogCount(req);
    var i := 0;
    ghost var scans: seq<seq<Report>> := [];
    CountsNext([], []);
    NoScans(rows, probes, params.start, params.finish);
    assert params.sa[..0] == [];
    while i < |params.sa|
      invariant 0 <= i <= |params.sa|
      invariant db.Valid() && !db.inTxn && db.committed == rows && db.hard >= old(db.hard)
      invariant scans == ScansOf(rows, probes, params.start, params.finish, params.sa[..i])
      invariant db.hard == old(db.hard) ==> req.sum == |Flatten(scans)| && req.retval == "[" + WithCommas(CountTexts(scans))
    {
      ghost var s := ScanReports(rows, probes, params.start, params.finish, params.sa[i]);
      ScansNext(rows, probes, params.start, params.finish, params.sa, i);
      HttpCountFeed(req.PageState(), req.sum, req.retval, s);
      CountsNext(scans, s);
      ScanFilter(db, probes, params.start, params.finish, params.sa[i], onLog);
      scans := scans + [s];
      if req.sum != 0 {
        req.retval := req.retval + Dec(req.sum) + ",";
      }
      i := i + 1;
    }
    assert params.sa[..i] == params.sa;
  }

  lemma CountsNext(scans: seq<seq<Report>>, s: seq<Report>)
    ensures |Flatten(scans + [s])| == |Flatten(scans)| + |s|
    ensures WithCommas(CountTexts(scans + [s]))
            == WithCommas(CountTexts(scans)) + if |Flatten(scans + [s])| == 0 then "" else Dec(|Flatten(scans + [s])|) + ","
    ensures WithCommas(CountTexts([])) == "" && |Flatten<Report>([])| == 0
  {
    var all := scans + [s];
    assert all[..|scans|] == scans;
    if |Flatten(all)| == 0 {
      assert CountTexts(scans) + [] == CountTexts(scans);
      assert WithCommas(CountTexts(scans)) + "" == WithCommas(CountTexts(scans));
    } else {
      var t := Dec(|Flatten(all)|);
      WithCommasAppend(CountTexts(scans), [t]);
      assert [t][..0] == [];
      assert WithCommas([t]) == "" + t + ",";
    }
  }

  /**
    The answer to a record request is the list of the records at positions offset to
    offset + count - 1 of the filters' concatenated scans, exactly when the end of that page
    fits 64 bits or the page begins behind the last record.
   */
  lemma {:induction false} PageAnswer(rows: seq<Row>, probes: bool, params: RequestParams, configCount: SizeT)
    ensures var scans := ScansOf(rows, probes, params.start, params.finish, params.sa);
            var o, c := ToSizeT(params.offset), PageCount(params.count, configCount);
            WalkAll(true, Page(0, o, c), scans).out == Slice(Flatten(scans), o, c)
            <==> o + c < TWO_TO_THE_64 || |Flatten(scans)| <= o
  {
    var scans := ScansOf(rows, probes, params.start, params.finish, params.sa);
    PageGuard(true, ToSizeT(params.offset), PageCount(params.count, configCount), scans);
  }

  // ---- The histogram request -----------------------------------------------------------------

  /** `macsPerTime`: every record of every filter's scan is put into the histogram. */
  method MacsPerTime(db: DbEnv, retval: HistogramMacsPerTime, params: RequestParams) returns (r: int)
    requires db.Valid() && !db.inTxn && WellFormed(db.committed) && retval.Valid()
    modifies db, retval
    ensures db.Valid() && !db.inTxn && db.committed == old(db.committed)
    ensures r in {0, ERRCODE_LMDB_OPEN} && (r != 0 ==> retval.histogram == old(retval.histogram))
    ensures db.hard == old(db.hard) ==>
              && r == 0
              && retval.histogram
                 == PutTimes(old(retval.histogram), retval.Settings(),
                             Dts(Flatten(ScansOf(db.committed, false, params.start, params.finish, params.sa))))
  {
    hide WellFormed, Ascending, Before, Feed, FeedAll, Step, ScansOf, ScanReports, PutTimes;
    var isOpen := OpenDb(db);
    if !isOpen {
      return ERRCODE_LMDB_OPEN;
    }
    ghost var rows, v := db.committed, HistogramView(retval.Settings(), retval.histogram, false);
    var onLog := LogHistogram(retval);
    var i := 0;
    ghost var scans: seq<seq<Report>> := [];
    FeedAllNext(v, [], []);
    NoScans(rows, false, params.start, params.finish);
    assert params.sa[..0] == [];
    while i < |params.sa|
      invariant 0 <= i <= |params.sa|
      invariant db.Valid() && !db.inTxn && db.committed == rows && db.hard >= old(db.hard)
      invariant scans == ScansOf(rows, false, params.start, params.finish, params.sa[..i])
      invariant db.hard == old(db.hard) ==> onLog.State() == FeedAll(v, scans)
    {
      ghost var s := ScanReports(rows, false, params.start, params.finish, params.sa[i]);
      ScansNext(rows, false, params.start, params.finish, params.sa, i);
      FeedAllNext(v, scans, s);
      ScanFilter(db, false, params.start, params.finish, params.sa[i], onLog);
      scans := scans + [s];
      i := i + 1;
    }
    assert params.sa[..i] == params.sa;
    HistogramFeedAll(v.params, v.buckets, scans);
    r := 0;
  }

  /** The histogram's answer: its buckets as a list, or the error code of a database that does not open. */
  method HistogramRequest(db: DbEnv, params: RequestParams) returns (data: string)
    requires db.Valid() && !db.inTxn && WellFormed(db.committed)
    modifies db
    ensures db.Valid() && !db.inTxn && db.committed == old(db.committed)
    ensures db.hard == old(db.hard) ==>
              var p := Params(params.start, params.finish, if params.step > 0 then params.step else 1);
              var scans := ScansOf(db.committed, false, params.start, params.finish, params.sa);
              var b := PutTimes(map[], p, Dts(Flatten(scans)));
              data == ListText(BucketTexts(p, b, SortedKeys(b.Keys)))
  {
    hide WellFormed, ScansOf, PutTimes, ListText, BucketTexts, SortedKeys;
    var histogram := new HistogramMacsPerTime(params.start, params.finish, params.step);
    var r := MacsPerTime(db, histogram, params);
    if r != 0 {
      data := "Error :" + Dec(r);
    } else {
      data := histogram.ToJson();
    }
  }

  lemma ScanTimesInRange(rows: seq<Row>, start: Time, finish: Time, filter: string)
    requires WellFormed(rows)
    ensures forall r :: r in ScanReports(rows, false, start, finish, filter) ==>
              QueryOf([], start, finish).lo <= r.dt <= QueryOf([], start, finish).hi
  {
    hide FilterPrefix;
    var kept := ReadRows(rows, FilterPrefix(filter), start, finish);
    forall r | r in LogReports(kept)
      ensures QueryOf([], start, finish).lo <= r.dt <= QueryOf([], start, finish).hi
    {
      var i :| 0 <= i < |kept| && LogReports(kept)[i] == r;
      assert kept[i] in kept;
    }
  }

  lemma {:induction false} ReportedTimesInRange(rows: seq<Row>, start: Time, finish: Time, filters: seq<string>)
    requires WellFormed(rows)
    ensures forall r :: r in Flatten(ScansOf(rows, false, start, finish, filters)) ==>
              QueryOf([], start, finish).lo <= r.dt <= QueryOf([], start, finish).hi
  {
    hide ScanReports, QueryOf;
    if filters != [] {
      var n := |filters| - 1;
      ReportedTimesInRange(rows, start, finish, filters[..n]);
      ScanTimesInRange(rows, start, finish, filters[n]);
      var scans := ScansOf(rows, false, start, finish, filters);
      assert scans[..n] == ScansOf(rows, false, start, finish, filters[..n]);
    }
  }

  /** The records reported to a histogram of the same range and the counts of its buckets. */
  ghost predicate CountsAll(rows: seq<Row>, start: Time, finish: Time, step: int, filters: seq<string>)
    requires step > 0
  {
    var p := Params(start, finish, step);
    var reports := Flatten(ScansOf(rows, false, start, finish, filters));
    |Keep(Dts(reports), RangeBy(p))| == |reports|
  }

  /**
    A histogram request counts every record its scans report when the ends are in order and
    the finish is given, and then, with an indexable range, the buckets add up to them.
   */
  lemma {:induction false} HistogramCountsAll(rows: seq<Row>, start: Time, finish: Time, step: int, filters: seq<string>)
    requires WellFormed(rows) && step > 0 && start <= finish && finish != 0
    ensures CountsAll(rows, start, finish, step, filters)
    ensures Indexable(Params(start, finish, step)) ==>
              var p := Params(start, finish, step);
              var reports := Flatten(ScansOf(rows, false, start, finish, filters));
              BucketSum(PutTimes(map[], p, Dts(reports)), 0, WholeSlots(p) + 1) == |reports|
  {
    hide ScansOf, PutTimes, BucketSum, WholeSlots, Indexable, WellFormed, Keep, Flatten;
    var p := Params(start, finish, step);
    var reports := Flatten(ScansOf(rows, false, start, finish, filters));
    ReportedTimesInRange(rows, start, finish, filters);
    forall t | t in Dts(reports) ensures InRange(p, t) {
      var i :| 0 <= i < |reports| && Dts(reports)[i] == t;
      assert reports[i] in reports;
    }
    KeepAll(Dts(reports), RangeBy(p));
    if Indexable(p) {
      TotalCount(p, Dts(reports));
    }
  }

  lemma OneScan(rows: seq<Row>, probes: bool, start: Time, finish: Time, filter: string)
    ensures Flatten(ScansOf(rows, probes, start, finish, [filter])) == ScanReports(rows, probes, start, finish, filter)
  {
    hide ScanReports;
    var scans := ScansOf(rows, probes, start, finish, [filter]);
    assert [filter][..0] == [] && scans == [ScanReports(rows, probes, start, finish, filter)];
    assert scans[..0] == [] && Flatten(scans) == Flatten(scans[..0]) + ScanReports(rows, probes, start, finish, filter);
  }

  lemma NoFilter()
    ensures FilterPrefix("") == []
  {
    assert SkipSpace("") == "" && Convert("") == NoMatch;
  }

  // ---- What one bucket holds -----------------------------------------------------------------

  /** The log records the filters select in a time range, counted once per filter. */
  function SelectedCount(rows: seq<Row>, filters: seq<string>, lo: Time, hi: Time): nat {
    if filters == [] then 0 else
      var n := |filters| - 1;
      SelectedCount(rows, filters[..n], lo, hi) + |LogOf(rows, Query(FilterPrefix(filters[n]), lo, hi))|
  }

  lemma NarrowerQuery(rows: seq<Row>, p: Prefix, lo: Time, hi: Time, lo': Time, hi': Time)
    requires lo <= lo' && hi' <= hi
    ensures Keep(LogOf(rows, Query(p, lo, hi)), WantedBy(Query(p, lo', hi'))) == LogOf(rows, Query(p, lo', hi'))
  {
    var q, q' := Query(p, lo, hi), Query(p, lo', hi');
    KeepTwice(rows, WantedBy(q), WantedBy(q'));
    KeepSame(rows, Both(WantedBy(q), WantedBy(q')), WantedBy(q'));
  }

  /** The slot of bucket i, cut off at the finish. */
  function SlotEnd(p: Params, i: int): int {
    Min(p.finish, p.start + (i + 1) * p.step - 1)
  }

  lemma SlotTimes(p: Params, i: int, t: int)
    requires p.step > 0 && Indexable(p) && InRange(p, t)
    ensures InSlot(p, i, t) <==> p.start + i * p.step <= t <= SlotEnd(p, i)
  {
    SlotIsTimeSlot(p, i, t);
  }

  lemma ScanBucket(rows: seq<Row>, p: Params, filter: string, i: int)
    requires WellFormed(rows) && p.step > 0 && Indexable(p)
    requires 0 <= p.start <= p.finish < TWO_TO_THE_32 && p.finish != 0
    requires p.start <= p.start + i * p.step <= p.finish && 0 <= SlotEnd(p, i) < TWO_TO_THE_32
    ensures |Keep(Dts(ScanReports(rows, false, p.start, p.finish, filter)), SlotBy(p, i))|
            == |LogOf(rows, Query(FilterPrefix(filter), p.start + i * p.step, SlotEnd(p, i)))|
  {
    hide FilterPrefix, Keep, InSlot, SlotEnd, Indexable;
    var prefix := FilterPrefix(filter);
    var lo, hi := p.start + i * p.step, SlotEnd(p, i);
    var q := Query(prefix, p.start, p.finish);
    ReadIsExact(rows, prefix, p.start, p.finish);
    var kept := LogOf(rows, q);
    assert Dts(ScanReports(rows, false, p.start, p.finish, filter)) == Map((r: Row) => LogReport(r).dt as int, kept);
    forall r | r in kept
      ensures Wanted(Query(prefix, lo, hi), r) == SlotBy(p, i)(LogReport(r).dt as int)
    {
      SlotTimes(p, i, KeyTime(r.key));
    }
    KeepMap((r: Row) => LogReport(r).dt as int, kept, WantedBy(Query(prefix, lo, hi)), SlotBy(p, i));
    SlotEndAtMost(p, i);
    NarrowerQuery(rows, prefix, p.start, p.finish, lo, hi);
  }

  lemma SlotEndAtMost(p: Params, i: int)
    ensures SlotEnd(p, i) <= p.finish
  {
  }

  /**
    After a histogram request, bucket i holds the number of log records, summed over the
    filters, with a time in [start + i * step, start + (i + 1) * step) and at most the finish.
   */
  lemma {:induction false} HistogramBucket(rows: seq<Row>, p: Params, filters: seq<string>, i: int)
    requires WellFormed(rows) && p.step > 0 && Indexable(p)
    requires 0 <= p.start <= p.finish < TWO_TO_THE_32 && p.finish != 0
    requires p.start <= p.start + i * p.step <= p.finish && 0 <= SlotEnd(p, i) < TWO_TO_THE_32
    ensures Count(PutTimes(map[], p, Dts(Flatten(ScansOf(rows, false, p.start, p.finish, filters)))), i)
            == SelectedCount(rows, filters, p.start + i * p.step, SlotEnd(p, i))
  {
    BucketCount(map[], p, Dts(Flatten(ScansOf(rows, false, p.start, p.finish, filters))), i);
    if filters != [] {
      var n := |filters| - 1;
      HistogramBucket(rows, p, filters[..n], i);
      ScanBucket(rows, p, filters[n], i);
      BucketCount(map[], p, Dts(Flatten(ScansOf(rows, false, p.start, p.finish, filters[..n]))), i);
      hide ScanReports, Keep, InSlot, SlotEnd, Indexable, PutTimes, FilterPrefix, ScansOf, Wanted;
      LastScanTimes(rows, p, filters);
      KeepAppend(Dts(Flatten(ScansOf(rows, false, p.start, p.finish, filters[..n]))),
                 Dts(ScanReports(rows, false, p.start, p.finish, filters[n])), SlotBy(p, i));
    }
  }

  lemma LastScanTimes(rows: seq<Row>, p: Params, filters: seq<string>)
    requires filters != [] && 0 <= p.start < TWO_TO_THE_32 && 0 <= p.finish < TWO_TO_THE_32
    ensures var n := |filters| - 1;
            Dts(Flatten(ScansOf(rows, false, p.start, p.finish, filters)))
            == Dts(Flatten(ScansOf(rows, false, p.start, p.finish, filters[..n])))
               + Dts(ScanReports(rows, false, p.start, p.finish, filters[n]))
  {
    var n := |filters| - 1;
    hide ScanReports;
    assert ScansOf(rows, false, p.start, p.finish, filters)[..n] == ScansOf(rows, false, p.start, p.finish, filters[..n]);
  }
}
