/** The command line tool over the log database (wacsc.cpp). */
module Wacsc {
  import opened Bytes
  import opened Keys
  import opened Rows
  import opened Seqs
  import opened Lmdb
  import opened Courses
  import opened LogStore
  import opened DbLog
  import opened DbNotes
  import opened DbRead
  import opened Index
  import opened MacText
  import opened Histogram
  import opened Callbacks
  import opened Paging
  import opened Http

  /** The scans of all filters, in order. */
  function LogScans(rows: seq<Row>, start: Time, finish: Time, macs: seq<string>): seq<seq<Report>> {
    ScansOf(rows, false, start, finish, macs)
  }

  /** The text of a filter, parsed into six bytes. */
  method ParseFilter(text: string) returns (mac: Mac, macSize: int)
    ensures PrefixOf(Some(mac), macSize) == FilterPrefix(text) && macSize == ScanCount(text)
  {
    hide Scan, Parsed;
    var sa := new Byte[6];
    macSize := StrToMacAddress(sa, text);
    mac := sa[..];
    FilterBytes(text);
  }

  // ---- Listing ---------------------------------------------------------------------------

  /** An empty store has empty scans only. */
  lemma {:induction false} NoRowsNoReports(start: Time, finish: Time, macs: seq<string>)
    ensures forall s :: s in LogScans([], start, finish, macs) ==> s == []
  {
    if macs != [] {
      var n := |macs| - 1;
      NoRowsNoReports(start, finish, macs[..n]);
      var last := ScanReports([], false, start, finish, macs[n]);
      assert last == [];
      assert LogScans([], start, finish, macs) == LogScans([], start, finish, macs[..n]) + [last];
    }
  }

  lemma {:induction false} ScansSplit(rows: seq<Row>, start: Time, finish: Time, macs: seq<string>, i: nat)
    requires i <= |macs|
    ensures LogScans(rows, start, finish, macs) == LogScans(rows, start, finish, macs[..i]) + LogScans(rows, start, finish, macs[i..])
  {
    hide ScanReports;
    if i == |macs| {
      assert macs[..i] == macs && macs[i..] == [];
      assert LogScans(rows, start, finish, macs) + [] == LogScans(rows, start, finish, macs);
    } else {
      var n := |macs| - 1;
      ScansSplit(rows, start, finish, macs[..n], i);
      var last := ScanReports(rows, false, start, finish, macs[n]);
      assert macs[..n][..i] == macs[..i] && macs[i..][..n - i] == macs[..n][i..];
      assert LogScans(rows, start, finish, macs[i..]) == LogScans(rows, start, finish, macs[..n][i..]) + [last];
      assert LogScans(rows, start, finish, macs) == LogScans(rows, start, finish, macs[..n]) + [last];
      hide ScansOf;
    }
  }

  /** Breaking off after a not-found leaves out empty scans only. */
  lemma {:induction false} EarlyExitLosesNothing(rows: seq<Row>, start: Time, finish: Time, macs: seq<string>, i: nat, v: View)
    requires WellFormed(rows) && EveryLogHasProbe(rows) && i < |macs| && ValidView(v)
    requires SeekPos(rows, ReadSeekKey(FilterPrefix(macs[i]), start)) == |rows|
    ensures rows == []
    ensures FeedAll(v, LogScans(rows, start, finish, macs)) == FeedAll(v, LogScans(rows, start, finish, macs[..i + 1]))
  {
    NotFoundMeansEmpty(rows, ReadSeekKey(FilterPrefix(macs[i]), start));
    NoRowsNoReports(start, finish, macs[i + 1..]);
    ScansSplit(rows, start, finish, macs, i + 1);
    EmptyScans(v, LogScans(rows, start, finish, macs[..i + 1]), LogScans(rows, start, finish, macs[i + 1..]));
  }

  /** The scan of one filter. */
  method ReadFilter(env: DbEnv, text: string, start: Time, finish: Time, onLog: OnLog) returns (r: int)
    requires env.Valid() && !env.inTxn && WellFormed(env.committed)
    requires !onLog.NoCallback? && onLog.Valid() && env !in onLog.Footprint()
    modifies env, onLog.Footprint()
    ensures env.Valid() && !env.inTxn && env.committed == old(env.committed) && onLog.Valid()
    ensures env.hard >= old(env.hard) && env.commitFull >= old(env.commitFull)
    ensures env.hard == old(env.hard) ==>
              && onLog.State() == Feed(old(onLog.State()), LogReports(ReadRows(env.committed, FilterPrefix(text), start, finish))).view
              && (r == MDB_NOTFOUND <==> SeekPos(env.committed, ReadSeekKey(FilterPrefix(text), start)) == |env.committed|)
              && (r != MDB_NOTFOUND ==> r == if env.commitFull == old(env.commitFull) then 0 else ERRCODE_LMDB_TXN_COMMIT)
  {
    hide WellFormed, Ascending, Feed, Step, ValidView, ReadRows, LogReports, SeekPos, ReadSeekKey, FilterPrefix, ScanCount, OnLog.State;
    var sa, macSize := ParseFilter(text);
    r := ReadLog(env, Some(sa), macSize, start, finish, onLog);
  }

  /**
    `lsLog`: the callback gets what the scans of all filters report, although the loop ends at
    the first negative result.
   */
  method LsLog(env: DbEnv, macs: seq<string>, start: Time, finish: Time, onLog: OnLog) returns (rr: int)
    requires env.Valid() && !env.inTxn && WellFormed(env.committed) && EveryLogHasProbe(env.committed)
    requires !onLog.NoCallback? && onLog.Valid() && env !in onLog.Footprint()
    modifies env, onLog.Footprint()
    ensures env.Valid() && !env.inTxn && env.committed == old(env.committed) && onLog.Valid()
    ensures env.hard == old(env.hard) && env.commitFull == old(env.commitFull) ==>
              && onLog.State() == FeedAll(old(onLog.State()), LogScans(env.committed, start, finish, macs))
              && rr == if env.committed == [] && macs != [] then MDB_NOTFOUND else 0
  {
    hide WellFormed, Ascending, EveryLogHasProbe, Feed, FeedAll, Step, ValidView, ReadRows, LogReports, SeekPos, ReadSeekKey,
      ScansOf, FilterPrefix, OnLog.State;
    rr := 0;
    var isOpen := OpenDb(env);
    if !isOpen {
      return ERRCODE_LMDB_OPEN;
    }
    ghost var rows, v := env.committed, onLog.State();
    var i := 0;
    LogScansNext(rows, start, finish, macs, 0, v);
    while i < |macs|
      invariant 0 <= i <= |macs|
      invariant env.Valid() && !env.inTxn && env.committed == rows && onLog.Valid()
      invariant env.hard >= old(env.hard) && env.commitFull >= old(env.commitFull)
      invariant env.hard == old(env.hard) && env.commitFull == old(env.commitFull) ==>
                  rr == 0 && (i > 0 ==> rows != []) && onLog.State() == FeedAll(v, LogScans(rows, start, finish, macs[..i]))
    {
      LogScansNext(rows, start, finish, macs, i, v);
      var r := ReadFilter(env, macs[i], start, finish, onLog);
      if r < 0 {
        rr := r;
        if env.hard == old(env.hard) && env.commitFull == old(env.commitFull) {
          EarlyExitLosesNothing(rows, start, finish, macs, i, v);
        }
        return;
      }
      rr := rr + r;
      i := i + 1;
    }
    assert macs[..i] == macs;
  }

  lemma LogScansNext(rows: seq<Row>, start: Time, finish: Time, macs: seq<string>, i: nat, v: View)
    requires ValidView(v) && i <= |macs|
    ensures i == 0 ==> FeedAll(v, LogScans(rows, start, finish, macs[..i])) == v
    ensures i < |macs| ==>
              FeedAll(v, LogScans(rows, start, finish, macs[..i + 1]))
              == Feed(FeedAll(v, LogScans(rows, start, finish, macs[..i])),
                      LogReports(ReadRows(rows, FilterPrefix(macs[i]), start, finish))).view
  {
    hide Feed, LogReports, ReadRows;
    if i < |macs| {
      ScansNext(rows, false, start, finish, macs, i);
      FeedAllNext(v, LogScans(rows, start, finish, macs[..i]), ScanReports(rows, false, start, finish, macs[i]));
    }
  }

  /** The lines printed are the page asked for, over all filters, exactly when its end fits or it is empty. */
  lemma {:induction false} PrintedPage(rows: seq<Row>, start: Time, finish: Time, macs: seq<string>, o: SizeT, c: SizeT)
    requires c == UNLIMITED ==> |Flatten(LogScans(rows, start, finish, macs))| < TWO_TO_THE_64
    ensures var scans := LogScans(rows, start, finish, macs);
            var w := WalkAll(false, Page(0, o, c), scans);
            && FeedAll(WacscPage(Page(0, o, c), [], false), scans) == WacscPage(w.page, w.out, false)
            && (w.out == Slice(Flatten(scans), o, c)
                <==> c == UNLIMITED || o + c < TWO_TO_THE_64 || |Flatten(scans)| <= o)
  {
    var scans := LogScans(rows, start, finish, macs);
    WacscFeedAllWalks(Page(0, o, c), [], scans);
    PageGuard(false, o, c, scans);
    hide FeedAll, WalkAll, ScansOf, Slice, Flatten;
    var out := WalkAll(false, Page(0, o, c), scans).out;
    assert [] + out == out;
  }

  // ---- Removing --------------------------------------------------------------------------

  /** The store after the removals of all filters. */
  function RmAll(rows: seq<Row>, start: Time, finish: Time, macs: seq<string>): seq<Row> {
    if macs == [] then rows else
      RmLeaves(RmAll(rows, start, finish, macs[..|macs| - 1]), FilterPrefix(macs[|macs| - 1]), start, finish)
  }

  predicate WantedByFilter(mac: string, start: Time, finish: Time, r: Row) {
    Wanted(QueryOf(FilterPrefix(mac), start, finish), r)
  }

  predicate WantedByAny(macs: seq<string>, start: Time, finish: Time, r: Row) {
    exists mac :: mac in macs && WantedByFilter(mac, start, finish, r)
  }

  function WantedByOne(macs: seq<string>, start: Time, finish: Time): Row -> bool {
    r => WantedByAny(macs, start, finish, r)
  }

  lemma {:induction false} RmAllKeeps(rows: seq<Row>, start: Time, finish: Time, macs: seq<string>)
    requires WellFormed(rows) && EveryLogHasProbe(rows)
    ensures WellFormed(RmAll(rows, start, finish, macs)) && EveryLogHasProbe(RmAll(rows, start, finish, macs))
    ensures forall r :: r in rows && !IsLogKey(r.key) ==> r in RmAll(rows, start, finish, macs)
  {
    hide WellFormedRow, EveryLogHasProbe;
    if macs != [] {
      var n := |macs| - 1;
      RmAllKeeps(rows, start, finish, macs[..n]);
      var p := FilterPrefix(macs[n]);
      RemovalKeepsIndex(RmAll(rows, start, finish, macs[..n]), Not(ReachedBy(QueryOf(p, start, finish), RmSeekKey(p, start))), 0);
    }
  }

  /** With the ends in order, what is removed is what one of the filters selects, and no other row. */
  lemma {:induction false} RmAllIsExact(rows: seq<Row>, start: Time, finish: Time, macs: seq<string>)
    requires WellFormed(rows) && EveryLogHasProbe(rows) && start <= Finish(finish)
    ensures RmAll(rows, start, finish, macs) == Keep(rows, Not(WantedByOne(macs, start, finish)))
  {
    if macs == [] {
      KeepAll(rows, Not(WantedByOne(macs, start, finish)));
    } else {
      var n := |macs| - 1;
      RmAllIsExact(rows, start, finish, macs[..n]);
      RmAllKeeps(rows, start, finish, macs[..n]);
      var p := FilterPrefix(macs[n]);
      var f, g := Not(WantedByOne(macs[..n], start, finish)), Not(WantedBy(QueryOf(p, start, finish)));
      RmIsExact(RmAll(rows, start, finish, macs[..n]), p, start, finish);
      KeepTwice(rows, f, g);
      forall r | r in rows ensures Both(f, g)(r) == Not(WantedByOne(macs, start, finish))(r) {
        OneMoreFilter(macs, start, finish, r);
      }
      KeepSame(rows, Both(f, g), Not(WantedByOne(macs, start, finish)));
    }
  }

  lemma OneMoreFilter(macs: seq<string>, start: Time, finish: Time, r: Row)
    requires macs != []
    ensures WantedByAny(macs, start, finish, r)
            <==> WantedByAny(macs[..|macs| - 1], start, finish, r)
                 || Wanted(QueryOf(FilterPrefix(macs[|macs| - 1]), start, finish), r)
  {
    hide Wanted, FilterPrefix;
    var init, last := macs[..|macs| - 1], macs[|macs| - 1];
    assert macs == init + [last];
    if WantedByAny(init, start, finish, r) {
      var mac :| mac in init && WantedByFilter(mac, start, finish, r);
      assert mac in macs;
    }
    if WantedByFilter(last, start, finish, r) {
      assert last in macs;
    }
  }

  lemma {:induction false} NothingToRemove(start: Time, finish: Time, macs: seq<string>)
    ensures RmAll([], start, finish, macs) == []
  {
    if macs != [] {
      NothingToRemove(start, finish, macs[..|macs| - 1]);
    }
  }

  /** A not-found while removing means that the store is empty and was so before the first removal. */
  lemma {:induction false} NotFoundWhileRemoving(rows: seq<Row>, start: Time, finish: Time, macs: seq<string>, i: nat)
    requires WellFormed(rows) && EveryLogHasProbe(rows) && i < |macs|
    ensures var s := RmAll(rows, start, finish, macs[..i]);
            SeekPos(s, RmSeekKey(FilterPrefix(macs[i]), start)) == |s| <==> rows == []
    ensures rows == [] ==> RmAll(rows, start, finish, macs) == []
  {
    var s := RmAll(rows, start, finish, macs[..i]);
    RmAllKeeps(rows, start, finish, macs[..i]);
    assert rows != [] ==> rows[0] in rows;
    if rows == [] {
      NothingToRemove(start, finish, macs);
      NothingToRemove(start, finish, macs[..i]);
    } else if SeekPos(s, RmSeekKey(FilterPrefix(macs[i]), start)) == |s| {
      NotFoundMeansEmpty(s, RmSeekKey(FilterPrefix(macs[i]), start));
      LogImpliesProbe(rows);
    }
  }

  lemma RmAllNext(rows: seq<Row>, start: Time, finish: Time, macs: seq<string>, i: nat)
    requires i <= |macs|
    ensures i == 0 ==> RmAll(rows, start, finish, macs[..i]) == rows
    ensures i < |macs| ==> RmAll(rows, start, finish, macs[..i + 1])
                           == RmLeaves(RmAll(rows, start, finish, macs[..i]), FilterPrefix(macs[i]), start, finish)
  {
    if i < |macs| {
      assert macs[..i + 1][..i] == macs[..i];
    }
  }

  lemma RemovedCount(rows: seq<Row>, p: Prefix, start: Time, finish: Time)
    requires WellFormed(rows)
    ensures |RmRows(rows, p, start, finish)| == |rows| - |RmLeaves(rows, p, start, finish)|
  {
    RmIsExact(rows, p, start, finish);
  }

  /**
    `rmLog`: the store is left as the removals of all filters leave it and their number is
    returned, although the loop ends at the first negative result; not-found for an empty store.
    What is printed as the number of records removed is that number exactly when no call failed.
   */
  method RmLogs(env: DbEnv, macs: seq<string>, start: Time, finish: Time) returns (rr: int)
    requires env.Valid() && !env.inTxn && WellFormed(env.committed) && EveryLogHasProbe(env.committed)
    modifies env
    ensures env.Valid() && !env.inTxn && WellFormed(env.committed)
    ensures env.hard == old(env.hard) && env.commitFull == old(env.commitFull) ==>
              && env.committed == RmAll(old(env.committed), start, finish, macs)
              && rr == if old(env.committed) == [] && macs != [] then MDB_NOTFOUND
                       else |old(env.committed)| - |env.committed|
    ensures rr >= 0 ==> rr >= |old(env.committed)| - |env.committed|
    ensures rr >= 0 ==> (rr == |old(env.committed)| - |env.committed| <==> env.hard == old(env.hard))
  {
    hide WellFormed, Ascending, Before, EveryLogHasProbe, RmAll, RmLeaves, RmRows, SeekPos, RmSeekKey, RemovedSome, FilterPrefix, ScanCount, PassesError, CursorRefused, RemoveCourse, Since;
    rr := 0;
    var isOpen := OpenDb(env);
    if !isOpen {
      return ERRCODE_LMDB_OPEN;
    }
    ghost var rows := env.committed;
    var i := 0;
    RmAllNext(rows, start, finish, macs, 0);
    while i < |macs|
      invariant 0 <= i <= |macs|
      invariant env.Valid() && !env.inTxn && WellFormed(env.committed)
      invariant env.hard >= old(env.hard) && env.commitFull >= old(env.commitFull)
      invariant rr >= 0 && rr >= |rows| - |env.committed|
      invariant rr == |rows| - |env.committed| <==> env.hard == old(env.hard)
      invariant env.hard == old(env.hard) && env.commitFull == old(env.commitFull) ==>
                  && env.committed == RmAll(rows, start, finish, macs[..i]) && rr == |rows| - |env.committed|
                  && (i > 0 ==> rows != [])
    {
      NotFoundWhileRemoving(rows, start, finish, macs, i);
      RmAllNext(rows, start, finish, macs, i);
      RemovedCount(env.committed, FilterPrefix(macs[i]), start, finish);
      var sa, macSize := ParseFilter(macs[i]);
      var r := RmLog(env, Some(sa), macSize, start, finish);
      if r < 0 {
        rr := r;
        return;
      }
      rr := rr + r;
      i := i + 1;
    }
    assert macs[..i] == macs;
  }

  /** The early exit relies on the index: in a store with a record but no last probe it would lose the record. */
  lemma EarlyExitNeedsIndex()
    ensures var rows := Single([0, 0, 0, 0, 0, 0], 1);
            && WellFormed(rows) && !EveryLogHasProbe(rows)
            && SeekPos(rows, ReadSeekKey([255], 0)) == |rows|
            && ReadRows(rows, [], 0, 0) == rows
  {
    var mac: Mac := [0, 0, 0, 0, 0, 0];
    var rows := Single(mac, 1);
    hide ReadRows, WellFormed;
    var k := rows[0].key;
    SingleWellFormed(mac, 1);
    LogKeyRoundTrip(mac, 1);
    assert rows[0] in rows && IsLogKey(k);
    assert ReadSeekKey([255], 0) == [TAG_LOG, 255];
    assert k == [TAG_LOG] + k[1..] && k[1] == 0 && Before(k[1..], [255]);
    BeforeByHead([TAG_LOG], k[1..], [TAG_LOG], [255]);
    WholeStoreReported(rows);
    assert forall r :: r in rows ==> r.key == k;
    assert k != ProbeKey(KeySa(k));
  }

  lemma WholeStoreReported(rows: seq<Row>)
    requires WellFormed(rows) && forall r :: r in rows ==> IsLogKey(r.key)
    ensures ReadRows(rows, [], 0, 0) == rows
  {
    ReadIsExact(rows, [], 0, 0);
    KeepAll(rows, WantedBy(QueryOf([], 0, 0)));
  }

  // ---- Removing notifications --------------------------------------------------------------

  /** A filter at which the loop ends: one whose text is blank, or one that selects a notification. */
  predicate EndsAt(rows: seq<Row>, mac: string) {
    ScanCount(mac) < 0 || NoteRows(rows, FilterPrefix(mac)) != []
  }

  /** The first such filter, or the number of filters. */
  function FirstEnd(rows: seq<Row>, macs: seq<string>): (k: nat)
    ensures k <= |macs|
  {
    if macs == [] || EndsAt(rows, macs[0]) then 0 else 1 + FirstEnd(rows, macs[1..])
  }

  lemma {:induction false} FirstEndIsFirst(rows: seq<Row>, macs: seq<string>)
    ensures var k := FirstEnd(rows, macs);
            (forall j :: 0 <= j < k ==> !EndsAt(rows, macs[j])) && (k < |macs| ==> EndsAt(rows, macs[k]))
  {
    hide EndsAt;
    if macs != [] && !EndsAt(rows, macs[0]) {
      FirstEndIsFirst(rows, macs[1..]);
      forall j | 0 < j < FirstEnd(rows, macs) ensures !EndsAt(rows, macs[j]) {
        assert macs[j] == macs[1..][j - 1];
      }
    }
  }

  /** The process ends at a blank filter. */
  predicate Crashes(rows: seq<Row>, macs: seq<string>) {
    var k := FirstEnd(rows, macs);
    k < |macs| && ScanCount(macs[k]) < 0
  }

  /** What the tool leaves: only the filter that ends the loop removes anything. */
  function LeftByTool(rows: seq<Row>, macs: seq<string>): seq<Row> {
    var k := FirstEnd(rows, macs);
    if k == |macs| || ScanCount(macs[k]) < 0 then rows else NoteLeaves(rows, FilterPrefix(macs[k]))
  }

  /**
    `notificationRm`: the loop ends at the first result that is not zero, a count included, so
    only the first filter that selects a notification removes any; a blank filter before it, and
    the tool's default is one, ends the process.
   */
  method NotificationRm(env: DbEnv, macs: seq<string>) returns (cnt: int, crashed: bool)
    requires env.Valid() && !env.inTxn && WellFormed(env.committed)
    modifies env
    ensures env.Valid() && WellFormed(env.committed) && (env.inTxn <==> crashed)
    ensures env.hard == old(env.hard) && env.commitFull == old(env.commitFull) ==>
              && env.committed == LeftByTool(old(env.committed), macs)
              && (crashed <==> Crashes(old(env.committed), macs))
              && (!crashed ==> cnt == |old(env.committed)| - |env.committed|)
    ensures cnt >= 0 && !crashed ==> (cnt == |old(env.committed)| - |env.committed| <==> env.hard == old(env.hard))
  {
    hide WellFormed, Ascending, Before, NoteRows, NoteLeaves, NotesOf, RemovedSome, FilterPrefix, ScanCount, PassesError, CursorRefused, RemoveCourse, Since;
    cnt, crashed := 0, false;
    var isOpen := OpenDb(env);
    if !isOpen {
      return ERRCODE_LMDB_OPEN, false;
    }
    ghost var rows := env.committed;
    ghost var k := FirstEnd(rows, macs);
    FirstEndIsFirst(rows, macs);
    var i := 0;
    while i < |macs|
      invariant 0 <= i <= |macs| && cnt == 0 && !crashed
      invariant env.Valid() && !env.inTxn && WellFormed(env.committed)
      invariant env.hard == old(env.hard) && env.committed == rows && env.commitFull >= old(env.commitFull)
      invariant env.commitFull == old(env.commitFull) ==> i <= k
    {
      var mac, macSize := ParseFilter(macs[i]);
      NoneLeftAlone(rows, FilterPrefix(macs[i]));
      var r;
      r, crashed := RmNotification(env, mac, macSize);
      if crashed {
        return;
      }
      if r != 0 {
        cnt := r;
        break;
      }
      i := i + 1;
    }
  }

  lemma NoneSelected(rows: seq<Row>, p: Prefix, r: Row)
    requires r in rows
    ensures IsNoteOf(p, r) ==> NoteRows(rows, p) != []
  {
    assert NotesOf(p)(r) ==> r in NoteRows(rows, p);
  }

  lemma NoneLeftAlone(rows: seq<Row>, p: Prefix)
    ensures |NoteRows(rows, p)| == 0 <==> NoteRows(rows, p) == []
    ensures NoteRows(rows, p) == [] ==> NoteLeaves(rows, p) == rows
  {
    assert forall r :: r in rows && NotesOf(p)(r) ==> r in NoteRows(rows, p);
    if NoteRows(rows, p) == [] {
      KeepAll(rows, Not(NotesOf(p)));
    }
  }

  /** A notification that one of the filters selects. */
  predicate NoteOfAny(macs: seq<string>, r: Row) {
    exists mac :: mac in macs && IsNoteOf(FilterPrefix(mac), r)
  }

  function NotesOfAny(macs: seq<string>): Row -> bool {
    r => NoteOfAny(macs, r)
  }

  /** The tool does what its filters ask for: it returns, and the notifications of all filters are gone. */
  predicate RemovesAllNotes(rows: seq<Row>, macs: seq<string>) {
    !Crashes(rows, macs) && LeftByTool(rows, macs) == Keep(rows, Not(NotesOfAny(macs)))
  }

  /**
    It does exactly when no filter ends the loop, or the one that does is not blank and selects every
    notification that any filter selects.
   */
  lemma {:induction false} NotificationRmIsExact(rows: seq<Row>, macs: seq<string>)
    ensures var k := FirstEnd(rows, macs);
            RemovesAllNotes(rows, macs)
            <==> k == |macs|
                 || (ScanCount(macs[k]) >= 0
                     && forall r :: r in rows && NoteOfAny(macs, r) ==> IsNoteOf(FilterPrefix(macs[k]), r))
  {
    hide IsNoteOf, FilterPrefix, ScanCount, FirstEnd;
    var k := FirstEnd(rows, macs);
    FirstEndIsFirst(rows, macs);
    if k == |macs| {
      forall mac, r | mac in macs && r in rows ensures !IsNoteOf(FilterPrefix(mac), r) {
        var j :| 0 <= j < |macs| && macs[j] == mac;
        NoneSelected(rows, FilterPrefix(mac), r);
      }
      KeepAll(rows, Not(NotesOfAny(macs)));
    } else {
      var f, g := NotesOf(FilterPrefix(macs[k])), NotesOfAny(macs);
      assert macs[k] in macs;
      if forall r :: r in rows && NoteOfAny(macs, r) ==> IsNoteOf(FilterPrefix(macs[k]), r) {
        KeepSame(rows, Not(f), Not(g));
      } else {
        var r :| r in rows && NoteOfAny(macs, r) && !IsNoteOf(FilterPrefix(macs[k]), r);
        assert r in Keep(rows, Not(f)) && r !in Keep(rows, Not(g));
      }
    }
  }

  // ---- The histogram ----------------------------------------------------------------------

  /** `macsPerTime` of the tool: every record of every filter's scan, unless the user interrupts. */
  method MacsPerTime(env: DbEnv, retval: HistogramMacsPerTime, req: WacscReqEnv, macs: seq<string>, start: Time, finish: Time)
    returns (r: int)
    requires env.Valid() && !env.inTxn && WellFormed(env.committed) && retval.Valid() && !req.interruptFlag
    modifies env, retval, req
    ensures env.Valid() && !env.inTxn && env.committed == old(env.committed)
    ensures env.hard == old(env.hard) ==>
              retval.histogram == PutTimes(old(retval.histogram), retval.Settings(),
                                           Dts(Flatten(LogScans(env.committed, start, finish, macs))))
  {
    hide WellFormed, Ascending, Feed, FeedAll, Step, ScansOf, FilterPrefix, ReadRows, LogReports, ReadSeekKey, SeekPos, PutTimes;
    r := 0;
    var isOpen := OpenDb(env);
    if !isOpen {
      return ERRCODE_LMDB_OPEN;
    }
    ghost var rows, v := env.committed, HistogramView(retval.Settings(), retval.histogram, false);
    var onLog := PrintHistogram(retval, req);
    var i := 0;
    LogScansNext(rows, start, finish, macs, 0, v);
    while i < |macs|
      invariant 0 <= i <= |macs|
      invariant env.Valid() && !env.inTxn && env.committed == rows && env.hard >= old(env.hard)
      invariant env.hard == old(env.hard) ==> onLog.State() == FeedAll(v, LogScans(rows, start, finish, macs[..i]))
    {
      LogScansNext(rows, start, finish, macs, i, v);
      r := ReadFilter(env, macs[i], start, finish, onLog);
      i := i + 1;
    }
    assert macs[..i] == macs;
    HistogramFeedAll(v.params, v.buckets, LogScans(rows, start, finish, macs));
  }
}
