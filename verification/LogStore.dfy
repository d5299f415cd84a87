/**
  What the rows of the store mean, what each scan of the store selects, and how those
  selections relate to the filter that was asked for.
 */
module LogStore {
  import opened Bytes
  import opened Keys
  import opened Rows
  import opened Seqs

  datatype Option<+T> = None | Some(value: T)

  const LOG_DATA_SIZE := 4
  const PROBE_VAL_SIZE := 8

  type DeviceId = n: int | 0 <= n < 0x1_0000
  type Signal = n: int | -128 <= n < 128

  /** `struct LogData`. */
  datatype LogData = LogData(deviceId: DeviceId, ssiSignal: Signal)

  /** What a scan hands to its callback; a last probe carries no data. */
  datatype Report = Report(sa: Mac, dt: Time, data: Option<LogData>)

  /** `struct LogRecord`: one line of a batch. */
  datatype LogRecord = LogRecord(sa: Mac, dt: Time, data: LogData)

  /** Host order, two's complement, one padding byte. */
  function LogVal(d: LogData): (v: seq<Byte>)
    ensures |v| == LOG_DATA_SIZE
  {
    [d.deviceId % 0x100, d.deviceId / 0x100, d.ssiSignal % 0x100, 0]
  }

  function DecodeLogVal(v: seq<Byte>): LogData
    requires |v| >= LOG_DATA_SIZE
  {
    LogData(v[0] as int + v[1] as int * 0x100, if v[2] < 128 then v[2] as int else v[2] as int - 0x100)
  }

  lemma {:induction false} LogValRoundTrip(d: LogData)
    ensures DecodeLogVal(LogVal(d)) == d
  {
  }

  /** The 64-bit time field: four big-endian bytes, then zeros. */
  function ProbeVal(dt: Time): (v: seq<Byte>)
    ensures |v| == PROBE_VAL_SIZE
  {
    ToBE(dt) + [0, 0, 0, 0]
  }

  function DecodeProbeVal(v: seq<Byte>): Time
    requires |v| >= 4
  {
    FromBE(v[..4])
  }

  lemma ProbeValRoundTrip(dt: Time)
    ensures DecodeProbeVal(ProbeVal(dt)) == dt
  {
    BERoundTrip(dt);
    assert ProbeVal(dt)[..4] == ToBE(dt);
  }

  function LogRow(sa: Mac, dt: Time, d: LogData): Row {
    Row(LogKey(sa, dt), LogVal(d))
  }

  function ProbeRow(sa: Mac, dt: Time): Row {
    Row(ProbeKey(sa), ProbeVal(dt))
  }

  ghost predicate WellFormedRow(r: Row) {
    || (IsLogKey(r.key) && |r.val| == LOG_DATA_SIZE)
    || (IsProbeKey(r.key) && |r.val| == PROBE_VAL_SIZE)
    || (IsNoteKey(r.key) && r.val != [])
  }

  /** Holds of every store this program writes; `Runs.RunKeepsEntries` proves it. */
  ghost predicate WellFormed(rows: seq<Row>) {
    && Ascending(rows)
    && forall r :: r in rows ==> WellFormedRow(r)
  }

  // ---- Filters ----------------------------------------------------------------

  /** A MAC prefix and an inclusive time range. */
  datatype Query = Query(prefix: Prefix, lo: Time, hi: Time)

  /** A finish of zero means no limit. */
  function Finish(finish: Time): Time {
    if finish == 0 then UINT32_MAX else finish
  }

  /** The filter a caller asks for; ends given in the wrong order are swapped. */
  function QueryOf(p: Prefix, start: Time, finish: Time): Query {
    if Finish(finish) < start then Query(p, Finish(finish), start) else Query(p, start, Finish(finish))
  }

  /** The ends of the range in order, no finish being the greatest time. */
  method InOrder(ghost p: Prefix, start: Time, finish: Time) returns (lo: Time, hi: Time)
    ensures Query(p, lo, hi) == QueryOf(p, start, finish)
  {
    lo, hi := start, finish;
    if hi == 0 {
      hi := UINT32_MAX;
    }
    if hi < lo {
      lo, hi := hi, lo;
    }
  }

  predicate Wanted(q: Query, r: Row) {
    IsLogKey(r.key) && HasPrefix(r.key, q.prefix) && q.lo <= KeyTime(r.key) <= q.hi
  }

  predicate WantedProbe(q: Query, r: Row) {
    && IsProbeKey(r.key) && HasPrefix(r.key, q.prefix)
    && |r.val| >= PROBE_VAL_SIZE && q.lo <= DecodeProbeVal(r.val) <= q.hi
  }

  predicate IsNoteOf(p: Prefix, r: Row) {
    IsNoteKey(r.key) && HasPrefix(r.key, p)
  }

  function WantedBy(q: Query): Row -> bool { r => Wanted(q, r) }
  function WantedProbeBy(q: Query): Row -> bool { r => WantedProbe(q, r) }
  function NotesOf(p: Prefix): Row -> bool { r => IsNoteOf(p, r) }
  function Not(f: Row -> bool): Row -> bool { r => !f(r) }

  /** The log records of the store that a filter selects. */
  function LogOf(rows: seq<Row>, q: Query): seq<Row> {
    Keep(rows, WantedBy(q))
  }

  function LogReport(r: Row): Report {
    if |r.key| >= 12 && |r.val| >= LOG_DATA_SIZE
    then Report(KeySa(r.key), KeyTime(r.key), Some(DecodeLogVal(r.val)))
    else Report([0, 0, 0, 0, 0, 0], 0, None)
  }

  function ProbeReport(r: Row): Report {
    if |r.key| >= 7 && |r.val| >= 4
    then Report(KeySa(r.key), DecodeProbeVal(r.val), None)
    else Report([0, 0, 0, 0, 0, 0], 0, None)
  }

  function LogReports(rows: seq<Row>): seq<Report> { Map(LogReport, rows) }
  function ProbeReports(rows: seq<Row>): seq<Report> { Map(ProbeReport, rows) }

  // ---- What the cursor scans reach -----------------------------------------------

  /** `readLog` seeks a full MAC with the start time, and a shorter prefix without. */
  function ReadSeekKey(p: Prefix, start: Time): seq<Byte> {
    if |p| == 6 then LogKey(p, start) else BlockKey(TAG_LOG, p)
  }

  function Padded(p: Prefix): Mac {
    p + seq(6 - |p|, i => 0)
  }

  /** `rmLog` always seeks a whole key, with the prefix filled up with zeros. */
  function RmSeekKey(p: Prefix, start: Time): seq<Byte> {
    LogKey(Padded(p), start)
  }

  predicate Reached(q: Query, seek: seq<Byte>, r: Row) {
    Wanted(q, r) && !Before(r.key, seek)
  }

  function ReachedBy(q: Query, seek: seq<Byte>): Row -> bool { r => Reached(q, seek, r) }

  /** The rows `readLog` reports: those wanted, from the seek key on. */
  function ReadRows(rows: seq<Row>, p: Prefix, start: Time, finish: Time): seq<Row> {
    Keep(rows, ReachedBy(QueryOf(p, start, finish), ReadSeekKey(p, start)))
  }

  /** The rows `rmLog` deletes. */
  function RmRows(rows: seq<Row>, p: Prefix, start: Time, finish: Time): seq<Row> {
    Keep(rows, ReachedBy(QueryOf(p, start, finish), RmSeekKey(p, start)))
  }

  /** The rows `rmLog` leaves. */
  function RmLeaves(rows: seq<Row>, p: Prefix, start: Time, finish: Time): seq<Row> {
    Keep(rows, Not(ReachedBy(QueryOf(p, start, finish), RmSeekKey(p, start))))
  }

  lemma SeekKeyInBlock(p: Prefix, start: Time)
    ensures |ReadSeekKey(p, start)| >= 1 + |p| && ReadSeekKey(p, start)[..1 + |p|] == BlockKey(TAG_LOG, p)
    ensures |RmSeekKey(p, start)| >= 1 + |p| && RmSeekKey(p, start)[..1 + |p|] == BlockKey(TAG_LOG, p)
  {
    var k := RmSeekKey(p, start);
    assert k[1..7] == Padded(p);
    assert k[1..1 + |p|] == Padded(p)[..|p|] == p;
    assert k[..1 + |p|] == [k[0]] + k[1..1 + |p|];
    if |p| == 6 {
      assert Padded(p) == p;
    }
  }

  // ---- Early stops lose nothing ---------------------------------------------------

  /** A row at or after the seek key whose MAC lacks the prefix ends the wanted rows. */
  lemma {:induction false} StopAtPrefix(rows: seq<Row>, i: nat, q: Query, seek: seq<Byte>)
    requires Ascending(rows) && i < |rows| && |rows[i].key| >= 7
    requires |seek| >= 1 + |q.prefix| && seek[..1 + |q.prefix|] == BlockKey(TAG_LOG, q.prefix)
    requires !Before(rows[i].key, seek) && !HasPrefix(rows[i].key, q.prefix)
    ensures forall j :: i <= j < |rows| ==> !Wanted(q, rows[j])
  {
    InBlockParts(rows[i].key, TAG_LOG, q.prefix);
    forall j | i < j < |rows| ensures !Wanted(q, rows[j]) {
      if IsLogKey(rows[j].key) {
        PastBlock(TAG_LOG, q.prefix, seek, rows[i].key, rows[j].key);
        InBlockParts(rows[j].key, TAG_LOG, q.prefix);
      }
    }
  }

  /** A row of another family at or after a log seek key ends the wanted rows. */
  lemma {:induction false} StopAtTag(rows: seq<Row>, i: nat, q: Query, seek: seq<Byte>)
    requires Ascending(rows) && i < |rows| && rows[i].key != []
    requires seek != [] && seek[0] == TAG_LOG && !Before(rows[i].key, seek)
    requires rows[i].key[0] != TAG_LOG
    ensures forall j :: i <= j < |rows| ==> !Wanted(q, rows[j])
  {
    TagOrder(rows[i].key, seek);
    forall j | i < j < |rows| && rows[j].key != [] ensures !Wanted(q, rows[j]) {
      TagOrder(rows[i].key, rows[j].key);
    }
  }

  /** With a full MAC, a log record later than the range ends the wanted rows. */
  lemma {:induction false} StopAtTime(rows: seq<Row>, i: nat, q: Query)
    requires Ascending(rows) && i < |rows|
    requires |q.prefix| == 6 && IsLogKey(rows[i].key) && HasPrefix(rows[i].key, q.prefix)
    requires KeyTime(rows[i].key) > q.hi
    ensures forall j :: i <= j < |rows| ==> !Wanted(q, rows[j])
  {
    forall j | i < j < |rows| ensures !Wanted(q, rows[j]) {
      if Wanted(q, rows[j]) {
        LogKeyDecodes(rows[i].key);
        LogKeyDecodes(rows[j].key);
        LogKeyOrder(q.prefix, KeyTime(rows[i].key), q.prefix, KeyTime(rows[j].key));
        BeforeIrreflexive(q.prefix);
      }
    }
  }

  // ---- The scans against the filter ------------------------------------------------

  /**
    A zero-padded prefix is the least MAC with that prefix, so with the ends in order the
    seek key skips no wanted row.
   */
  lemma {:induction false} SeekSkips(p: Prefix, start: Time, k: seq<Byte>)
    requires IsLogKey(k) && HasPrefix(k, p)
    ensures Before(k, RmSeekKey(p, start)) <==> KeySa(k) == Padded(p) && KeyTime(k) < start
    ensures Before(k, ReadSeekKey(p, start)) <==> |p| == 6 && KeyTime(k) < start
  {
    LogKeyDecodes(k);
    LogKeyOrder(KeySa(k), KeyTime(k), Padded(p), start);
    var rest, zeros := KeySa(k)[|p|..], seq(6 - |p|, i => 0);
    assert KeySa(k) == p + rest by {
      assert KeySa(k)[..|p|] == k[1..1 + |p|];
    }
    BeforeByHead(p, rest, p, zeros);
    BeforeIrreflexive(p);
    NotBeforeZeros(rest, zeros);
    if |p| == 6 {
      assert Padded(p) == p == KeySa(k);
    } else {
      InBlockParts(k, TAG_LOG, p);
      NotBeforePrefix(k, 1 + |p|);
    }
  }

  lemma {:induction false} NotBeforeZeros(s: seq<Byte>, zeros: seq<Byte>)
    requires |s| == |zeros| && forall i :: 0 <= i < |zeros| ==> zeros[i] == 0
    ensures !Before(s, zeros)
  {
    if s != [] {
      NotBeforeZeros(s[1..], zeros[1..]);
    }
  }

  /** A record the reversed range asks `readLog` for, but that lies before its seek key. */
  predicate ReadMisses(p: Prefix, start: Time, finish: Time, r: Row) {
    Wanted(QueryOf(p, start, finish), r) && |p| == 6 && KeyTime(r.key) < start
  }

  predicate RmMisses(p: Prefix, start: Time, finish: Time, r: Row) {
    Wanted(QueryOf(p, start, finish), r) && KeySa(r.key) == Padded(p) && KeyTime(r.key) < start
  }

  /**
    `readLog` reports exactly the records the filter asks for, in order, when the prefix is
    shorter than six bytes or the ends are in order; otherwise exactly when no record of that
    MAC has a time in [finish, start).
   */
  lemma {:induction false} ReadIsExact(rows: seq<Row>, p: Prefix, start: Time, finish: Time)
    requires WellFormed(rows)
    ensures |p| < 6 || start <= Finish(finish)
            ==> ReadRows(rows, p, start, finish) == LogOf(rows, QueryOf(p, start, finish))
    ensures ReadRows(rows, p, start, finish) == LogOf(rows, QueryOf(p, start, finish))
            <==> forall r :: r in rows ==> !ReadMisses(p, start, finish, r)
  {
    var q, seek := QueryOf(p, start, finish), ReadSeekKey(p, start);
    forall r | r in rows && Wanted(q, r)
      ensures Reached(q, seek, r) <==> !ReadMisses(p, start, finish, r)
    {
      SeekSkips(p, start, r.key);
    }
    if forall r :: r in rows ==> !ReadMisses(p, start, finish, r) {
      KeepSame(rows, ReachedBy(q, seek), WantedBy(q));
    } else {
      var r :| r in rows && ReadMisses(p, start, finish, r);
      assert r in LogOf(rows, q) && r !in ReadRows(rows, p, start, finish);
    }
  }

  /** With a full MAC and reversed ends, `readLog` reports the record at the start time and no other. */
  lemma {:induction false} ReadReversed(rows: seq<Row>, p: Prefix, start: Time, finish: Time)
    requires WellFormed(rows) && |p| == 6 && Finish(finish) < start
    ensures ReadRows(rows, p, start, finish) == LogOf(rows, Query(p, start, start))
  {
    var q, seek := QueryOf(p, start, finish), ReadSeekKey(p, start);
    forall r | r in rows
      ensures Reached(q, seek, r) <==> Wanted(Query(p, start, start), r)
    {
      if IsLogKey(r.key) && HasPrefix(r.key, p) {
        SeekSkips(p, start, r.key);
      }
    }
    KeepSame(rows, ReachedBy(q, seek), WantedBy(Query(p, start, start)));
  }

  /**
    `rmLog` deletes exactly the records the filter asks for and leaves every other row as it
    was when the ends are in order; otherwise exactly when no record of the zero-padded prefix
    has a time in [finish, start).
   */
  lemma {:induction false} RmIsExact(rows: seq<Row>, p: Prefix, start: Time, finish: Time)
    requires WellFormed(rows)
    ensures start <= Finish(finish) ==>
              && RmRows(rows, p, start, finish) == LogOf(rows, QueryOf(p, start, finish))
              && RmLeaves(rows, p, start, finish) == Keep(rows, Not(WantedBy(QueryOf(p, start, finish))))
    ensures RmRows(rows, p, start, finish) == LogOf(rows, QueryOf(p, start, finish))
            <==> forall r :: r in rows ==> !RmMisses(p, start, finish, r)
    ensures |RmRows(rows, p, start, finish)| + |RmLeaves(rows, p, start, finish)| == |rows|
  {
    var q, seek := QueryOf(p, start, finish), RmSeekKey(p, start);
    forall r | r in rows && Wanted(q, r)
      ensures Reached(q, seek, r) <==> !RmMisses(p, start, finish, r)
    {
      SeekSkips(p, start, r.key);
    }
    KeepSplitsCount(rows, ReachedBy(q, seek), Not(ReachedBy(q, seek)));
    if forall r :: r in rows ==> !RmMisses(p, start, finish, r) {
      KeepSame(rows, ReachedBy(q, seek), WantedBy(q));
      KeepSame(rows, Not(ReachedBy(q, seek)), Not(WantedBy(q)));
    } else {
      var r :| r in rows && RmMisses(p, start, finish, r);
      assert r in LogOf(rows, q) && r !in RmRows(rows, p, start, finish);
    }
  }

  /** A store with one record. */
  function Single(sa: Mac, dt: Time): seq<Row> {
    [LogRow(sa, dt, LogData(1, -70))]
  }

  lemma SingleWellFormed(sa: Mac, dt: Time)
    ensures WellFormed(Single(sa, dt))
  {
    LogKeyRoundTrip(sa, dt);
  }

  // ---- Order of the reports -----------------------------------------------------------

  predicate ReportBefore(a: Report, b: Report) {
    Before(a.sa, b.sa) || (a.sa == b.sa && a.dt < b.dt)
  }

  /** The reports of a filter are in strictly ascending (MAC, time) order, so none comes twice. */
  lemma LogReportsAscend(rows: seq<Row>, q: Query)
    requires WellFormed(rows)
    ensures forall i, j :: 0 <= i < j < |LogReports(LogOf(rows, q))| ==>
              ReportBefore(LogReports(LogOf(rows, q))[i], LogReports(LogOf(rows, q))[j])
  {
    var kept := LogOf(rows, q);
    KeepAscends(rows, WantedBy(q));
    forall i, j | 0 <= i < j < |kept|
      ensures ReportBefore(LogReport(kept[i]), LogReport(kept[j]))
    {
      assert kept[i] in kept && kept[j] in kept;
      LogRowsOrdered(kept[i], kept[j]);
    }
  }

  lemma LogRowsOrdered(a: Row, b: Row)
    requires WellFormedRow(a) && WellFormedRow(b) && IsLogKey(a.key) && IsLogKey(b.key)
    requires Before(a.key, b.key)
    ensures ReportBefore(LogReport(a), LogReport(b))
  {
    LogKeyDecodes(a.key);
    LogKeyDecodes(b.key);
    LogKeyOrder(KeySa(a.key), KeyTime(a.key), KeySa(b.key), KeyTime(b.key));
  }

  /** The store holds a record of this MAC, time and data. */
  ghost predicate Logged(rows: seq<Row>, sa: Mac, dt: Time, d: LogData) {
    exists r :: r in rows && r.key == LogKey(sa, dt) && |r.val| == LOG_DATA_SIZE && DecodeLogVal(r.val) == d
  }

  lemma ReportedIsLogged(rows: seq<Row>, q: Query, i: nat)
    requires WellFormed(rows) && i < |LogOf(rows, q)|
    ensures var rep := LogReport(LogOf(rows, q)[i]);
            && rep.data.Some? && Logged(rows, rep.sa, rep.dt, rep.data.value)
            && q.prefix <= rep.sa && q.lo <= rep.dt <= q.hi
  {
    var r := LogOf(rows, q)[i];
    assert r in LogOf(rows, q);
    LogKeyDecodes(r.key);
    assert r.key[1..1 + |q.prefix|] == KeySa(r.key)[..|q.prefix|];
  }

  lemma LoggedIsReported(rows: seq<Row>, q: Query, sa: Mac, dt: Time, d: LogData)
    requires WellFormed(rows)
    requires Logged(rows, sa, dt, d) && q.prefix <= sa && q.lo <= dt <= q.hi
    ensures Report(sa, dt, Some(d)) in LogReports(LogOf(rows, q))
  {
    var r :| r in rows && r.key == LogKey(sa, dt) && |r.val| == LOG_DATA_SIZE && DecodeLogVal(r.val) == d;
    LogKeyRoundTrip(sa, dt);
    assert r.key[1..1 + |q.prefix|] == KeySa(r.key)[..|q.prefix|];
    var kept := LogOf(rows, q);
    assert r in kept;
    var i :| 0 <= i < |kept| && kept[i] == r;
    assert LogReports(kept)[i] == Report(sa, dt, Some(d));
  }

  /** A filter's reports are the records of the store with that MAC prefix and a time in range. */
  lemma LogReported(rows: seq<Row>, q: Query, sa: Mac, dt: Time, d: LogData)
    requires WellFormed(rows)
    ensures Report(sa, dt, Some(d)) in LogReports(LogOf(rows, q))
            <==> Logged(rows, sa, dt, d) && q.prefix <= sa && q.lo <= dt <= q.hi
  {
    if Report(sa, dt, Some(d)) in LogReports(LogOf(rows, q)) {
      var i :| 0 <= i < |LogOf(rows, q)| && LogReports(LogOf(rows, q))[i] == Report(sa, dt, Some(d));
      ReportedIsLogged(rows, q, i);
    }
    if Logged(rows, sa, dt, d) && q.prefix <= sa && q.lo <= dt <= q.hi {
      LoggedIsReported(rows, q, sa, dt, d);
    }
  }

  // ---- What the arguments of a call ask for ---------------------------------------------------

  /** The time lies between the two ends, whichever comes first; a finish of zero is no end. */
  predicate Asked(start: Time, finish: Time, t: Time) {
    if finish == 0 then start <= t
    else if start <= finish then start <= t <= finish
    else finish <= t <= start
  }

  lemma {:induction false} QueryAsks(p: Prefix, start: Time, finish: Time, t: Time)
    ensures var q := QueryOf(p, start, finish);
            q.prefix == p && (q.lo <= t <= q.hi <==> Asked(start, finish, t))
  {
  }

  lemma WantedIsAsked(p: Prefix, start: Time, finish: Time, r: Row)
    ensures Wanted(QueryOf(p, start, finish), r)
            <==> IsLogKey(r.key) && p <= KeySa(r.key) && Asked(start, finish, KeyTime(r.key))
  {
    if IsLogKey(r.key) {
      QueryAsks(p, start, finish, KeyTime(r.key));
      assert r.key[1..1 + |p|] == KeySa(r.key)[..|p|];
    }
  }

  /**
    What `readLog` reports, for any arguments: the stored records whose MAC has the prefix and whose time
    lies between the ends, and with a full MAC, which it seeks with the start, only those from the start on.
   */
  lemma {:induction false} ReadReports(rows: seq<Row>, p: Prefix, start: Time, finish: Time, sa: Mac, dt: Time, d: LogData)
    requires WellFormed(rows)
    ensures Report(sa, dt, Some(d)) in LogReports(ReadRows(rows, p, start, finish))
            <==> Logged(rows, sa, dt, d) && p <= sa && Asked(start, finish, dt) && (|p| == 6 ==> start <= dt)
  {
    hide LogVal, Asked, Ascending, Reached, QueryOf, ReadSeekKey;
    var f, got := ReachedBy(QueryOf(p, start, finish), ReadSeekKey(p, start)), ReadRows(rows, p, start, finish);
    if Report(sa, dt, Some(d)) in LogReports(got) {
      var i :| 0 <= i < |got| && LogReports(got)[i] == Report(sa, dt, Some(d));
      assert got[i] in got && f(got[i]);
      ReadReaches(p, start, finish, got[i]);
      LogKeyDecodes(got[i].key);
    }
    if Logged(rows, sa, dt, d) && p <= sa && Asked(start, finish, dt) && (|p| == 6 ==> start <= dt) {
      var r :| r in rows && r.key == LogKey(sa, dt) && |r.val| == LOG_DATA_SIZE && DecodeLogVal(r.val) == d;
      LogKeyRoundTrip(sa, dt);
      ReadReaches(p, start, finish, r);
      assert r in got;
      var i :| 0 <= i < |got| && got[i] == r;
      assert LogReports(got)[i] == Report(sa, dt, Some(d));
    }
  }

  lemma ReadReaches(p: Prefix, start: Time, finish: Time, r: Row)
    ensures Reached(QueryOf(p, start, finish), ReadSeekKey(p, start), r)
            <==> IsLogKey(r.key) && p <= KeySa(r.key) && Asked(start, finish, KeyTime(r.key))
                 && (|p| == 6 ==> start <= KeyTime(r.key))
  {
    WantedIsAsked(p, start, finish, r);
    if Wanted(QueryOf(p, start, finish), r) {
      SeekSkips(p, start, r.key);
    }
  }

  /**
    What `rmLog` leaves, for any arguments: every row but the log records whose MAC has the prefix and whose
    time lies between the ends; and of the MAC that the prefix fills up with zeros also those before the start.
   */
  lemma {:induction false} RmLeavesRow(rows: seq<Row>, p: Prefix, start: Time, finish: Time, r: Row)
    requires WellFormed(rows)
    ensures r in RmLeaves(rows, p, start, finish)
            <==> r in rows && !(IsLogKey(r.key) && p <= KeySa(r.key) && Asked(start, finish, KeyTime(r.key))
                                && (KeySa(r.key) == Padded(p) ==> start <= KeyTime(r.key)))
  {
    WantedIsAsked(p, start, finish, r);
    if Wanted(QueryOf(p, start, finish), r) {
      SeekSkips(p, start, r.key);
    }
  }
}
