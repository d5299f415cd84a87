/**
  The requests that are answered as documented whatever the database holds: for each call that fails
  on some input, the condition on its arguments under which it fails on no store that a run leaves.
 */
module Guards {
  import opened Bytes
  import opened Keys
  import opened Rows
  import opened Seqs
  import opened LogStore
  import opened OtherScans
  import opened DbLog
  import opened DbNotes
  import opened Index
  import opened Runs
  import opened Agreement
  import opened MacText
  import opened Histogram
  import opened Callbacks
  import opened Paging
  import opened Http
  import opened Wacsc

  /** The store at the end of some run. */
  ghost predicate Reachable(rows: seq<Row>) {
    exists states: seq<seq<Row>>, ops: seq<Op> :: Run(states, ops) && rows == states[|ops|]
  }

  lemma ReachableMeans(rows: seq<Row>)
    requires Reachable(rows)
    ensures WellFormed(rows) && EveryLogHasProbe(rows)
  {
    hide OpStep, WellFormed, EveryLogHasProbe;
    var states: seq<seq<Row>>, ops: seq<Op> :| Run(states, ops) && rows == states[|ops|];
    RunKeepsEntries(states, ops);
  }

  lemma ReachableNext(rows: seq<Row>, op: Op, rows': seq<Row>)
    requires Reachable(rows) && OpStep(rows, op, rows')
    ensures Reachable(rows')
  {
    hide OpStep;
    var states: seq<seq<Row>>, ops: seq<Op> :| Run(states, ops) && rows == states[|ops|];
    var states', ops' := states + [rows'], ops + [op];
    forall i | 0 <= i < |ops'| ensures OpStep(states'[i], ops'[i], states'[i + 1]) {
      assert i < |ops| ==> states'[i] == states[i] && ops'[i] == ops[i] && states'[i + 1] == states[i + 1];
    }
    assert Run(states', ops') && rows' == states'[|ops'|];
  }

  lemma EmptyReachable()
    ensures Reachable([])
  {
    var states: seq<seq<Row>>, ops: seq<Op> := [[]], [];
    assert Run(states, ops) && states[|ops|] == [];
  }

  function OneRecord(sa: Mac, dt: Time): LogRecord {
    LogRecord(sa, dt, LogData(1, -70))
  }

  /** The store of one record: its log row and its last probe. */
  function StoreOfOne(sa: Mac, dt: Time): seq<Row> {
    assert Ascending([]);
    PutAll([], Writes([OneRecord(sa, dt)]))
  }

  lemma StoreOfOneRows(sa: Mac, dt: Time)
    ensures Reachable(StoreOfOne(sa, dt)) && WellFormed(StoreOfOne(sa, dt))
    ensures LogRow(sa, dt, LogData(1, -70)) in StoreOfOne(sa, dt)
    ensures IsLogKey(LogKey(sa, dt)) && KeySa(LogKey(sa, dt)) == sa && KeyTime(LogKey(sa, dt)) == dt
    ensures ProbeAt(StoreOfOne(sa, dt), sa, dt)
    ensures forall r :: r in StoreOfOne(sa, dt) ==> !IsNoteKey(r.key)
  {
    hide Put, WellFormedRow, LogVal, ProbeVal, Reachable;
    var rec, rows := OneRecord(sa, dt), StoreOfOne(sa, dt);
    var l, p := LogRow(sa, dt, rec.data), ProbeRow(sa, dt);
    KeyShapes(sa, dt, rec.data);
    WritesOne(rec);
    assert Writes([rec]) == Pair(rec) && Writes([rec])[0..] == Writes([rec]);
    assert WellFormed([]) by { EmptyStore(); }
    PairIsTwoPuts([], rec);
    PutKeepsWellFormed([], l);
    PutKeepsWellFormed(Put([], l), p);
    assert p in rows;
    EmptyReachable();
    assert Stored([], RecordsOf(PutBatch([rec])), 0, rows);
    ReachableNext([], PutBatch([rec]), rows);
  }

  lemma StoreOfOneIs(sa: Mac, dt: Time)
    ensures StoreOfOne(sa, dt) == [LogRow(sa, dt, LogData(1, -70)), ProbeRow(sa, dt)]
  {
    hide Put, PutAll, LogRow, ProbeRow, Before, Ascending, Pair;
    var rec := OneRecord(sa, dt);
    var l, p := LogRow(sa, dt, rec.data), ProbeRow(sa, dt);
    WritesOne(rec);
    assert [] + Pair(rec) == Pair(rec);
    TwoRows(sa, dt, rec.data);
    PairIsTwoPuts([], rec);
    PutAscends([], l);
    PutAscends(Put([], l), p);
    SameRows(StoreOfOne(sa, dt), [l, p]);
  }

  lemma TwoRows(sa: Mac, dt: Time, d: LogData)
    ensures Ascending([]) && Ascending([LogRow(sa, dt, d), ProbeRow(sa, dt)])
    ensures LogRow(sa, dt, d).key != ProbeRow(sa, dt).key
  {
    hide LogVal, ProbeVal;
    KeyShapes(sa, dt, d);
    TagOrder(LogRow(sa, dt, d).key, ProbeRow(sa, dt).key);
  }

  // ---- Reversed ends ------------------------------------------------------------------------

  /** `readLog` meets its filter on every store exactly when the ends are in order or the MAC is partial. */
  lemma {:induction false} ReadGuard(p: Prefix, start: Time, finish: Time)
    ensures (forall rows: seq<Row> :: Reachable(rows) ==>
               ReadRows(rows, p, start, finish) == LogOf(rows, QueryOf(p, start, finish)))
            <==> |p| < 6 || start <= Finish(finish)
  {
    hide Reachable, StoreOfOne, WellFormed;
    if |p| < 6 || start <= Finish(finish) {
      forall rows: seq<Row> | Reachable(rows)
        ensures ReadRows(rows, p, start, finish) == LogOf(rows, QueryOf(p, start, finish))
      {
        ReachableMeans(rows);
        ReadIsExact(rows, p, start, finish);
      }
    } else {
      var dt := Finish(finish);
      var rows, r := StoreOfOne(p, dt), LogRow(p, dt, LogData(1, -70));
      StoreOfOneRows(p, dt);
      ReadIsExact(rows, p, start, finish);
      assert r in rows && ReadMisses(p, start, finish, r);
    }
  }

  /** `rmLog` meets its filter on every store exactly when the ends are in order, whatever the prefix. */
  lemma {:induction false} RmGuard(p: Prefix, start: Time, finish: Time)
    ensures (forall rows: seq<Row> :: Reachable(rows) ==>
               RmRows(rows, p, start, finish) == LogOf(rows, QueryOf(p, start, finish)))
            <==> start <= Finish(finish)
  {
    hide Reachable, StoreOfOne, WellFormed;
    if start <= Finish(finish) {
      forall rows: seq<Row> | Reachable(rows)
        ensures RmRows(rows, p, start, finish) == LogOf(rows, QueryOf(p, start, finish))
      {
        ReachableMeans(rows);
        RmIsExact(rows, p, start, finish);
      }
    } else {
      var sa, dt := Padded(p), Finish(finish);
      var rows, r := StoreOfOne(sa, dt), LogRow(sa, dt, LogData(1, -70));
      StoreOfOneRows(sa, dt);
      RmIsExact(rows, p, start, finish);
      assert r.key[1..1 + |p|] == KeySa(r.key)[..|p|] == Padded(p)[..|p|];
      assert r in rows && RmMisses(p, start, finish, r);
    }
  }

  /**
    A histogram request counts everything on every store exactly when its ends are in order and it
    has a finish.  Otherwise the scan reports records that the histogram refuses.
   */
  lemma {:induction false} HistogramGuard(start: Time, finish: Time, step: int)
    requires step > 0
    ensures (forall rows: seq<Row>, filters: seq<string> :: Reachable(rows) ==> CountsAll(rows, start, finish, step, filters))
            <==> start <= finish && finish != 0
  {
    hide Reachable, StoreOfOne, WellFormed, CountsAll;
    if start <= finish && finish != 0 {
      forall rows: seq<Row>, filters: seq<string> | Reachable(rows)
        ensures CountsAll(rows, start, finish, step, filters)
      {
        ReachableMeans(rows);
        HistogramCountsAll(rows, start, finish, step, filters);
      }
    } else {
      var sa: Mac, dt := [2, 0, 0, 0, 0, 1], Finish(finish);
      StoreOfOneRows(sa, dt);
      Uncounted(sa, start, finish, step);
    }
  }

  lemma Uncounted(sa: Mac, start: Time, finish: Time, step: int)
    requires step > 0 && !(start <= finish && finish != 0)
    ensures !CountsAll(StoreOfOne(sa, Finish(finish)), start, finish, step, [""])
  {
    hide StoreOfOne, ScansOf, ScanReports, InRange;
    var dt := Finish(finish);
    var reports := ScanReports(StoreOfOne(sa, dt), false, start, finish, "");
    OneLogReported(sa, dt, start, finish);
    OneScan(StoreOfOne(sa, dt), false, start, finish, "");
    var i :| 0 <= i < |reports| && reports[i] == Report(sa, dt, Some(LogData(1, -70)));
    var p := Params(start, finish, step);
    assert Dts(reports)[i] == dt;
    OutOfRange(p, dt);
    KeepAllMeans(Dts(reports), RangeBy(p));
  }

  lemma OutOfRange(p: Params, t: int)
    requires p.step > 0 && (t < p.start || t > p.finish)
    ensures !RangeBy(p)(t)
  {
  }

  lemma OneLogReported(sa: Mac, dt: Time, start: Time, finish: Time)
    requires QueryOf([], start, finish).lo <= dt <= QueryOf([], start, finish).hi
    ensures Report(sa, dt, Some(LogData(1, -70))) in ScanReports(StoreOfOne(sa, dt), false, start, finish, "")
  {
    hide StoreOfOne, WellFormed, FilterPrefix, WellFormedRow, ReadRows, LogOf, LogReports, LogVal, ProbeAt;
    var rows, data := StoreOfOne(sa, dt), LogData(1, -70);
    StoreOfOneRows(sa, dt);
    NoFilter();
    ReadIsExact(rows, [], start, finish);
    LogValRoundTrip(data);
    LoggedIsReported(rows, QueryOf([], start, finish), sa, dt, data);
  }

  /** A selection of the same length has selected everything. */
  lemma {:induction false} KeepAllMeans<T(!new)>(s: seq<T>, f: T -> bool)
    ensures |Keep(s, f)| == |s| ==> forall x :: x in s ==> f(x)
  {
    if s != [] {
      KeepAllMeans(s[..|s| - 1], f);
      assert s == s[..|s| - 1] + [s[|s| - 1]];
    }
  }

  // ---- Notifications among the last probes ---------------------------------------------------

  /** The store of one notification. */
  function StoreOfNote(sa: Mac, text: seq<Byte>): seq<Row> {
    [Row(NoteKey(sa, Zeros(9)), text)]
  }

  lemma StoreOfNoteReachable(sa: Mac, text: seq<Byte>)
    requires text != []
    ensures Reachable(StoreOfNote(sa, text))
  {
    hide Reachable;
    EmptyReachable();
    var row := Row(NoteKey(sa, Zeros(9)), text);
    assert Ascending([]) && Put([], row) == [row];
    ReachableNext([], SetNote(sa, Zeros(9), text), [row]);
  }

  /**
    No request for last probes is answered as documented on every store: whatever its prefix and its
    range, one notification of a MAC with the prefix, whose text begins with the lower end, is reported as a probe.
   */
  lemma {:induction false} ProbeGuard(p: Prefix, start: Time, finish: Time)
    ensures var rows := StoreOfNote(Padded(p), ProbeVal(QueryOf(p, start, finish).lo));
            && Reachable(rows)
            && ProbeRows(rows, p, start, finish) == rows != ProbesOf(rows, QueryOf(p, start, finish)) == []
  {
    hide Reachable, ProbeRows, ProbeVal, Leaks;
    var q := QueryOf(p, start, finish);
    var text := ProbeVal(q.lo);
    var rows := StoreOfNote(Padded(p), text);
    StoreOfNoteReachable(Padded(p), text);
    ReachableMeans(rows);
    OnlyNoteLeaks(p, q, text, rows);
    ProbeRowsMembers(rows, p, start, finish, 0);
    ProbeRowsAscend(rows, p, start, finish);
    forall r ensures r in ProbeRows(rows, p, start, finish) <==> r in rows {
    }
    SameRows(ProbeRows(rows, p, start, finish), rows);
    KeepNone(rows, WantedProbeBy(q));
  }

  lemma OnlyNoteLeaks(p: Prefix, q: Query, text: seq<Byte>, rows: seq<Row>)
    requires rows == StoreOfNote(Padded(p), text) && q.prefix == p && q.lo <= q.hi && text == ProbeVal(q.lo)
    ensures Leaks(rows, q, rows[0]) && IsNoteKey(rows[0].key) && !IsProbeKey(rows[0].key)
  {
    hide ProbeVal;
    var n := rows[0];
    ProbeValRoundTrip(q.lo);
    assert n.key[1..1 + |p|] == Padded(p)[..|p|] == p;
    assert n in rows;
  }

  /** A run that never sets a notification has none, and then every such request is. */
  lemma {:induction false} ProbesWithoutNotes(states: seq<seq<Row>>, ops: seq<Op>, p: Prefix, start: Time, finish: Time)
    requires Run(states, ops) && forall op :: op in ops ==> !op.SetNote?
    ensures ProbeRows(states[|ops|], p, start, finish) == ProbesOf(states[|ops|], QueryOf(p, start, finish))
  {
    hide ProbeRows, WellFormed, EveryLogHasProbe, OpStep;
    RunKeepsEntries(states, ops);
    RunKeepsNoNotes(states, ops);
    ProbeScanIsExact(states[|ops|], p, start, finish);
  }

  lemma {:induction false} RunKeepsNoNotes(states: seq<seq<Row>>, ops: seq<Op>)
    requires Run(states, ops) && forall op :: op in ops ==> !op.SetNote?
    ensures Agreement.NoNotes(states[|ops|])
  {
    hide OpStep, Agreement.NoNotes;
    if ops == [] {
      NothingNoted();
    } else {
      var n := |ops| - 1;
      RunPrefix(states, ops);
      assert forall op :: op in ops[..n] ==> op in ops;
      RunKeepsNoNotes(states[..|ops|], ops[..n]);
      assert OpStep(states[n], ops[n], states[n + 1]) && ops[n] in ops;
      StepKeepsNoNotes(states[n], ops[n], states[n + 1]);
    }
  }

  lemma StepKeepsNoNotes(s: seq<Row>, op: Op, s': seq<Row>)
    requires OpStep(s, op, s') && !op.SetNote? && Agreement.NoNotes(s)
    ensures Agreement.NoNotes(s')
  {
    hide Writes, PutAll, Ascending;
    if s' != s && IsPut(op) {
      var lost :| Stored(s, RecordsOf(op), lost, s');
      var w := Writes(RecordsOf(op));
      forall r | r in s' ensures !IsNoteKey(r.key) {
        PutAllMeaning(s, w[lost..], r);
        if r !in s {
          assert r in w;
          WrittenIs(RecordsOf(op), r);
        }
      }
    }
  }

  /** What a batch writes: the log row or the last probe of one of its records. */
  lemma {:induction false} WrittenIs(recs: seq<LogRecord>, r: Row)
    requires r in Writes(recs)
    ensures exists rec :: rec in recs && (r == LogRow(rec.sa, rec.dt, rec.data) || r == ProbeRow(rec.sa, rec.dt))
    ensures !IsNoteKey(r.key)
  {
    hide LogVal, ProbeVal;
    var init, last := recs[..|recs| - 1], recs[|recs| - 1];
    if r in Writes(init) {
      WrittenIs(init, r);
      assert forall rec :: rec in init ==> rec in recs;
    } else {
      assert r in Pair(last) && last in recs;
    }
  }

  // ---- The size of a page ---------------------------------------------------------------------

  const MAX_PAGE := 1000

  function Answer(rows: seq<Row>, probes: bool, start: Time, finish: Time, filters: seq<string>, o: SizeT, c: SizeT): seq<Report> {
    WalkAll(true, Page(0, o, c), ScansOf(rows, probes, start, finish, filters)).out
  }

  /** The filter that selects every MAC, n times. */
  function Everything(n: nat): seq<string> {
    seq(n, i => "")
  }

  lemma {:induction false} EverythingReported(rows: seq<Row>, probes: bool, n: nat)
    requires ScanReports(rows, probes, 0, 0, "") != []
    ensures |Flatten(ScansOf(rows, probes, 0, 0, Everything(n)))| >= n
  {
    hide ScanReports, ScansOf, Flatten;
    if n > 0 {
      assert Everything(n)[..n - 1] == Everything(n - 1) && Everything(n)[..n] == Everything(n);
      EverythingReported(rows, probes, n - 1);
      ScansNext(rows, probes, 0, 0, Everything(n), n - 1);
      FlattenNext(ScansOf(rows, probes, 0, 0, Everything(n - 1)), ScanReports(rows, probes, 0, 0, ""));
    }
  }

  lemma FlattenNext(scans: seq<seq<Report>>, s: seq<Report>)
    ensures |Flatten(scans + [s])| == |Flatten(scans)| + |s|
  {
    assert (scans + [s])[..|scans|] == scans;
  }

  lemma OneReported(sa: Mac, dt: Time, probes: bool)
    ensures ScanReports(StoreOfOne(sa, dt), probes, 0, 0, "") != []
  {
    hide StoreOfOne, WellFormed, FilterPrefix, ProbeAt;
    var rows, q := StoreOfOne(sa, dt), QueryOf([], 0, 0);
    StoreOfOneRows(sa, dt);
    NoFilter();
    if probes {
      ProbeScanIsExact(rows, [], 0, 0);
      ProbeIsReported(rows, q, sa, dt);
    } else {
      OneLogReported(sa, dt, 0, 0);
    }
  }

  /** As many different MACs and times as 64 bits can number; the MACs differ as far as theirs can. */
  function NthRecord(i: nat): LogRecord
    requires i < TWO_TO_THE_64
  {
    var x := i % TWO_TO_THE_48;
    OneRecord(ToBE(x / 0x1_0000) + [x / 0x100 % 0x100, x % 0x100], i / TWO_TO_THE_48)
  }

  const TWO_TO_THE_48: int := 0x1_0000_0000_0000

  lemma NthRecordNumber(i: nat)
    requires i < TWO_TO_THE_64
    ensures var rec := NthRecord(i);
            rec.dt * TWO_TO_THE_48 + FromBE(rec.sa[..4]) as int * 0x1_0000 + rec.sa[4] as int * 0x100 + rec.sa[5] as int == i
  {
    var x := i % TWO_TO_THE_48;
    BERoundTrip(x / 0x1_0000);
    assert NthRecord(i).sa[..4] == ToBE(x / 0x1_0000);
  }

  function ManyRecords(n: nat): (recs: seq<LogRecord>)
    requires n <= TWO_TO_THE_64
  {
    seq(n, i requires 0 <= i < n => NthRecord(i))
  }

  /** The store of n records. */
  function StoreOfMany(n: nat): seq<Row>
    requires n <= TWO_TO_THE_64
  {
    assert Ascending([]);
    PutAll([], Writes(ManyRecords(n)))
  }

  lemma {:induction false} WritesLog(recs: seq<LogRecord>, rec: LogRecord)
    requires rec in recs
    ensures LogRow(rec.sa, rec.dt, rec.data) in Writes(recs)
  {
    hide LogRow, ProbeRow;
    if rec != recs[|recs| - 1] {
      WritesLog(recs[..|recs| - 1], rec);
    } else {
      assert LogRow(rec.sa, rec.dt, rec.data) in Pair(rec);
    }
  }

  lemma SameLogKey(a: LogRecord, b: LogRecord)
    ensures LogKey(a.sa, a.dt) == LogKey(b.sa, b.dt) ==> a.sa == b.sa && a.dt == b.dt
    ensures LogKey(a.sa, a.dt) != ProbeKey(b.sa)
  {
    LogKeyRoundTrip(a.sa, a.dt);
    LogKeyRoundTrip(b.sa, b.dt);
  }

  /** A batch whose records all carry the same data stores each of them. */
  lemma BatchHasLog(recs: seq<LogRecord>, rec: LogRecord, d: LogData)
    requires rec in recs && forall r :: r in recs ==> r.data == d
    ensures Ascending([]) && LogRow(rec.sa, rec.dt, d) in PutAll([], Writes(recs))
  {
    hide PutAll, Writes, LogVal, ProbeVal, LogKey, ProbeKey, Unwritten;
    var w, row := Writes(recs), LogRow(rec.sa, rec.dt, d);
    WritesLog(recs, rec);
    WrittenOnce(w, row);
    var j := LastWriteOf(w, row.key);
    WrittenIs(recs, w[j]);
    var other :| other in recs && (w[j] == LogRow(other.sa, other.dt, other.data) || w[j] == ProbeRow(other.sa, other.dt));
    SameLogKey(rec, other);
    PutAllMeaning([], w, row);
  }

  lemma WrittenOnce(w: seq<Row>, r: Row)
    requires r in w
    ensures !Unwritten(w, r.key)
  {
  }

  lemma StoreOfManyReachable(n: nat)
    requires n <= TWO_TO_THE_64
    ensures Reachable(StoreOfMany(n)) && WellFormed(StoreOfMany(n)) && EveryLogHasProbe(StoreOfMany(n))
    ensures Agreement.NoNotes(StoreOfMany(n))
  {
    hide Reachable, WellFormed, EveryLogHasProbe, Agreement.NoNotes, PutAll, Writes;
    var recs := ManyRecords(n);
    EmptyReachable();
    assert Writes(recs)[0..] == Writes(recs);
    assert Stored([], RecordsOf(PutBatch(recs)), 0, StoreOfMany(n)) by { assert Ascending([]); }
    ReachableNext([], PutBatch(recs), StoreOfMany(n));
    ReachableMeans(StoreOfMany(n));
    NothingNoted();
    StepKeepsNoNotes([], PutBatch(recs), StoreOfMany(n));
  }

  /** Record i is reported, and as a last probe so is its MAC. */
  lemma NthReported(n: nat, i: nat, probes: bool)
    requires i < n <= TWO_TO_THE_64
    ensures var reports, rec := ScanReports(StoreOfMany(n), probes, 0, 0, ""), NthRecord(i);
            if probes then rec.sa in Map((r: Report) => r.sa, reports)
            else Report(rec.sa, rec.dt, Some(LogData(1, -70))) in reports
  {
    hide Reachable, WellFormed, WellFormedRow, EveryLogHasProbe, StoreOfMany, FilterPrefix, ReadRows, ProbeRows, ProbesOf, LogOf, LogVal;
    var rows, rec, q, d := StoreOfMany(n), NthRecord(i), QueryOf([], 0, 0), LogData(1, -70);
    StoreOfManyReachable(n);
    NoFilter();
    assert ManyRecords(n)[i] == rec;
    StoreHasLog(n, rec);
    var row := LogRow(rec.sa, rec.dt, d);
    LogKeyRoundTrip(rec.sa, rec.dt);
    if probes {
      ProbeScanIsExact(rows, [], 0, 0);
      LogHasEntry(rows, row);
      var p :| p in rows && p.key == ProbeKey(rec.sa);
      ProbeIsReported(rows, q, rec.sa, ProbeTime(p));
      var reports := ProbeReports(ProbesOf(rows, q));
      var k :| 0 <= k < |reports| && reports[k] == Report(rec.sa, ProbeTime(p), None);
      assert Map((r: Report) => r.sa, reports)[k] == rec.sa;
    } else {
      ReadIsExact(rows, [], 0, 0);
      LogValRoundTrip(d);
      LoggedIsReported(rows, q, rec.sa, rec.dt, d);
    }
  }

  lemma StoreHasLog(n: nat, rec: LogRecord)
    requires n <= TWO_TO_THE_64 && rec in ManyRecords(n)
    ensures LogRow(rec.sa, rec.dt, LogData(1, -70)) in StoreOfMany(n)
  {
    hide LogRow;
    BatchHasLog(ManyRecords(n), rec, LogData(1, -70));
  }

  lemma LogHasEntry(rows: seq<Row>, r: Row)
    requires EveryLogHasProbe(rows) && r in rows && IsLogKey(r.key)
    ensures HasProbe(rows, KeySa(r.key))
  {
  }

  /** A sequence that has n different elements has at least n. */
  lemma {:induction false} AtLeast<T>(xs: seq<T>, s: seq<T>)
    requires forall i, j :: 0 <= i < j < |xs| ==> xs[i] != xs[j]
    requires forall x :: x in xs ==> x in s
    ensures |xs| <= |s|
  {
    if xs != [] {
      var n := |xs| - 1;
      assert xs[n] in s;
      var k :| 0 <= k < |s| && s[k] == xs[n];
      var rest := s[..k] + s[k + 1..];
      forall x | x in xs[..n] ensures x in rest {
        assert x in xs && x != xs[n];
        var i :| 0 <= i < |s| && s[i] == x;
        assert i < k ==> rest[i] == x;
        assert i > k ==> rest[i - 1] == x;
      }
      AtLeast(xs[..n], rest);
    }
  }

  lemma ManyReported(n: nat, probes: bool)
    requires n <= TWO_TO_THE_64 && (probes ==> n <= TWO_TO_THE_48)
    ensures |ScanReports(StoreOfMany(n), probes, 0, 0, "")| >= n
  {
    hide ScanReports, StoreOfMany, NthRecord;
    var reports := ScanReports(StoreOfMany(n), probes, 0, 0, "");
    forall i | 0 <= i < n
      ensures if probes then NthRecord(i).sa in Map((r: Report) => r.sa, reports)
              else Report(NthRecord(i).sa, NthRecord(i).dt, Some(LogData(1, -70))) in reports
    {
      NthReported(n, i, probes);
    }
    forall i, j | 0 <= i < j < n ensures NthRecord(i).sa != NthRecord(j).sa || (!probes && NthRecord(i).dt != NthRecord(j).dt) {
      NthRecordNumber(i);
      NthRecordNumber(j);
      EarlyTime(i, n, probes);
      EarlyTime(j, n, probes);
    }
    if probes {
      AtLeast(seq(n, i requires 0 <= i < n => NthRecord(i).sa), Map((r: Report) => r.sa, reports));
    } else {
      AtLeast(seq(n, i requires 0 <= i < n => Report(NthRecord(i).sa, NthRecord(i).dt, Some(LogData(1, -70)))), reports);
    }
  }

  lemma EarlyTime(i: nat, n: nat, probes: bool)
    requires i < n <= TWO_TO_THE_64 && (probes ==> n <= TWO_TO_THE_48)
    ensures probes ==> NthRecord(i).dt == 0
  {
  }

  lemma SliceSize(all: seq<Report>, o: nat, c: nat, m: nat)
    requires m <= c
    ensures |Slice(all, o, c)| <= c
    ensures |all| >= o + m ==> |Slice(all, o, c)| >= m
  {
  }

  /** A store of records enough fills m places of a page with a single filter. */
  lemma ManyAnswered(probes: bool, o: SizeT, c: SizeT, m: nat)
    requires o + c < TWO_TO_THE_64 && m <= c && (probes ==> o + m <= TWO_TO_THE_48)
    ensures m <= |Answer(StoreOfMany(o + m), probes, 0, 0, [""], o, c)| <= c
  {
    hide WalkAll, ScansOf, StoreOfMany, Slice, Flatten, ScanReports;
    var scans := ScansOf(StoreOfMany(o + m), probes, 0, 0, [""]);
    ManyReported(o + m, probes);
    OneScan(StoreOfMany(o + m), probes, 0, 0, "");
    PageIsSlice(true, o, c, scans);
    SliceSize(Flatten(scans), o, c, m);
  }

  /**
    No answer has more than 1000 records, whatever the store and the filters, exactly when the
    request's count, or the configured one in its place, is at most 1000 or the end of the page wraps
    around 64 bits.  Otherwise one filter is enough, as long as the store can have the records: there
    are 2^48 MACs for last probes.
   */
  lemma {:induction false} PageLimit(probes: bool, offset: int, count: int, configCount: SizeT)
    ensures var o, c := ToSizeT(offset), PageCount(count, configCount);
            (forall rows: seq<Row>, start: Time, finish: Time, filters: seq<string> :: Reachable(rows) ==>
               |Answer(rows, probes, start, finish, filters, o, c)| <= MAX_PAGE)
            <==> c <= MAX_PAGE || o + c >= TWO_TO_THE_64
  {
    hide Reachable, Answer, StoreOfOne, StoreOfMany;
    var o, c := ToSizeT(offset), PageCount(count, configCount);
    if c <= MAX_PAGE || o + c >= TWO_TO_THE_64 {
      forall rows: seq<Row>, start: Time, finish: Time, filters: seq<string> | Reachable(rows)
        ensures |Answer(rows, probes, start, finish, filters, o, c)| <= MAX_PAGE
      {
        AnswerFits(rows, probes, start, finish, filters, o, c);
      }
    } else if probes && o + MAX_PAGE + 1 > TWO_TO_THE_48 {
      var sa: Mac := [2, 0, 0, 0, 0, 1];
      StoreOfOneRows(sa, 1);
      LargeAnswer(sa, 1, probes, o, c);
      assert |Answer(StoreOfOne(sa, 1), probes, 0, 0, Everything(o + c), o, c)| > MAX_PAGE;
    } else {
      StoreOfManyReachable(o + MAX_PAGE + 1);
      ManyAnswered(probes, o, c, MAX_PAGE + 1);
      assert |Answer(StoreOfMany(o + MAX_PAGE + 1), probes, 0, 0, [""], o, c)| > MAX_PAGE;
    }
  }

  lemma AnswerFits(rows: seq<Row>, probes: bool, start: Time, finish: Time, filters: seq<string>, o: SizeT, c: SizeT)
    requires c <= MAX_PAGE || o + c >= TWO_TO_THE_64
    ensures |Answer(rows, probes, start, finish, filters, o, c)| <= MAX_PAGE
  {
    hide WalkAll, ScansOf, Slice, Flatten;
    var scans := ScansOf(rows, probes, start, finish, filters);
    if o + c >= TWO_TO_THE_64 {
      WrappedPageIsEmpty(true, o, c, scans);
    } else {
      PageIsSlice(true, o, c, scans);
      SliceSize(Flatten(scans), o, c, 0);
    }
  }

  /** One record fills a page of any size when its filter is given often enough. */
  lemma LargeAnswer(sa: Mac, dt: Time, probes: bool, o: SizeT, c: SizeT)
    requires o + c < TWO_TO_THE_64
    ensures |Answer(StoreOfOne(sa, dt), probes, 0, 0, Everything(o + c), o, c)| == c
  {
    hide WalkAll, ScansOf, StoreOfOne, Slice, Flatten, ScanReports;
    var scans := ScansOf(StoreOfOne(sa, dt), probes, 0, 0, Everything(o + c));
    OneReported(sa, dt, probes);
    EverythingReported(StoreOfOne(sa, dt), probes, o + c);
    PageIsSlice(true, o, c, scans);
    SliceSize(Flatten(scans), o, c, c);
  }

  /** For instance: with 1001 records stored, a request with count 1001 and one filter is answered with 1001. */
  lemma CountOf1001(probes: bool)
    ensures Reachable(StoreOfMany(1001))
    ensures |Answer(StoreOfMany(1001), probes, 0, 0, [""], 0, PageCount(1001, MAX_PAGE))| == 1001
  {
    hide Answer, StoreOfMany, Reachable;
    StoreOfManyReachable(1001);
    ManyAnswered(probes, 0, 1001, 1001);
  }

  // ---- Removing notifications ----------------------------------------------------------------

  /** The store after two notifications. */
  function TwoNotes(a: Mac, b: Mac): seq<Row> {
    assert Ascending([]);
    var first := NoteStored([], NoteKey(a, Zeros(9)), [123, 125]);
    PutAscends([], Row(NoteKey(a, Zeros(9)), [123, 125]));
    NoteStored(first, NoteKey(b, Zeros(9)), [123, 125])
  }

  lemma TwoNotesRows(a: Mac, b: Mac)
    requires a != b
    ensures Reachable(TwoNotes(a, b))
    ensures var x, y := Row(NoteKey(a, Zeros(9)), [123, 125]), Row(NoteKey(b, Zeros(9)), [123, 125]);
            forall r :: r in TwoNotes(a, b) <==> r == x || r == y
  {
    hide Put, Reachable;
    var x, y := Row(NoteKey(a, Zeros(9)), [123, 125]), Row(NoteKey(b, Zeros(9)), [123, 125]);
    assert KeySa(x.key) == a && KeySa(y.key) == b;
    PutAscends([], x);
    PutAscends(Put([], x), y);
    EmptyReachable();
    ReachableNext([], SetNote(a, Zeros(9), [123, 125]), Put([], x));
    ReachableNext(Put([], x), SetNote(b, Zeros(9), [123, 125]), TwoNotes(a, b));
  }

  lemma NoteSelected(p: Prefix, sa: Mac)
    ensures IsNoteOf(p, Row(NoteKey(sa, Zeros(9)), [123, 125])) <==> p <= sa
  {
    var k := NoteKey(sa, Zeros(9));
    assert KeySa(k) == sa && k[1..1 + |p|] == sa[..|p|];
  }

  /** A MAC that one filter selects and another does not. */
  function Outside(p: Prefix, q: Prefix): (m: Mac)
    requires !(q <= p)
    ensures p <= m && !(q <= m)
  {
    if p <= q then
      var b: Byte := if q[|p|] == 0 then 1 else 0;
      var m := Padded(p + [b]);
      assert m[|p|] == b && m[..|p|] == p;
      m
    else
      var m := Padded(p);
      assert m[..|p|] == p;
      Comparable(p, q, m);
      m
  }

  lemma Comparable(p: Prefix, q: Prefix, m: Mac)
    ensures p <= m && q <= m ==> p <= q || q <= p
  {
    if p <= m && q <= m {
      assert |p| <= |q| ==> q[..|p|] == p;
      assert |q| <= |p| ==> p[..|q|] == q;
    }
  }

  /** Every filter's text can be parsed, and selects no more than the first one's. */
  predicate FirstSelectsAll(macs: seq<string>) {
    forall j :: 0 <= j < |macs| ==> ScanCount(macs[j]) >= 0 && FilterPrefix(macs[0]) <= FilterPrefix(macs[j])
  }

  /**
    The tool removes the notifications of all its filters, on every store, exactly when no
    filter is blank and the first one's MAC prefix is a prefix of every other's.
   */
  lemma {:induction false} NotificationGuard(macs: seq<string>)
    ensures (forall rows: seq<Row> :: Reachable(rows) ==> RemovesAllNotes(rows, macs)) <==> FirstSelectsAll(macs)
  {
    hide Reachable, RemovesAllNotes, FilterPrefix, ScanCount, TwoNotes;
    if FirstSelectsAll(macs) {
      forall rows: seq<Row> | Reachable(rows) ensures RemovesAllNotes(rows, macs) {
        FirstFilterDoes(rows, macs);
      }
    } else {
      var j :| 0 <= j < |macs| && !(ScanCount(macs[j]) >= 0 && FilterPrefix(macs[0]) <= FilterPrefix(macs[j]));
      if ScanCount(macs[j]) < 0 {
        EmptyReachable();
        BlankCrashes(macs, j);
      } else {
        SecondFilterFails(macs, j);
      }
    }
  }

  lemma FirstFilterDoes(rows: seq<Row>, macs: seq<string>)
    requires FirstSelectsAll(macs)
    ensures RemovesAllNotes(rows, macs)
  {
    hide RemovesAllNotes, FilterPrefix, ScanCount, FirstEnd, IsNoteKey;
    NotificationRmIsExact(rows, macs);
    FirstEndIsFirst(rows, macs);
    var k := FirstEnd(rows, macs);
    if k < |macs| {
      forall r | r in rows && NoteOfAny(macs, r) ensures IsNoteOf(FilterPrefix(macs[k]), r) {
        var mac :| mac in macs && IsNoteOf(FilterPrefix(mac), r);
        ShorterSelects(FilterPrefix(macs[0]), FilterPrefix(mac), r);
        NoneSelected(rows, FilterPrefix(macs[0]), r);
        assert EndsAt(rows, macs[0]);
      }
    }
  }

  lemma ShorterSelects(p: Prefix, q: Prefix, r: Row)
    requires p <= q && IsNoteOf(q, r)
    ensures IsNoteOf(p, r)
  {
    assert r.key[1..1 + |p|] == r.key[1..1 + |q|][..|p|];
  }

  lemma BlankCrashes(macs: seq<string>, j: nat)
    requires j < |macs| && ScanCount(macs[j]) < 0
    ensures !RemovesAllNotes([], macs)
  {
    hide FilterPrefix, ScanCount, FirstEnd;
    FirstEndIsFirst([], macs);
    assert EndsAt([], macs[j]);
    var k := FirstEnd([], macs);
    assert NoteRows([], FilterPrefix(macs[k])) == [];
  }

  lemma SecondFilterFails(macs: seq<string>, j: nat)
    requires j < |macs| && ScanCount(macs[j]) >= 0 && !(FilterPrefix(macs[0]) <= FilterPrefix(macs[j]))
    ensures var p := FilterPrefix(macs[0]);
            var rows := TwoNotes(Padded(p), Outside(FilterPrefix(macs[j]), p));
            Reachable(rows) && !RemovesAllNotes(rows, macs)
  {
    hide RemovesAllNotes, FilterPrefix, ScanCount, FirstEnd, TwoNotes, IsNoteOf, Reachable, Outside;
    var p, q := FilterPrefix(macs[0]), FilterPrefix(macs[j]);
    var a, b := Padded(p), Outside(q, p);
    assert a[..|p|] == p;
    var rows := TwoNotes(a, b);
    TwoNotesRows(a, b);
    var x, y := Row(NoteKey(a, Zeros(9)), [123, 125]), Row(NoteKey(b, Zeros(9)), [123, 125]);
    NoteSelected(p, a);
    NoteSelected(p, b);
    NoteSelected(q, b);
    NoneSelected(rows, p, x);
    assert EndsAt(rows, macs[0]);
    FirstEndIsFirst(rows, macs);
    assert macs[j] in macs && NoteOfAny(macs, y);
    NotificationRmIsExact(rows, macs);
  }

  /** For instance: of two MACs with a notification each, given as two filters, the second keeps its own. */
  lemma TwoFilters(a: Mac, b: Mac)
    requires a != b
    ensures Reachable(TwoNotes(a, b))
    ensures var left := LeftByTool(TwoNotes(a, b), [PrefixText(a), PrefixText(b)]);
            forall r :: r in left <==> r == Row(NoteKey(b, Zeros(9)), [123, 125])
  {
    hide FilterPrefix, ScanCount, FirstEnd, TwoNotes, IsNoteOf, Reachable;
    var macs, rows := [PrefixText(a), PrefixText(b)], TwoNotes(a, b);
    TextRoundTrip(a);
    assert FilterPrefix(macs[0]) == a by { ParsedText(a); }
    TwoNotesRows(a, b);
    NoteSelected(a, a);
    NoteSelected(a, b);
    NoneSelected(rows, a, Row(NoteKey(a, Zeros(9)), [123, 125]));
    assert EndsAt(rows, macs[0]);
    FirstEndIsFirst(rows, macs);
  }

  lemma ParsedText(p: Prefix)
    ensures FilterPrefix(PrefixText(p)) == p
  {
    TextRoundTrip(p);
  }

  /** The tool's own filter when it is given none, the empty text, ends the process on every store. */
  lemma DefaultFilterCrashes(rows: seq<Row>)
    ensures Crashes(rows, [""])
  {
    BlankText("");
    FirstEndIsFirst(rows, [""]);
    assert EndsAt(rows, [""][0]);
  }
}
