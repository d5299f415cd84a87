/**
  The last-probe index against the log: what one write does to it, and what holds after any
  suffix of the writes of a batch, the form in which a batch survives a full map.
 */
module Index {
  import opened Bytes
  import opened Keys
  import opened Rows
  import opened Seqs
  import opened Lmdb
  import opened Courses
  import opened LogStore
  import opened OtherScans
  import opened DbLog

  function ProbeTime(r: Row): Time {
    if |r.val| >= 4 then DecodeProbeVal(r.val) else 0
  }

  ghost predicate HasProbe(rows: seq<Row>, sa: Mac) {
    exists p :: p in rows && p.key == ProbeKey(sa)
  }

  /** Every MAC with a log record has a last-probe entry. */
  ghost predicate EveryLogHasProbe(rows: seq<Row>) {
    forall r :: r in rows && IsLogKey(r.key) ==> HasProbe(rows, KeySa(r.key))
  }

  ghost predicate Covers(p: Row, r: Row) {
    IsLogKey(r.key) && p.key == ProbeKey(KeySa(r.key)) ==> KeyTime(r.key) <= ProbeTime(p)
  }

  /** No log record is later than the last probe of its MAC. */
  ghost predicate ProbesCover(rows: seq<Row>) {
    forall p, r :: p in rows && r in rows ==> Covers(p, r)
  }

  /** No time in the store is later than `now`. */
  ghost predicate NotAfter(rows: seq<Row>, now: int) {
    forall r :: r in rows ==>
      (IsLogKey(r.key) ==> KeyTime(r.key) <= now) && (IsProbeKey(r.key) ==> ProbeTime(r) <= now)
  }

  ghost predicate LoggedAt(rows: seq<Row>, p: Row) {
    exists r :: r in rows && IsLogKey(r.key) && p.key == ProbeKey(KeySa(r.key)) && KeyTime(r.key) == ProbeTime(p)
  }

  /** Every last probe is the time of a log record of its MAC. */
  ghost predicate ProbesLogged(rows: seq<Row>) {
    forall p :: p in rows && IsProbeKey(p.key) ==> LoggedAt(rows, p)
  }

  /** The two properties of the index that survive a lost write. */
  ghost predicate Indexed(rows: seq<Row>, now: int) {
    WellFormed(rows) && EveryLogHasProbe(rows) && ProbesCover(rows) && NotAfter(rows, now)
  }

  lemma KeyShapes(sa: Mac, dt: Time, d: LogData)
    ensures WellFormedRow(LogRow(sa, dt, d)) && WellFormedRow(ProbeRow(sa, dt))
    ensures IsLogKey(LogKey(sa, dt)) && KeySa(LogKey(sa, dt)) == sa && KeyTime(LogKey(sa, dt)) == dt
    ensures IsProbeKey(ProbeKey(sa)) && KeySa(ProbeKey(sa)) == sa && ProbeTime(ProbeRow(sa, dt)) == dt
  {
    LogKeyRoundTrip(sa, dt);
    ProbeValRoundTrip(dt);
  }

  lemma PutKeepsWellFormed(rows: seq<Row>, w: Row)
    requires WellFormed(rows) && WellFormedRow(w)
    ensures WellFormed(Put(rows, w))
    ensures forall r :: r in Put(rows, w) <==> r == w || (r in rows && r.key != w.key)
  {
    PutAscends(rows, w);
  }

  /** Storing a last probe, with or without its log record, keeps every MAC's entry. */
  lemma ProbeKeepsEntries(rows: seq<Row>, sa: Mac, dt: Time)
    requires WellFormed(rows)
    requires forall r :: r in rows && IsLogKey(r.key) ==> KeySa(r.key) == sa || HasProbe(rows, KeySa(r.key))
    ensures EveryLogHasProbe(Put(rows, ProbeRow(sa, dt)))
  {
    hide Put, WellFormedRow, ProbeVal;
    var w := ProbeRow(sa, dt);
    KeyShapes(sa, dt, LogData(0, 0));
    PutKeepsWellFormed(rows, w);
    var rows' := Put(rows, w);
    forall r | r in rows' && IsLogKey(r.key) ensures HasProbe(rows', KeySa(r.key)) {
      if KeySa(r.key) == sa {
        assert w in rows' && w.key == ProbeKey(sa);
      } else {
        var p :| p in rows && p.key == ProbeKey(KeySa(r.key));
        assert KeySa(p.key) == KeySa(r.key);
        assert p in rows';
      }
    }
  }

  lemma LogKeepsOtherEntries(rows: seq<Row>, sa: Mac, dt: Time, d: LogData)
    requires WellFormed(rows) && EveryLogHasProbe(rows)
    ensures WellFormed(Put(rows, LogRow(sa, dt, d)))
    ensures var rows' := Put(rows, LogRow(sa, dt, d));
            forall r :: r in rows' && IsLogKey(r.key) ==> KeySa(r.key) == sa || HasProbe(rows', KeySa(r.key))
  {
    hide Put, WellFormedRow, LogVal;
    var w := LogRow(sa, dt, d);
    KeyShapes(sa, dt, d);
    PutKeepsWellFormed(rows, w);
    var rows' := Put(rows, w);
    forall r | r in rows' && IsLogKey(r.key) && KeySa(r.key) != sa ensures HasProbe(rows', KeySa(r.key)) {
      var p :| p in rows && p.key == ProbeKey(KeySa(r.key));
      assert p in rows';
    }
  }

  lemma LogKeepsTimes(rows: seq<Row>, rec: LogRecord, now: int)
    requires Indexed(rows, now) && now <= rec.dt
    ensures NotAfter(Put(rows, LogRow(rec.sa, rec.dt, rec.data)), rec.dt)
    ensures var rows' := Put(rows, LogRow(rec.sa, rec.dt, rec.data));
            forall p, r :: p in rows' && r in rows' && p.key != ProbeKey(rec.sa) ==> Covers(p, r)
  {
    hide Put, WellFormedRow, LogVal;
    var w := LogRow(rec.sa, rec.dt, rec.data);
    KeyShapes(rec.sa, rec.dt, rec.data);
    PutKeepsWellFormed(rows, w);
  }

  lemma ProbeKeepsTimes(rows: seq<Row>, sa: Mac, dt: Time)
    requires WellFormed(rows) && NotAfter(rows, dt)
    requires forall p, r :: p in rows && r in rows && p.key != ProbeKey(sa) ==> Covers(p, r)
    ensures NotAfter(Put(rows, ProbeRow(sa, dt)), dt) && ProbesCover(Put(rows, ProbeRow(sa, dt)))
  {
    hide Put, WellFormedRow, ProbeVal;
    var w := ProbeRow(sa, dt);
    KeyShapes(sa, dt, LogData(0, 0));
    PutKeepsWellFormed(rows, w);
  }

  lemma PairIsTwoPuts(rows: seq<Row>, rec: LogRecord)
    requires Ascending(rows)
    ensures Ascending(Put(rows, LogRow(rec.sa, rec.dt, rec.data)))
    ensures PutAll(rows, Pair(rec)) == Put(Put(rows, LogRow(rec.sa, rec.dt, rec.data)), ProbeRow(rec.sa, rec.dt))
    ensures PutAll(rows, Pair(rec)[1..]) == Put(rows, ProbeRow(rec.sa, rec.dt))
  {
    hide Put;
    var l, p := LogRow(rec.sa, rec.dt, rec.data), ProbeRow(rec.sa, rec.dt);
    PutAscends(rows, l);
    assert Pair(rec)[..1] == [l] && [l][..0] == [] && Pair(rec)[1..] == [p] && [p][..0] == [];
    assert PutAll(rows, [l]) == Put(rows, l);
  }

  lemma {:induction false} AfterPair(rows: seq<Row>, rec: LogRecord)
    requires WellFormed(rows) && EveryLogHasProbe(rows)
    ensures WellFormed(PutAll(rows, Pair(rec))) && EveryLogHasProbe(PutAll(rows, Pair(rec)))
    ensures WellFormed(PutAll(rows, Pair(rec)[1..])) && EveryLogHasProbe(PutAll(rows, Pair(rec)[1..]))
  {
    hide Put, PutAll, WellFormedRow, EveryLogHasProbe;
    var w := LogRow(rec.sa, rec.dt, rec.data);
    KeyShapes(rec.sa, rec.dt, rec.data);
    PairIsTwoPuts(rows, rec);
    LogKeepsOtherEntries(rows, rec.sa, rec.dt, rec.data);
    ProbeKeepsEntries(Put(rows, w), rec.sa, rec.dt);
    PutKeepsWellFormed(Put(rows, w), ProbeRow(rec.sa, rec.dt));
    EntriesMeaning(rows);
    ProbeKeepsEntries(rows, rec.sa, rec.dt);
    PutKeepsWellFormed(rows, ProbeRow(rec.sa, rec.dt));
  }

  lemma EntriesMeaning(rows: seq<Row>)
    requires EveryLogHasProbe(rows)
    ensures forall r :: r in rows && IsLogKey(r.key) ==> HasProbe(rows, KeySa(r.key))
  {
  }

  lemma {:induction false} AfterTimedPair(rows: seq<Row>, rec: LogRecord, now: int)
    requires Indexed(rows, now) && now <= rec.dt
    ensures Indexed(PutAll(rows, Pair(rec)), rec.dt) && Indexed(PutAll(rows, Pair(rec)[1..]), rec.dt)
  {
    hide Put, PutAll, WellFormedRow, EveryLogHasProbe;
    var w := LogRow(rec.sa, rec.dt, rec.data);
    AfterPair(rows, rec);
    PairIsTwoPuts(rows, rec);
    KeyShapes(rec.sa, rec.dt, rec.data);
    PutKeepsWellFormed(rows, w);
    LogKeepsTimes(rows, rec, now);
    ProbeKeepsTimes(Put(rows, w), rec.sa, rec.dt);
    ProbeKeepsTimes(rows, rec.sa, rec.dt);
  }

  /** Cutting writes off the front of a batch leaves whole pairs, or one last probe and whole pairs. */
  lemma SuffixOfWrites(recs: seq<LogRecord>, lost: nat)
    requires recs != [] && lost <= |Writes(recs)|
    ensures var n := |recs| - 1;
            Writes(recs)[lost..] == if lost <= 2 * n then Writes(recs[..n])[lost..] + Pair(recs[n])
                                    else Pair(recs[n])[lost - 2 * n..]
  {
  }

  /** Whatever number of first writes a restart dropped, every MAC's entry is there. */
  lemma {:induction false} SuffixKeepsEntries(rows: seq<Row>, recs: seq<LogRecord>, lost: nat)
    requires WellFormed(rows) && EveryLogHasProbe(rows) && lost <= |Writes(recs)|
    ensures WellFormed(PutAll(rows, Writes(recs)[lost..])) && EveryLogHasProbe(PutAll(rows, Writes(recs)[lost..]))
  {
    hide Put, WellFormedRow, EveryLogHasProbe;
    if recs != [] {
      var n := |recs| - 1;
      SuffixOfWrites(recs, lost);
      if lost <= 2 * n {
        SuffixKeepsEntries(rows, recs[..n], lost);
        PutAllAppend(rows, Writes(recs[..n])[lost..], Pair(recs[n]));
        AfterPair(PutAll(rows, Writes(recs[..n])[lost..]), recs[n]);
      } else if lost == 2 * n + 1 {
        AfterPair(rows, recs[n]);
      } else {
        assert Pair(recs[n])[lost - 2 * n..] == [];
      }
    }
  }

  function Times(recs: seq<LogRecord>): (ts: seq<int>)
    ensures |ts| == |recs|
  {
    Map((rec: LogRecord) => rec.dt, recs)
  }

  /** The times never decrease, from `now` on. */
  ghost predicate Rising(now: int, ts: seq<int>) {
    && (forall i :: 0 <= i < |ts| ==> now <= ts[i])
    && (forall i, j :: 0 <= i < j < |ts| ==> ts[i] <= ts[j])
  }

  function LastOr(now: int, ts: seq<int>): int {
    if ts == [] then now else ts[|ts| - 1]
  }

  lemma IndexedLater(rows: seq<Row>, now: int, later: int)
    requires Indexed(rows, now) && now <= later
    ensures Indexed(rows, later)
  {
  }

  /** And if the times never decrease, the entries cover the records. */
  lemma {:induction false} SuffixKeepsIndex(rows: seq<Row>, recs: seq<LogRecord>, lost: nat, now: int)
    requires Indexed(rows, now) && Rising(now, Times(recs)) && lost <= |Writes(recs)|
    ensures Indexed(PutAll(rows, Writes(recs)[lost..]), LastOr(now, Times(recs)))
  {
    hide Put, Indexed;
    if recs != [] {
      var n := |recs| - 1;
      SuffixOfWrites(recs, lost);
      assert Times(recs[..n]) == Times(recs)[..n];
      var mid := LastOr(now, Times(recs[..n]));
      assert Ascending(rows) by { IndexedAscends(rows, now); }
      if lost <= 2 * n {
        SuffixKeepsIndex(rows, recs[..n], lost, now);
        PutAllAppend(rows, Writes(recs[..n])[lost..], Pair(recs[n]));
        AfterTimedPair(PutAll(rows, Writes(recs[..n])[lost..]), recs[n], mid);
      } else if lost == 2 * n + 1 {
        AfterTimedPair(rows, recs[n], now);
      } else {
        assert Pair(recs[n])[lost - 2 * n..] == [];
        IndexedLater(rows, now, recs[n].dt);
      }
    }
  }

  lemma IndexedAscends(rows: seq<Row>, now: int)
    requires Indexed(rows, now)
    ensures Ascending(rows)
  {
  }

  /** The answers of a `putLog` that succeeded, one that asks for all of them. */
  ghost predicate Succeeds(h: seq<Answer>) {
    PutLogCourse(h).Done? && PutLogCourse(h).rest == []
  }

  /** The commit of a successful `putLog` was refused for a full map: it and the restart took the last six answers. */
  predicate CommitRefused(h: seq<Answer>) {
    |h| >= 7 && h[|h| - 6] == Full
  }

  /**
    A `putLog` that reports success has stored its record exactly when no call after its first put
    was refused for a full map, unless the same row was there before, and its last probe exactly when
    the commit was not refused so; after a refused commit the store is as it was.
   */
  lemma {:induction false} RecordSurvives(rows: seq<Row>, rec: LogRecord, h: seq<Answer>, rows': seq<Row>)
    requires WellFormed(rows) && Succeeds(h) && Stored(rows, [rec], PutLogCourse(h).lost, rows')
    ensures |h| >= 2
    ensures LogRow(rec.sa, rec.dt, rec.data) in rows' <==> Full !in h[2..] || LogRow(rec.sa, rec.dt, rec.data) in rows
    ensures ProbeRow(rec.sa, rec.dt) in rows' <==> !CommitRefused(h) || ProbeRow(rec.sa, rec.dt) in rows
    ensures CommitRefused(h) ==> rows' == rows
  {
    hide Put, WellFormedRow, LogVal, ProbeVal, PutLogCourse;
    PutLogLoses(h);
    var l, p := LogRow(rec.sa, rec.dt, rec.data), ProbeRow(rec.sa, rec.dt);
    KeyShapes(rec.sa, rec.dt, rec.data);
    WritesOne(rec);
    assert Writes([rec]) == Pair(rec);
    PairIsTwoPuts(rows, rec);
    PutKeepsWellFormed(rows, l);
    PutKeepsWellFormed(Put(rows, l), p);
    PutKeepsWellFormed(rows, p);
    assert Pair(rec)[0..] == Pair(rec) && Pair(rec)[2..] == [];
  }

  /**
    A batch that reports success, its calls answered by h, leaves the store that was asked for exactly when every lost
    write that no later one of the batch replaces was stored before; so when no call after the first
    put was refused for a full map.
   */
  lemma {:induction false} BatchIsStored(rows: seq<Row>, recs: seq<LogRecord>, h: seq<Answer>, rows': seq<Row>)
    requires BatchCourse(h, |recs|).Done? && BatchCourse(h, |recs|).rest == []
    requires Stored(rows, recs, BatchCourse(h, |recs|).lost, rows')
    ensures rows' == PutAll(rows, Writes(recs)) <==> StoredBefore(rows, Writes(recs), BatchCourse(h, |recs|).lost)
    ensures |h| >= 2 && (Full !in h[2..] ==> rows' == PutAll(rows, Writes(recs)))
  {
    hide PutAll, BatchCourse, Writes;
    BatchLoses(h, |recs|);
    RestIsAll(rows, Writes(recs), BatchCourse(h, |recs|).lost);
  }

  // ---- Removals --------------------------------------------------------------------------

  /** Removing log records or notifications keeps the index. */
  lemma {:induction false} RemovalKeepsIndex(rows: seq<Row>, f: Row -> bool, now: int)
    requires WellFormed(rows) && forall r :: r in rows && IsProbeKey(r.key) ==> f(r)
    ensures WellFormed(Keep(rows, f))
    ensures EveryLogHasProbe(rows) ==> EveryLogHasProbe(Keep(rows, f))
    ensures Indexed(rows, now) ==> Indexed(Keep(rows, f), now)
  {
    RmKeepsWellFormed(rows, f);
    hide Keep, WellFormedRow;
    if EveryLogHasProbe(rows) {
      forall r | r in Keep(rows, f) && IsLogKey(r.key) ensures HasProbe(Keep(rows, f), KeySa(r.key)) {
        var p :| p in rows && p.key == ProbeKey(KeySa(r.key));
        assert p in Keep(rows, f);
      }
    }
  }

  // ---- Not found -------------------------------------------------------------------------

  /**
    When a log seek key of `readLog` or `rmLog` is beyond every key, the store is empty: a log
    record's last probe would lie behind the seek key, and so would any notification.
   */
  lemma {:induction false} NotFoundMeansEmpty(rows: seq<Row>, seek: seq<Byte>)
    requires WellFormed(rows) && EveryLogHasProbe(rows)
    requires seek != [] && seek[0] == TAG_LOG && SeekPos(rows, seek) == |rows|
    ensures rows == []
  {
    assert rows != [] ==> rows[0] in rows;
    OnlyLogsBefore(rows, seek);
    LogImpliesProbe(rows);
  }

  lemma OnlyLogsBefore(rows: seq<Row>, seek: seq<Byte>)
    requires WellFormed(rows) && seek != [] && seek[0] == TAG_LOG && SeekPos(rows, seek) == |rows|
    ensures forall r :: r in rows ==> IsLogKey(r.key)
  {
    SeekPosSplits(rows, seek);
    forall r | r in rows ensures IsLogKey(r.key) {
      TagOrder(r.key, seek);
    }
  }

  lemma LogImpliesProbe(rows: seq<Row>)
    requires EveryLogHasProbe(rows)
    ensures (exists r :: r in rows && IsLogKey(r.key)) ==> exists p :: p in rows && IsProbeKey(p.key)
  {
    if r :| r in rows && IsLogKey(r.key) {
      var p :| p in rows && p.key == ProbeKey(KeySa(r.key));
      assert IsProbeKey(p.key);
    }
  }
}
