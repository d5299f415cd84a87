/** The log database: storing records and notifications, and removing them (dblog.cpp). */
module DbLog {
  import opened Bytes
  import opened Keys
  import opened Rows
  import opened Seqs
  import opened Cursors
  import opened Lmdb
  import opened Courses
  import opened LogStore
  import opened OtherScans

  const ERRCODE_WRONG_PARAM := -3
  const ERRCODE_LMDB_TXN_BEGIN := -10
  const ERRCODE_LMDB_TXN_COMMIT := -11
  const ERRCODE_LMDB_OPEN := -12
  const ERRCODE_LMDB_PUT := -14
  const ERRCODE_LMDB_PUT_PROBE := -15
  const ERRCODE_NO_MEMORY := -42

  const LOG_ENTRY_SIZE := 10

  /** `struct LogEntry`, in host byte order. */
  datatype LogEntry = LogEntry(deviceId: DeviceId, ssiSignal: int, sa: Mac)

  /** The 16-bit signal is stored in an 8-bit field. */
  function ToInt8(n: int): Signal {
    (n + 0x80) % 0x100 - 0x80
  }

  function EntryRecord(e: LogEntry, now: Time): LogRecord {
    LogRecord(e.sa, now, LogData(e.deviceId, ToInt8(e.ssiSignal)))
  }

  /** The writes of a record: its log row, then its last-probe row. */
  function Pair(rec: LogRecord): seq<Row> {
    [LogRow(rec.sa, rec.dt, rec.data), ProbeRow(rec.sa, rec.dt)]
  }

  /** The writes of a batch, in order. */
  function Writes(recs: seq<LogRecord>): (w: seq<Row>)
    ensures |w| == 2 * |recs|
  {
    if recs == [] then [] else
      Writes(recs[..|recs| - 1]) + Pair(recs[|recs| - 1])
  }

  lemma WritesOne(rec: LogRecord)
    ensures Writes([rec]) == [] + Pair(rec)
  {
    assert [rec][..0] == [];
  }

  lemma {:induction false} WritesWellFormed(recs: seq<LogRecord>)
    ensures forall w :: w in Writes(recs) ==> WellFormedRow(w)
  {
    if recs != [] {
      var rec := recs[|recs| - 1];
      WritesWellFormed(recs[..|recs| - 1]);
      LogKeyRoundTrip(rec.sa, rec.dt);
    }
  }

  lemma {:induction false} PutAllWellFormed(rows: seq<Row>, writes: seq<Row>)
    requires WellFormed(rows) && forall w :: w in writes ==> WellFormedRow(w)
    ensures WellFormed(PutAll(rows, writes))
  {
    if writes != [] {
      var n := |writes| - 1;
      PutAllWellFormed(rows, writes[..n]);
      PutAscends(PutAll(rows, writes[..n]), writes[n]);
    }
  }

  /**
    The store has the record of a received entry: its device, its signal as far as eight bits hold it, under
    its MAC and the time; the MAC's last probe is that time; and every other row is as it was.
   */
  ghost predicate EntryStored(rows: seq<Row>, e: LogEntry, now: Time, rows': seq<Row>) {
    && (exists s: Signal :: (s - e.ssiSignal) % 0x100 == 0 && Logged(rows', e.sa, now, LogData(e.deviceId, s)))
    && (exists p :: p in rows' && p.key == ProbeKey(e.sa) && |p.val| == PROBE_VAL_SIZE && DecodeProbeVal(p.val) == now)
    && forall r: Row :: r.key != LogKey(e.sa, now) && r.key != ProbeKey(e.sa) ==> (r in rows' <==> r in rows)
  }

  lemma {:induction false} EntryIsStored(rows: seq<Row>, e: LogEntry, now: Time, rows': seq<Row>)
    requires Stored(rows, [EntryRecord(e, now)], 0, rows')
    ensures EntryStored(rows, e, now, rows')
    ensures -128 <= e.ssiSignal < 128 ==> Logged(rows', e.sa, now, LogData(e.deviceId, e.ssiSignal))
  {
    hide Put, LogVal, ProbeVal, LogKey, Ascending, Before;
    var rec := EntryRecord(e, now);
    var l, p := LogRow(rec.sa, rec.dt, rec.data), ProbeRow(rec.sa, rec.dt);
    WritesOne(rec);
    assert Writes([rec])[0..] == [l, p] && [l, p][..1] == [l] && [l][..0] == [];
    PutAscends(rows, l);
    assert PutAll(rows, [l]) == Put(rows, l);
    PutAscends(Put(rows, l), p);
    assert rows' == Put(Put(rows, l), p);
    LogValRoundTrip(rec.data);
    ProbeValRoundTrip(now);
    assert |l.key| != |p.key|;
    assert l in rows' && p in rows';
    assert (rec.data.ssiSignal - e.ssiSignal) % 0x100 == 0;
    assert Logged(rows', e.sa, now, LogData(e.deviceId, rec.data.ssiSignal));
  }

  /** The store after the writes w but for the first `lost`. */
  function PutRest(base: seq<Row>, w: seq<Row>, lost: nat): seq<Row>
    requires Ascending(base) && lost <= |w|
  {
    PutAll(base, w[lost..])
  }

  /** The store after a batch of which the first `lost` writes were dropped. */
  ghost predicate Stored(rows: seq<Row>, recs: seq<LogRecord>, lost: int, rows': seq<Row>) {
    && Ascending(rows)
    && 0 <= lost <= |Writes(recs)|
    && rows' == PutRest(rows, Writes(recs), lost)
  }

  lemma StoredWellFormed(rows: seq<Row>, recs: seq<LogRecord>, lost: int, rows': seq<Row>)
    requires WellFormed(rows) && Stored(rows, recs, lost, rows')
    ensures WellFormed(rows')
  {
    WritesWellFormed(recs);
    PutAllWellFormed(rows, Writes(recs)[lost..]);
  }

  lemma PutRestNone(base: seq<Row>, w: seq<Row>)
    requires Ascending(base)
    ensures PutRest(base, w, |w|) == base
  {
    assert w[|w|..] == [];
  }

  /** The answers of b after `since` are those of the first n writes of a call. */
  ghost predicate Written(since: seq<Answer>, b: seq<Answer>, n: nat, c: Course) {
    since <= b && Puts(b[|since|..], n) == c
  }

  /**
    The open transaction holds the writes w of the call so far, but for the first ones, which
    were dropped with the transactions that accepted them; which ones is told by the answers
    since `since`.
   */
  ghost predicate Holds(env: DbEnv, base: seq<Row>, w: seq<Row>, dropped: nat, since: seq<Answer>)
    reads env
  {
    && Ascending(base)
    && env.Valid() && env.inTxn && !env.reopened && env.committed == base
    && dropped <= env.dropped <= dropped + |w|
    && env.written == dropped + |w| - env.dropped
    && env.pending == PutRest(base, w, env.dropped - dropped)
    && Written(since, env.answers, |w|, Done(env.dropped - dropped, []))
  }

  lemma HoldsBase(env: DbEnv, base: seq<Row>, w: seq<Row>, dropped: nat, since: seq<Answer>)
    requires Holds(env, base, w, dropped, since)
    ensures env.Valid() && env.committed == base
  {
  }

  /** The write after n others is the one that fails, by the answers of b after `since`. */
  ghost predicate StopsAt(since: seq<Answer>, b: seq<Answer>, n: nat) {
    since <= b && Puts(b[|since|..], n).Done? && Puts(b[|since|..], n + 1) == Fails
  }

  lemma StoppedLater(since: seq<Answer>, b: seq<Answer>, k: nat, n: nat)
    requires k < n && StopsAt(since, b, k)
    ensures Written(since, b, n, Fails)
  {
    PutsFail(b[|since|..], k + 1, n);
  }

  lemma StopsAfter(since: seq<Answer>, a: seq<Answer>, b: seq<Answer>, n: nat, lost: nat)
    requires Written(since, a, n, Done(lost, [])) && a <= b && Written(since, b, n + 1, Fails)
    ensures StopsAt(since, b, n)
  {
    hide Puts;
    PutsMore(a[|since|..], b[|a|..], n);
    assert b[|since|..] == a[|since|..] + b[|a|..];
  }

  lemma SomeHeld(since: seq<Answer>, b: seq<Answer>, n: nat, lost: nat)
    requires Written(since, b, n, Done(lost, []))
    ensures n > 0 ==> lost < n
  {
    var k := PutsUse(b[|since|..], n);
  }

  lemma {:induction false} PutOnSuffix(base: seq<Row>, w: seq<Row>, d: nat, row: Row)
    requires Ascending(base) && d <= |w|
    ensures Ascending(PutRest(base, w, d)) && PutRest(base, w + [row], d) == Put(PutRest(base, w, d), row)
    ensures PutRest(base, w + [row], |w|) == Put(base, row)
  {
    assert (w + [row])[d..] == w[d..] + [row];
    assert (w + [row])[|w|..] == [row];
    assert PutAll(base, [row][..0]) == base by { assert [row][..0] == []; }
  }

  /** `openDb`, which leaves no transaction open. */
  method OpenDb(env: DbEnv) returns (ok: bool)
    requires env.Valid()
    modifies env`hard, env`answers
    ensures env.Valid() && |env.answers| == |old(env.answers)| + 1
    ensures env.answers == old(env.answers) + [env.answers[|old(env.answers)|]]
    ensures ok <==> env.answers[|old(env.answers)|] == Good
    ensures ok ==> env.hard == old(env.hard)
    ensures !ok ==> env.hard > old(env.hard)
  {
    var r := env.Attempt();
    ok := r == MDB_SUCCESS;
  }

  /** The answers after a are those of n calls that must all be answered well. */
  ghost predicate Answered(a: seq<Answer>, b: seq<Answer>, n: nat, c: Course) {
    a <= b && Goods(b[|a|..], n) == c
  }

  /**
    Drops the transaction, enlarges the map, reopens the database and begins a new, empty
    transaction.  When the reopening fails the result is that of the earlier open, which may be 0.
   */
  method ProcessMapFull(env: DbEnv) returns (r: int)
    requires env.Valid()
    modifies env
    ensures env.Valid() && env.committed == old(env.committed)
    ensures env.full == old(env.full) && env.commitFull == old(env.commitFull)
    ensures env.dropped == old(env.dropped) + if old(env.inTxn) then old(env.written) else 0
    ensures env.hard == old(env.hard) ==> r == 0 && env.inTxn && env.reopened
    ensures env.inTxn ==> r == 0 && env.hard == old(env.hard) && env.pending == env.committed && env.written == 0
    ensures env.hard >= old(env.hard)
    ensures Answered(old(env.answers), env.answers, RESTART, if env.inTxn then Done(0, []) else Fails)
  {
    hide Answered, Before, Ascending;
    ghost var a := env.answers;
    NoCalls(a);
    env.Abort();
    r := env.Attempt();
    OneCall(a, a, env.answers, 0);
    if r != 0 {
      return;
    }
    ghost var b := env.answers;
    r := env.Attempt();
    OneCall(a, b, env.answers, 1);
    if r != 0 {
      r := ERRCODE_LMDB_OPEN;
      return;
    }
    env.DoubleMapSize();
    r := *;
    b := env.answers;
    var isOpen := OpenDb(env);
    OneCall(a, b, env.answers, 2);
    if !isOpen {
      return;
    }
    b := env.answers;
    r := env.Begin();
    OneCall(a, b, env.answers, 3);
  }

  lemma NoCalls(a: seq<Answer>)
    ensures Answered(a, a, 0, Done(0, []))
  {
  }

  /** One call of a restart: a good answer is one step further, any other fails the restart. */
  lemma OneCall(a: seq<Answer>, b: seq<Answer>, b': seq<Answer>, n: nat)
    requires n < RESTART && Answered(a, b, n, Done(0, [])) && |b'| == |b| + 1 && b' == b + [b'[|b|]]
    ensures b'[|b|] == Good ==> Answered(a, b', n + 1, Done(0, []))
    ensures b'[|b|] != Good ==> Answered(a, b', RESTART, Fails)
  {
    hide Goods;
    var h := b[|a|..];
    assert b'[|a|..] == h + [b'[|b|]];
    GoodsNext(h, n, b'[|b|]);
    if b'[|b|] != Good {
      GoodsFail(b'[|a|..], n + 1, RESTART);
    }
  }

  /** One write more, which is not refused for a full map. */
  lemma AcceptedOrNot(since: seq<Answer>, a: seq<Answer>, n: nat, lost: nat, x: Answer)
    requires Written(since, a, n, Done(lost, [])) && x != Full
    ensures x == Good ==> Written(since, a + [x], n + 1, Done(lost, []))
    ensures x != Good ==> StopsAt(since, a + [x], n)
  {
    hide Puts;
    WriteOnce(a[|since|..], n, lost, x);
    assert (a + [x])[|since|..] == a[|since|..] + [x];
    if x != Good {
      StopsAfter(since, a, a + [x], n, lost);
    }
  }

  /** One write more, which is refused for a full map, and the restart. */
  lemma Restarted(since: seq<Answer>, a: seq<Answer>, n: nat, lost: nat, b: seq<Answer>, c: Course, x: Answer)
    requires Written(since, a, n, Done(lost, [])) && Answered(a + [Full], b, RESTART, c)
    ensures c == Fails ==> StopsAt(since, b, n)
    ensures c == Done(0, []) && x == Good ==> Written(since, b + [x], n + 1, Done(n, []))
    ensures c == Done(0, []) && x != Good ==> StopsAt(since, b + [x], n)
  {
    hide Puts, Goods, StopsAt;
    if !c.Unfinished? {
      var m, g := b[|a| + 1..], a[|since|..];
      WriteTwice(g, n, lost, m, x);
      assert b == a + [Full] + m && b[|a + [Full]|..] == m;
      assert b[|since|..] == g + [Full] + m && (b + [x])[|since|..] == g + [Full] + m + [x];
      if c == Fails {
        StopsAfter(since, a, b, n, lost);
      } else if c == Done(0, []) && x != Good {
        StopsAfter(since, a, b + [x], n, lost);
      }
    }
  }

  /** A put that is tried once more after a full map: the form of every put of this module. */
  method PutOrRestart(env: DbEnv, row: Row, ghost base: seq<Row>, ghost w: seq<Row>, ghost dropped: nat,
                      ghost since: seq<Answer>)
    returns (r: int)
    requires Holds(env, base, w, dropped, since)
    modifies env
    ensures env.Valid() && env.committed == base && env.commitFull == old(env.commitFull)
    ensures r == 0 ==> Holds(env, base, w + [row], dropped, since)
    ensures r != 0 ==> StopsAt(since, env.answers, |w|)
    ensures r == 0 && env.full == old(env.full) ==> env.dropped == old(env.dropped)
    ensures r == 0 <==> env.hard == old(env.hard)
    ensures env.hard >= old(env.hard) && env.full >= old(env.full)
  {
    hide Put, PutRest, Written, StopsAt, Answered, Before, Ascending;
    ghost var a, lost := env.answers, env.dropped - dropped;
    PutOnSuffix(base, w, lost, row);
    r := env.PutRow(row);
    if r == MDB_MAP_FULL {
      r := ProcessMapFull(env);
      ghost var b, open := env.answers, env.inTxn;
      if r == 0 {
        r := env.PutRow(row);
      }
      Restarted(since, a, |w|, lost, b, if open then Done(0, []) else Fails, AnswerOf(r));
    } else {
      AcceptedOrNot(since, a, |w|, lost, AnswerOf(r));
    }  }

  /** The two writes of a record, in an open transaction; a failure drops the transaction. */
  method PutPair(env: DbEnv, rec: LogRecord, ghost base: seq<Row>, ghost w: seq<Row>, ghost dropped: nat,
                 ghost since: seq<Answer>)
    returns (r: int)
    requires Holds(env, base, w, dropped, since)
    modifies env
    ensures env.Valid() && env.committed == base && env.commitFull == old(env.commitFull)
    ensures r in {0, ERRCODE_LMDB_PUT, ERRCODE_LMDB_PUT_PROBE}
    ensures r == 0 ==> Holds(env, base, w + Pair(rec), dropped, since)
    ensures r == ERRCODE_LMDB_PUT ==> StopsAt(since, env.answers, |w|)
    ensures r == ERRCODE_LMDB_PUT_PROBE ==> StopsAt(since, env.answers, |w| + 1)
    ensures r != 0 ==> !env.inTxn
    ensures r == 0 && env.full == old(env.full) ==> env.dropped == old(env.dropped)
    ensures r == 0 <==> env.hard == old(env.hard)
    ensures env.hard >= old(env.hard) && env.full >= old(env.full)
  {
    hide Written, StopsAt, PutRest;
    var logRow, probeRow := LogRow(rec.sa, rec.dt, rec.data), ProbeRow(rec.sa, rec.dt);
    r := PutOrRestart(env, logRow, base, w, dropped, since);
    if r != 0 {
      env.Abort();
      return ERRCODE_LMDB_PUT;
    }
    r := PutOrRestart(env, probeRow, base, w + [logRow], dropped, since);
    if r != 0 {
      env.Abort();
      return ERRCODE_LMDB_PUT_PROBE;
    }
    assert w + [logRow] + [probeRow] == w + Pair(rec);
  }

  /**
    The commit of `putLog`: after a full map a new transaction is committed in place of the
    dropped one, and it is empty, so that the call succeeds with nothing stored.
   */
  method CommitOrRestart(env: DbEnv, ghost base: seq<Row>, ghost w: seq<Row>, ghost dropped: nat,
                         ghost since: seq<Answer>)
    returns (r: int)
    requires Holds(env, base, w, dropped, since)
    modifies env
    ensures env.Valid() && !env.inTxn
    ensures r == 0 ==> dropped <= env.dropped <= dropped + |w| && env.committed == PutRest(base, w, env.dropped - dropped)
    ensures r == 0 && env.commitFull > old(env.commitFull) ==> env.committed == base && env.dropped == dropped + |w|
    ensures r == 0 && env.commitFull == old(env.commitFull) && w != [] ==> env.dropped < dropped + |w|
    ensures r != 0 ==> env.committed == base
    ensures r == 0 ==> Written(since, env.answers, |w| + 1, Done(env.dropped - dropped, []))
    ensures r != 0 ==> StopsAt(since, env.answers, |w|)
    ensures r == 0 && env.full == old(env.full) ==> env.dropped == old(env.dropped)
    ensures r == 0 <==> env.hard == old(env.hard)
    ensures env.hard >= old(env.hard) && env.full >= old(env.full) && env.commitFull >= old(env.commitFull)
  {
    hide Put, PutRest, Written, StopsAt, Answered, Before, Ascending;
    ghost var a, lost := env.answers, env.dropped - dropped;
    SomeHeld(since, a, |w|, lost);
    r := env.Commit();
    if r == MDB_MAP_FULL {
      r := ProcessMapFull(env);
      ghost var b, open := env.answers, env.inTxn;
      if r == 0 {
        r := env.Commit();
      }
      PutRestNone(base, w);
      Restarted(since, a, |w|, lost, b, if open then Done(0, []) else Fails, AnswerOf(r));
    } else {
      AcceptedOrNot(since, a, |w|, lost, AnswerOf(r));
    }  }

  /**
    Stores one received record.  A non-zero result leaves the database as it was.  On success
    the database has the log row and the last-probe row of the record, except for the writes
    that were accepted before a transaction was dropped for a full map: those are gone, and
    they are the first ones.  Nothing is lost exactly when no call after the first put was
    refused for a full map, and everything exactly when the commit was.
   */
  method PutLog(env: DbEnv, entry: LogEntry, size: nat, now: Time) returns (r: int)
    requires env.Valid() && !env.inTxn && WellFormed(env.committed)
    modifies env
    ensures env.Valid() && !env.inTxn && WellFormed(env.committed)
    ensures r in {0, ERRCODE_NO_MEMORY, ERRCODE_LMDB_TXN_BEGIN, ERRCODE_LMDB_PUT, ERRCODE_LMDB_PUT_PROBE,
                  ERRCODE_LMDB_TXN_COMMIT}
    ensures r == ERRCODE_NO_MEMORY <==> size < LOG_ENTRY_SIZE
    ensures r != 0 ==> env.committed == old(env.committed)
    ensures r == 0 ==> Stored(old(env.committed), [EntryRecord(entry, now)], env.dropped - old(env.dropped), env.committed)
    ensures size >= LOG_ENTRY_SIZE ==>
              PutLogCourse(Since(old(env.answers), env.answers))
              == if r == 0 then Done(env.dropped - old(env.dropped), []) else Fails
    ensures r == ERRCODE_LMDB_TXN_BEGIN ==> BeginFails(Since(old(env.answers), env.answers))
    ensures r == ERRCODE_LMDB_PUT ==> FailsAt(Since(old(env.answers), env.answers), 0)
    ensures r == ERRCODE_LMDB_PUT_PROBE ==> FailsAt(Since(old(env.answers), env.answers), 1)
    ensures r == ERRCODE_LMDB_TXN_COMMIT ==> FailsAt(Since(old(env.answers), env.answers), 2)
    ensures r == 0 && env.dropped == old(env.dropped) ==> EntryStored(old(env.committed), entry, now, env.committed)
    ensures r == 0 ==> |Since(old(env.answers), env.answers)| >= 4
                       && (env.dropped == old(env.dropped) <==> Full !in Since(old(env.answers), env.answers)[2..])
    ensures r == 0 ==> (env.dropped == old(env.dropped) + 2 <==> env.commitFull > old(env.commitFull))
    ensures r == 0 && env.commitFull > old(env.commitFull) ==> env.committed == old(env.committed)
    ensures size >= LOG_ENTRY_SIZE ==> (r == 0 <==> env.hard == old(env.hard))
    ensures r == 0 && env.full == old(env.full) ==> env.dropped == old(env.dropped)
  {
    hide Holds, Stored, EntryRecord, Put, PutRest, Before, Ascending, WellFormed, Writes, Pair, Puts, PutLogCourse, Since, Written,
      StopsAt, FailsAt, BeginFails, EntryStored;
    if size < LOG_ENTRY_SIZE {
      return ERRCODE_NO_MEMORY;
    }
    env.reopened := false;
    var rec := EntryRecord(entry, now);
    ghost var d0, base, a := env.dropped, env.committed, env.answers;
    WritesOne(rec);
    r := env.Begin();
    ghost var since := env.answers;
    BeginAnswer(a, since, 1);
    if r != 0 {
      return ERRCODE_LMDB_TXN_BEGIN;
    }
    HoldsNothing(env, base, since);
    r := PutPair(env, rec, base, [], d0, since);
    if r != 0 {
      PutLogFails(a, since, env.answers, if r == ERRCODE_LMDB_PUT then 0 else 1);
      return;
    }
    r := CommitOrRestart(env, base, Writes([rec]), d0, since);
    if r != 0 {
      PutLogFails(a, since, env.answers, 2);
      return ERRCODE_LMDB_TXN_COMMIT;
    }
    PutLogEnds(a, since, env.answers, base, rec, env.dropped - d0);
    if env.dropped == d0 {
      EntryIsStored(base, entry, now, env.committed);
    }
  }

  /** A transaction that has just begun holds nothing. */
  lemma HoldsNothing(env: DbEnv, base: seq<Row>, since: seq<Answer>)
    requires env.Valid() && env.inTxn && !env.reopened && WellFormed(base)
    requires env.pending == env.committed == base && env.written == 0 && env.answers == since
    ensures Holds(env, base, [], env.dropped, since)
  {
    PutRestNone(base, []);
    assert Puts([], 0) == Done(0, []);
  }

  lemma PutLogFails(a: seq<Answer>, since: seq<Answer>, after: seq<Answer>, k: nat)
    requires |since| == |a| + 1 && since == a + [Good] && k < 3 && StopsAt(since, after, k)
    ensures PutLogCourse(Since(a, after)) == Fails && FailsAt(Since(a, after), k)
  {
    hide Puts, PutLogCourse;
    StoppedLater(since, after, k, 3);
    BeginCourse(a, since, after);
  }

  lemma PutLogEnds(a: seq<Answer>, since: seq<Answer>, after: seq<Answer>, base: seq<Row>, rec: LogRecord, lost: nat)
    requires |since| == |a| + 1 && since == a + [Good] && Written(since, after, 3, Done(lost, []))
    requires WellFormed(base) && lost <= |Writes([rec])|
    ensures var h := Since(a, after);
            PutLogCourse(h) == Done(lost, []) && |h| >= 4 && (lost == 0 <==> Full !in h[2..])
    ensures var rows' := PutRest(base, Writes([rec]), lost);
            Stored(base, [rec], lost, rows') && WellFormed(rows')
  {
    hide Puts, PutLogCourse, PutRest, Writes, WellFormedRow, Since;
    BeginCourse(a, since, after);
    PutLogLoses(Since(a, after));
    StoredWellFormed(base, [rec], lost, PutRest(base, Writes([rec]), lost));
  }

  /** A call whose transaction does not begin has failed; otherwise there is nothing written yet. */
  lemma BeginAnswer(a: seq<Answer>, since: seq<Answer>, n: nat)
    requires |since| == |a| + 1 && since == a + [since[|a|]]
    ensures a <= since && since[|since|..] == [] && Puts([], 0) == Done(0, [])
    ensures since[|a|] != Good ==> PutLogCourse(Since(a, since)) == Fails && BatchCourse(Since(a, since), n) == Fails
    ensures since[|a|] != Good ==> BeginFails(Since(a, since))
  {
    assert Since(a, since) == [since[|a|]];
  }

  /** Once it has begun, the course of `putLog` is that of its three writes. */
  lemma BeginCourse(a: seq<Answer>, since: seq<Answer>, after: seq<Answer>)
    requires |since| == |a| + 1 && since == a + [Good] && since <= after
    ensures PutLogCourse(Since(a, after)) == Puts(after[|since|..], 3)
    ensures Since(a, after) != [] && Since(a, after)[0] == Good && Since(a, after)[1..] == after[|since|..]
  {
    hide Puts;
    var h := Since(a, after);
    assert h[0] == after[|a|] == since[|a|] && h[1..] == after[|since|..];
    assert Goods(h, 1) == Done(0, h[1..]) by { assert Goods(h[1..], 0) == Done(0, h[1..]); }
  }

  /** The loop of `putLogEntries`. */
  method PutPairs(env: DbEnv, recs: seq<LogRecord>, ghost base: seq<Row>, ghost dropped: nat, ghost since: seq<Answer>)
    returns (r: int)
    requires Holds(env, base, [], dropped, since)
    modifies env
    ensures env.Valid() && env.committed == base && env.commitFull == old(env.commitFull)
    ensures r in {0, ERRCODE_LMDB_PUT, ERRCODE_LMDB_PUT_PROBE}
    ensures r == 0 ==> Holds(env, base, Writes(recs), dropped, since)
    ensures r != 0 ==> !env.inTxn && Written(since, env.answers, 2 * |recs|, Fails)
    ensures r == ERRCODE_LMDB_PUT ==> exists c :: 0 <= c < |recs| && StopsAt(since, env.answers, 2 * c)
    ensures r == ERRCODE_LMDB_PUT_PROBE ==> exists c :: 0 <= c < |recs| && StopsAt(since, env.answers, 2 * c + 1)
    ensures r == 0 && env.full == old(env.full) ==> env.dropped == old(env.dropped)
    ensures r == 0 <==> env.hard == old(env.hard)
    ensures env.hard >= old(env.hard) && env.full >= old(env.full)
  {
    hide Holds, Written, StopsAt, Writes, Pair, Puts, Before, Ascending, PutRest, DbEnv.Valid;
    HoldsBase(env, base, [], dropped, since);
    r := 0;
    var c := 0;
    ghost var w: seq<Row> := [];
    WritesNext(recs, 0);
    while c < |recs|
      invariant 0 <= c <= |recs| && |w| == 2 * c && w == Writes(recs[..c])
      invariant env.Valid() && env.committed == base && Holds(env, base, w, dropped, since)
      invariant env.hard == old(env.hard) && env.commitFull == old(env.commitFull) && env.full >= old(env.full)
      invariant env.full == old(env.full) ==> env.dropped == old(env.dropped)
    {
      WritesNext(recs, c);
      r := PutPair(env, recs[c], base, w, dropped, since);
      if r != 0 {
        StoppedLater(since, env.answers, if r == ERRCODE_LMDB_PUT then 2 * c else 2 * c + 1, 2 * |recs|);
        return;
      }
      w := w + Pair(recs[c]);
      c := c + 1;
    }
    assert recs[..c] == recs;
  }

  /**
    Stores a batch in one transaction: all of it or, on a negative result, nothing.  Without a
    full map the store is that of the writes of each record in turn; a restart drops the writes
    accepted before it, which are the first ones of the batch.  Nothing is lost exactly when no
    call after the first put was refused for a full map.
   */
  method PutLogEntries(env: DbEnv, recs: seq<LogRecord>) returns (r: int)
    requires env.Valid() && !env.inTxn && WellFormed(env.committed)
    modifies env
    ensures env.Valid() && !env.inTxn && WellFormed(env.committed)
    ensures r == |recs| || r in {ERRCODE_LMDB_TXN_BEGIN, ERRCODE_LMDB_PUT, ERRCODE_LMDB_PUT_PROBE, ERRCODE_LMDB_TXN_COMMIT}
    ensures r < 0 ==> env.committed == old(env.committed)
    ensures r >= 0 ==> Stored(old(env.committed), recs, env.dropped - old(env.dropped), env.committed)
    ensures BatchCourse(Since(old(env.answers), env.answers), |recs|)
            == if r >= 0 then Done(env.dropped - old(env.dropped), []) else Fails
    ensures r == ERRCODE_LMDB_TXN_BEGIN ==> BeginFails(Since(old(env.answers), env.answers))
    ensures r == ERRCODE_LMDB_PUT ==> exists c :: 0 <= c < |recs| && FailsAt(Since(old(env.answers), env.answers), 2 * c)
    ensures r == ERRCODE_LMDB_PUT_PROBE ==>
              exists c :: 0 <= c < |recs| && FailsAt(Since(old(env.answers), env.answers), 2 * c + 1)
    ensures r == ERRCODE_LMDB_TXN_COMMIT ==> AllPut(Since(old(env.answers), env.answers), 2 * |recs|)
    ensures r >= 0 ==> |Since(old(env.answers), env.answers)| >= 2
                       && (env.dropped == old(env.dropped) <==> Full !in Since(old(env.answers), env.answers)[2..])
    ensures r >= 0 <==> env.hard == old(env.hard) && env.commitFull == old(env.commitFull)
    ensures r >= 0 && env.full == old(env.full) ==> env.dropped == old(env.dropped)
  {
    hide Put, PutRest, Ascending, WellFormedRow, Writes, Pair, Puts, BatchCourse, Since, Before, Goods, Write, StopsAt, FailsAt,
      BeginFails, AllPut;
    env.reopened := false;
    ghost var base, d0, a := env.committed, env.dropped, env.answers;
    PutRestNone(base, []);
    r := env.Begin();
    ghost var since := env.answers;
    BeginAnswer(a, since, |recs|);
    if r != 0 {
      return ERRCODE_LMDB_TXN_BEGIN;
    }
    WritesNext(recs, 0);
    r := PutPairs(env, recs, base, d0, since);
    if r != 0 {
      BeginBatch(a, since, env.answers, |recs|);
      BatchStops(a, since, env.answers);
      return;
    }
    ghost var all, lost := env.answers, env.dropped - d0;
    assert |Writes(recs)| == 2 * |recs|;
    r := env.Commit();
    BatchEnd(a, since, all, |recs|, lost, AnswerOf(r));
    if r != 0 {
      return ERRCODE_LMDB_TXN_COMMIT;
    }
    BatchLoses(Since(a, env.answers), |recs|);
    StoredWellFormed(base, recs, env.dropped - d0, env.committed);
    r := |recs|;
  }

  lemma BeginBatch(a: seq<Answer>, since: seq<Answer>, after: seq<Answer>, n: nat)
    requires |since| == |a| + 1 && since == a + [Good] && since <= after
    ensures a <= after && BatchCourse(Since(a, after), n) == Committed(Puts(after[|since|..], 2 * n))
    ensures Since(a, after) != [] && Since(a, after)[0] == Good && Since(a, after)[1..] == after[|since|..]
  {
    hide Puts;
    var h := Since(a, after);
    assert h[0] == after[|a|] == since[|a|] && h[1..] == after[|since|..];
    assert Goods(h, 1) == Done(0, h[1..]) by { assert Goods(h[1..], 0) == Done(0, h[1..]); }
  }

  lemma BatchStops(a: seq<Answer>, since: seq<Answer>, after: seq<Answer>)
    requires |since| == |a| + 1 && since == a + [Good] && since <= after
    ensures forall k: nat :: StopsAt(since, after, k) ==> FailsAt(Since(a, after), k)
  {
    hide Puts;
    BeginBatch(a, since, after, 0);
  }

  /** The answer to the commit of a batch decides. */
  lemma BatchEnd(a: seq<Answer>, since: seq<Answer>, all: seq<Answer>, n: nat, lost: nat, last: Answer)
    requires |since| == |a| + 1 && since == a + [Good] && Written(since, all, 2 * n, Done(lost, []))
    ensures BatchCourse(Since(a, all + [last]), n) == if last == Good then Done(lost, []) else Fails
    ensures AllPut(Since(a, all + [last]), 2 * n)
  {
    hide Puts, BatchCourse;
    var g := all[|since|..];
    BeginBatch(a, since, all + [last], n);
    PutsMore(g, [last], 2 * n);
    assert (all + [last])[|since|..] == g + [last] && [] + [last] == [last];
    assert Goods([], 0) == Done(0, []) && [last][1..] == [];
  }

  lemma {:induction false} WritesAppend(a: seq<LogRecord>, b: seq<LogRecord>)
    ensures Writes(a + b) == Writes(a) + Writes(b)
  {
    if b == [] {
      assert a + b == a;
    } else {
      var n := |b| - 1;
      assert (a + b)[..|a + b| - 1] == a + b[..n];
      WritesAppend(a, b[..n]);
    }
  }

  /** A batch stores what its parts store one after the other; down to single records, the order is all that counts. */
  lemma {:induction false} BatchIsItsParts(rows: seq<Row>, a: seq<LogRecord>, b: seq<LogRecord>, mid: seq<Row>, end: seq<Row>)
    requires Stored(rows, a, 0, mid) && Stored(mid, b, 0, end)
    ensures Stored(rows, a + b, 0, end)
  {
    WritesAppend(a, b);
    assert Writes(a)[0..] == Writes(a) && Writes(b)[0..] == Writes(b) && Writes(a + b)[0..] == Writes(a + b);
    PutAllAppend(rows, Writes(a), Writes(b));
  }

  lemma WritesNext(recs: seq<LogRecord>, c: nat)
    requires c <= |recs|
    ensures c == 0 ==> Writes(recs[..c]) == []
    ensures c < |recs| ==> Writes(recs[..c + 1]) == Writes(recs[..c]) + Pair(recs[c])
  {
    if c < |recs| {
      assert recs[..c + 1][..c] == recs[..c];
    }
  }

  /** How every scan begins: a transaction and a cursor; a cursor that does not open ends the transaction. */
  method OpenCursor(env: DbEnv) returns (r: int)
    requires env.Valid() && !env.inTxn
    modifies env
    ensures env.Valid() && env.committed == old(env.committed)
    ensures r == 0 ==> env.inTxn && env.pending == env.committed && env.hard == old(env.hard) && env.commitFull == old(env.commitFull)
    ensures r != 0 ==> !env.inTxn && env.hard > old(env.hard) && env.commitFull >= old(env.commitFull)
    ensures r == ERRCODE_LMDB_TXN_BEGIN || r == 0 || IsFailure(r)
    ensures env.missed == old(env.missed) && Opened(old(env.answers), env.answers, r)
  {
    hide Opened, Since, Before, Ascending;
    ghost var a := env.answers;
    r := env.Begin();
    ghost var begun := env.answers;
    if r != 0 {
      NotBegun(a, begun, ERRCODE_LMDB_TXN_BEGIN);
      return ERRCODE_LMDB_TXN_BEGIN;
    }
    r := env.Attempt();
    ghost var b := env.answers;
    if r != 0 {
      var ignored := env.Commit();
      NotOpened(a, begun, b, [AnswerOf(ignored)], r);
    } else {
      CursorOpened(a, begun, b);
    }
  }

  // ---- Removing records ----------------------------------------------------------------

  /** The prefix length a scan uses. */
  function ClampSize(saSize: int): (sz: nat)
    ensures sz <= 6
  {
    if saSize >= 6 then 6 else if saSize <= 0 then 0 else saSize
  }

  /** The prefix a scan filters by: the first bytes of the MAC, or none without a MAC. */
  function PrefixOf(sa: Option<Mac>, saSize: int): Prefix {
    if sa.Some? then sa.value[..ClampSize(saSize)] else []
  }

  /** It has the length asked for, within zero and six. */
  lemma {:induction false} PrefixOfLength(m: Mac, saSize: int)
    ensures PrefixOf(Some(m), saSize) <= m
    ensures 0 <= saSize <= 6 ==> |PrefixOf(Some(m), saSize)| == saSize
    ensures saSize < 0 ==> PrefixOf(Some(m), saSize) == []
    ensures saSize > 6 ==> PrefixOf(Some(m), saSize) == m
  {
    assert m[..6] == m;
  }

  /** What a scan does with the row under its cursor: leave the loop, go on, or take the row. */
  datatype Verdict = Stop | Skip | Take

  /** The tests of the loop of `rmLog`, in its order. */
  method RmJudge(sa: Option<Mac>, sz: nat, lo: Time, hi: Time, row: Row,
                 ghost rows: seq<Row>, ghost i: nat, ghost q: Query, ghost seek: seq<Byte>)
    returns (v: Verdict)
    requires WellFormed(rows) && i < |rows| && row == rows[i] && !Before(row.key, seek)
    requires sz <= 6 && q == Query(if sa.Some? then sa.value[..sz] else [], lo, hi) && sz == |q.prefix|
    requires |seek| >= 1 + sz && seek[..1 + sz] == BlockKey(TAG_LOG, q.prefix)
    ensures v == Stop ==> forall j :: i <= j < |rows| ==> !ReachedBy(q, seek)(rows[j])
    ensures v == Skip ==> !ReachedBy(q, seek)(row)
    ensures v == Take ==> ReachedBy(q, seek)(row)
  {
    assert row in rows;
    if |row.val| < LOG_DATA_SIZE || |row.key| < LOG_KEY_SIZE {
      return Skip;
    }
    var dt := KeyTime(row.key);
    if sa.Some? && row.key[1..1 + sz] != sa.value[..sz] {
      StopAtPrefix(rows, i, q, seek);
      return Stop;
    }
    if dt > hi {
      if sz == 6 {
        if row.key[0] == TAG_LOG { StopAtTime(rows, i, q); } else { StopAtTag(rows, i, q, seek); }
        return Stop;
      }
      return Skip;
    }
    if dt < lo {
      return Skip;
    }
    if row.key[0] != TAG_LOG {
      StopAtTag(rows, i, q, seek);
      return Stop;
    }
    return Take;
  }

  /** Deletes the row under the cursor and does not look at the result: a failure spares the row. */
  method DeleteCounted(env: DbEnv, ghost rows: seq<Row>, ghost i: nat, ghost f: Row -> bool,
                       ghost spared: set<seq<Byte>>, ghost cnt: nat)
    returns (ghost spared': set<seq<Byte>>)
    requires env.Valid() && env.inTxn && Swept(rows, i, f, spared, env.pending, cnt)
    requires i < |rows| && f(rows[i]) && env.cursorKey == rows[i].key
    modifies env`pending, env`written, env`hard, env`missed, env`answers
    ensures env.Valid() && Swept(rows, i + 1, f, spared', env.pending, cnt + 1)
    ensures |spared'| - |spared| == env.missed - old(env.missed) == env.hard - old(env.hard)
    ensures |env.answers| == |old(env.answers)| + 1 && env.answers == old(env.answers) + [env.answers[|old(env.answers)|]]
    ensures |spared'| == |spared| + if env.answers[|old(env.answers)|] == Good then 0 else 1
  {
    hide Swept, Keep, OtherThan, Ascending, Before;
    SweptDeleted(rows, i, f, spared, env.pending, cnt);
    SweptSpared(rows, i, f, spared, env.pending, cnt);
    var r := env.CursorDel();
    spared' := if r == MDB_SUCCESS then spared else spared + {rows[i].key};
  }

  /** The loop of `rmLog`: from the seek key on, deletes each row it takes and goes on from there. */
  method RmScan(env: DbEnv, sa: Option<Mac>, sz: nat, lo: Time, hi: Time, first: Row,
                ghost rows: seq<Row>, ghost q: Query, ghost seek: seq<Byte>)
    returns (cnt: nat, ghost spared: set<seq<Byte>>)
    requires env.Valid() && env.inTxn && env.pending == rows && WellFormed(rows)
    requires SeekPos(rows, seek) < |rows| && first == rows[SeekPos(rows, seek)] && env.cursorKey == first.key
    requires sz <= 6 && q == Query(if sa.Some? then sa.value[..sz] else [], lo, hi) && sz == |q.prefix|
    requires |seek| >= 1 + sz && seek[..1 + sz] == BlockKey(TAG_LOG, q.prefix)
    modifies env`pending, env`written, env`cursorKey, env`hard, env`missed, env`answers
    ensures env.Valid() && Removed(rows, ReachedBy(q, seek), spared, env.pending, cnt)
    ensures |spared| == env.missed - old(env.missed) == env.hard - old(env.hard)
    ensures Deletions(old(env.answers), env.answers, cnt, |spared|)
  {
    hide Deletions, Swept, SeekPos, AfterPos, WellFormedRow, ReachedBy, Keep, Before, Ascending, Except, Not, OtherThan;
    ghost var i, f := SeekPos(rows, seek), ReachedBy(q, seek);
    BeforeSeek(rows, q, seek);
    var row, r := first, 0;
    cnt, spared := 0, {};
    SweptStart(rows, i, f);
    NoDeletions(env.answers);
    while true
      invariant i < |rows| && row == rows[i] && env.cursorKey == row.key && !Before(row.key, seek)
      invariant env.Valid() && Swept(rows, i, f, spared, env.pending, cnt) && SeekPos(rows, seek) <= i
      invariant |spared| == env.missed - old(env.missed) == env.hard - old(env.hard)
      invariant Deletions(old(env.answers), env.answers, cnt, |spared|)
      decreases |rows| - i
    {
      var verdict := RmJudge(sa, sz, lo, hi, row, rows, i, q, seek);
      if verdict == Stop {
        break;
      }
      if verdict == Take {
        ghost var b, failed := env.answers, |spared|;
        spared := DeleteCounted(env, rows, i, f, spared, cnt);
        OneDeletion(old(env.answers), b, env.answers, cnt, failed);
        cnt := cnt + 1;
      } else {
        SweptPast(rows, i, f, spared, env.pending, cnt);
      }
      SweptNext(rows, i, f, spared, env.pending, cnt);
      i := i + 1;
      r, row := env.Next();
      if r != 0 {
        break;
      }
    }
    SweptEnd(rows, i, f, spared, env.pending, cnt);
  }

  /** What a removal leaves when some of its deletions may have failed. */
  ghost predicate RemovedSome(rows: seq<Row>, f: Row -> bool, rows': seq<Row>) {
    exists spared: set<seq<Byte>> :: rows' == Keep(rows, Not(Except(f, spared)))
  }

  lemma RemovedNone(rows: seq<Row>, f: Row -> bool)
    ensures RemovedSome(rows, f, rows)
  {
    var spared := set r | r in rows :: r.key;
    KeepAll(rows, Not(Except(f, spared)));
  }

  lemma RemovedRest(rows: seq<Row>, f: Row -> bool, spared: set<seq<Byte>>, left: seq<Row>, cnt: nat)
    requires WellFormed(rows) && Removed(rows, f, spared, left, cnt)
    ensures WellFormed(left) && RemovedSome(rows, f, left)
    ensures cnt == |Keep(rows, f)| && |rows| - |left| == cnt - |spared| >= 0
    ensures |spared| == 0 ==> left == Keep(rows, Not(f))
  {
    RmKeepsWellFormed(rows, Not(Except(f, spared)));
    if |spared| == 0 {
      KeepSame(rows, Not(Except(f, spared)), Not(f));
    }
  }

  /** The rows `rmLog` is to delete. */
  function RmTargets(p: Prefix, start: Time, finish: Time): Row -> bool {
    ReachedBy(QueryOf(p, start, finish), RmSeekKey(p, start))
  }

  /**
    Removes log records.  The cursor moves over rows that are deleted under it; the rows
    deleted are those of `RmRows`, and their number is returned.  The result of a deletion is not
    looked at: a row whose deletion fails stays and is counted.  The result of a cursor that does not
    open is returned as it is, and a system error is positive, like a count.  So a result that is not
    negative is the number removed exactly when every call to the library succeeded.
   */
  method RmLog(env: DbEnv, sa: Option<Mac>, saSize: int, start: Time, finish: Time) returns (r: int)
    requires env.Valid() && !env.inTxn && WellFormed(env.committed)
    requires sa.None? ==> saSize <= 0
    modifies env
    ensures env.Valid() && !env.inTxn && WellFormed(env.committed)
    ensures RemovedSome(old(env.committed), RmTargets(PrefixOf(sa, saSize), start, finish), env.committed)
    ensures env.hard - old(env.hard) >= env.missed - old(env.missed) >= 0 && env.commitFull >= old(env.commitFull)
    ensures r < 0 ==> env.committed == old(env.committed)
    ensures env.hard - old(env.hard) == env.missed - old(env.missed) && env.commitFull == old(env.commitFull) ==>
              if SeekPos(old(env.committed), RmSeekKey(PrefixOf(sa, saSize), start)) == |old(env.committed)|
              then r == MDB_NOTFOUND && env.committed == old(env.committed) && env.missed == old(env.missed)
              else && r == |RmRows(old(env.committed), PrefixOf(sa, saSize), start, finish)|
                   && |old(env.committed)| - |env.committed| == r - (env.missed - old(env.missed))
    ensures env.hard == old(env.hard) && env.commitFull == old(env.commitFull) ==>
              env.committed == RmLeaves(old(env.committed), PrefixOf(sa, saSize), start, finish)
    ensures r >= 0 ==> 0 <= |old(env.committed)| - |env.committed| <= r
    ensures r >= 0 ==> (r == |old(env.committed)| - |env.committed| <==> env.hard == old(env.hard))
    ensures old(env.answers) <= env.answers && PassesError(Since(old(env.answers), env.answers), r)
    ensures CursorRefused(Since(old(env.answers), env.answers)) ==>
              env.committed == old(env.committed) && env.missed == old(env.missed)
    ensures SeekPos(old(env.committed), RmSeekKey(PrefixOf(sa, saSize), start)) < |old(env.committed)| ==>
              RemoveCourse(Since(old(env.answers), env.answers), |RmRows(old(env.committed), PrefixOf(sa, saSize), start, finish)|)
              == if env.hard - old(env.hard) == env.missed - old(env.missed) && env.commitFull == old(env.commitFull)
                 then Done(env.missed - old(env.missed), []) else Fails
  {
    hide SeekPos, Ascending, WellFormed, ReachedBy, RmSeekKey, Before, BlockKey, RemovedSome, Removed, RmRows, RmLeaves,
      RemoveCourse, Since, Opened, PassesError, CursorRefused, Deletions, QueryOf, IsFailure, IsWriteResult;
    ghost var rows := env.committed;
    var p := PrefixOf(sa, saSize);
    ghost var f := RmTargets(p, start, finish);
    ghost var a := env.answers;
    RemovedNone(rows, f);
    r := OpenCursor(env);
    ghost var since := env.answers;
    if r != 0 {
      RemoveFails(a, since, r, |RmRows(rows, p, start, finish)|);
      return;
    }
    var sz := ClampSize(saSize);
    var seek := RmSeekKey(p, start);
    var row: Row;
    r, row := env.SetRange(seek);
    if r != 0 {
      NothingReached(rows, p, start, finish);
      var ignored := env.Commit();
      OpenedThen(a, since, [AnswerOf(ignored)], r);
      return;
    }
    var lo, hi := InOrder(p, start, finish);
    SeekKeyInBlock(p, start);
    var cnt;
    ghost var spared;
    cnt, spared := RmScan(env, sa, sz, lo, hi, row, rows, Query(p, lo, hi), seek);
    RmLogRest(rows, p, start, finish, spared, env.pending, cnt);
    ghost var b := env.answers;
    r := env.Commit();
    RemoveEnds(a, since, b, cnt, |spared|, AnswerOf(r));
    RemoveAnswers(a, since, b, cnt, |spared|, AnswerOf(r), if r != 0 then ERRCODE_LMDB_TXN_COMMIT else cnt);
    if r != 0 {
      return ERRCODE_LMDB_TXN_COMMIT;
    }
    r := cnt;
  }

  lemma NothingReached(rows: seq<Row>, p: Prefix, start: Time, finish: Time)
    requires WellFormed(rows) && SeekPos(rows, RmSeekKey(p, start)) == |rows|
    ensures RmLeaves(rows, p, start, finish) == rows
  {
    hide SeekPos, Keep, ReachedBy;
    var f := RmTargets(p, start, finish);
    BeforeSeek(rows, QueryOf(p, start, finish), RmSeekKey(p, start));
    StartStep(rows, |rows|, f);
    StopStep(rows, |rows|, f);
  }

  lemma RmLogRest(rows: seq<Row>, p: Prefix, start: Time, finish: Time, spared: set<seq<Byte>>, left: seq<Row>, cnt: nat)
    requires WellFormed(rows) && Removed(rows, RmTargets(p, start, finish), spared, left, cnt)
    ensures WellFormed(left) && RemovedSome(rows, RmTargets(p, start, finish), left)
    ensures cnt == |RmRows(rows, p, start, finish)| && |rows| - |left| == cnt - |spared| >= 0
    ensures |spared| == 0 ==> left == RmLeaves(rows, p, start, finish)
  {
    hide Keep, ReachedBy, WellFormed, RemovedSome, Removed;
    RemovedRest(rows, RmTargets(p, start, finish), spared, left, cnt);
  }

  lemma BeforeSeek(rows: seq<Row>, q: Query, seek: seq<Byte>)
    requires Ascending(rows)
    ensures forall j :: 0 <= j < SeekPos(rows, seek) ==> !ReachedBy(q, seek)(rows[j])
    ensures forall j :: SeekPos(rows, seek) <= j < |rows| ==> !Before(rows[j].key, seek)
  {
    SeekPosSplits(rows, seek);
  }
}
