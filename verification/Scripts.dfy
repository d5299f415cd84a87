/**
  Calls on a database whose library answers by a script: what a call reports when the library fails in a
  way that the call does not notice.
 */
module Scripts {
  import opened Bytes
  import opened Keys
  import opened Rows
  import opened Seqs
  import opened Cursors
  import opened Lmdb
  import opened Courses
  import opened LogStore
  import opened DbLog
  import opened Guards

  const FIRST_MAC: Mac := [2, 0, 0, 0, 0, 1]
  const FIRST_TIME: Time := 1548920395
  const NO_MEMORY: Code := 12

  // ---- A full map at the commit ---------------------------------------------------------------

  /** The answers of a `putLog` whose commit is refused for a full map, with a restart that goes well. */
  const FULL_AT_COMMIT := [Good, Good, Good, Full, Good, Good, Good, Good, Good]

  lemma FullAtCommit()
    ensures PutLogCourse(FULL_AT_COMMIT) == Done(2, [])
  {
    var g: seq<Answer> := [Good, Good, Full, Good, Good, Good, Good, Good];
    assert FULL_AT_COMMIT[1..] == g && Goods(g, 0) == Done(0, g);
    assert Puts(g, 0) == Done(0, g);
    assert Puts(g, 1) == Done(0, g[1..]);
    assert Puts(g, 2) == Done(0, g[2..]);
    var x := g[2..][1..];
    assert Goods(x, 5) == Done(0, []) by {
      assert x == [Good, Good, Good, Good, Good];
      assert x[1..][1..][1..][1..][1..] == [];
      assert Goods(x[1..][1..][1..][1..], 1) == Done(0, []);
      assert Goods(x[1..][1..][1..], 2) == Done(0, []);
      assert Goods(x[1..][1..], 3) == Done(0, []);
      assert Goods(x[1..], 4) == Done(0, []);
    }
  }

  /**
    The commit of the first `putLog` over an empty database is refused for a full map.  The call
    succeeds, and the database is still empty.
   */
  method SuccessWithoutRecord() returns (r: int, store: seq<Row>)
    ensures r == 0 && store == []
  {
    var env := new DbEnv(FULL_AT_COMMIT);
    r := PutLog(env, LogEntry(1, -70, FIRST_MAC), LOG_ENTRY_SIZE, FIRST_TIME);
    store := env.committed;
    FullAtCommit();
    CourseDecides(FULL_AT_COMMIT, Since([], env.answers));
  }

  // ---- Removals that return another number ---------------------------------------------------------

  /** The answers of a `putLog` that goes well. */
  const ALL_WELL := [Good, Good, Good, Good]

  lemma AllWell(x: seq<Answer>)
    ensures PutLogCourse(ALL_WELL + x) == Done(0, x)
  {
    var g: seq<Answer> := [Good, Good, Good];
    assert ALL_WELL[1..] == g && Goods(g, 0) == Done(0, g);
    assert Puts(g, 0) == Done(0, g);
    assert Puts(g, 1) == Done(0, g[1..]);
    assert Puts(g, 2) == Done(0, g[2..]);
    assert g[2..][1..] == [] && PutLogCourse(ALL_WELL) == Done(0, []);
    PutLogMore(ALL_WELL, x);
    assert [] + x == x;
  }

  /** A database with one record, whose library goes on with the answers x. */
  method OneRecordStored(ghost x: seq<Answer>, script: seq<Answer>) returns (env: DbEnv)
    requires script == ALL_WELL + x
    ensures fresh(env) && env.Valid() && !env.inTxn && env.script == script && env.answers == ALL_WELL
    ensures env.committed == StoreOfOne(FIRST_MAC, FIRST_TIME)
  {
    hide PutLogCourse, Since, StoreOfOne;
    env := new DbEnv(script);
    EmptyIsWellFormed();
    var r := PutLog(env, LogEntry(1, -70, FIRST_MAC), LOG_ENTRY_SIZE, FIRST_TIME);
    AllWell(x);
    SinceNothing(env.answers);
    CourseDecides(script, env.answers);
    assert env.answers == ALL_WELL;
    StoredOne(env.committed);
  }

  lemma EmptyIsWellFormed()
    ensures WellFormed([])
  {
  }

  lemma SinceNothing(a: seq<Answer>)
    ensures Since([], a) == a
  {
  }

  lemma StoredOne(rows: seq<Row>)
    requires Stored([], [EntryRecord(LogEntry(1, -70, FIRST_MAC), FIRST_TIME)], 0, rows)
    ensures rows == StoreOfOne(FIRST_MAC, FIRST_TIME)
  {
    var recs := [OneRecord(FIRST_MAC, FIRST_TIME)];
    assert EntryRecord(LogEntry(1, -70, FIRST_MAC), FIRST_TIME) == recs[0];
    assert Writes(recs)[0..] == Writes(recs);
  }

  /** A store of one record is its two rows, and `rmLog` without a filter has one to delete. */
  lemma OneToRemove()
    ensures var rows := StoreOfOne(FIRST_MAC, FIRST_TIME);
            && WellFormed(rows) && |RmRows(rows, [], 0, 0)| == 1
            && SeekPos(rows, RmSeekKey([], 0)) < |rows|
  {
    hide StoreOfOne, WellFormedRow, LogVal, ProbeVal, RmSeekKey;
    var rows, l, p := StoreOfOne(FIRST_MAC, FIRST_TIME), LogRow(FIRST_MAC, FIRST_TIME, LogData(1, -70)), ProbeRow(FIRST_MAC, FIRST_TIME);
    StoreOfOneRows(FIRST_MAC, FIRST_TIME);
    StoreOfOneIs(FIRST_MAC, FIRST_TIME);
    RmIsExact(rows, [], 0, 0);
    var f := WantedBy(QueryOf([], 0, 0));
    assert f(l) && !f(p);
    assert [l, p][..1] == [l] && [l][..0] == [] && Keep([l], f) == [l];
    assert LogOf(rows, QueryOf([], 0, 0)) == Keep([l, p], f) == [l];
    ReachableMeans(rows);
  }

  /** A refused deletion: the transaction and the cursor open, and the commit goes well. */
  const REFUSED_DELETION := [Good, Good, Bad(NO_MEMORY), Good]

  lemma RefusedDeletion()
    ensures RemoveCourse(REFUSED_DELETION, 1) == Done(1, [])
  {
    var g: seq<Answer> := [Bad(NO_MEMORY), Good];
    assert REFUSED_DELETION == [Good, Good] + g;
    TwoGoods(g);
    assert g[1..] == [Good] && g[..1] == [Bad(NO_MEMORY)] && [Bad(NO_MEMORY)][..0] == [];
    OneGood(Good);
    assert Failures([Bad(NO_MEMORY)]) == 1;
  }

  lemma AnswersGoOn(first: seq<Answer>, rest: seq<Answer>, answers: seq<Answer>)
    requires first <= answers && (answers <= first + rest || first + rest <= answers)
    ensures Since(first, answers) <= rest || rest <= Since(first, answers)
  {
    assert (first + rest)[|first|..] == rest;
  }

  /** The deletion of the only record is refused.  `rmLog` returns one, and the database is as it was. */
  method CountWithoutRemoval() returns (r: int, before: seq<Row>, after: seq<Row>)
    ensures r == 1 && after == before && |before| == 2
  {
    hide StoreOfOne, RmRows, RemoveCourse, Since, WellFormed, PassesError, CursorRefused, RmTargets, RmSeekKey, SeekPos, RemovedSome;
    var env := OneRecordStored(REFUSED_DELETION, ALL_WELL + REFUSED_DELETION);
    before := env.committed;
    OneToRemove();
    r := RmLog(env, None, 0, 0, 0);
    after := env.committed;
    AnswersGoOn(ALL_WELL, REFUSED_DELETION, env.answers);
    RefusedDeletion();
    RemoveDecides(REFUSED_DELETION, Since(ALL_WELL, env.answers), 1);
    RemovedNothing(before, RmTargets([], 0, 0), after);
    StoreOfOneIs(FIRST_MAC, FIRST_TIME);
  }

  lemma RemovedNothing(rows: seq<Row>, f: Row -> bool, rows': seq<Row>)
    requires RemovedSome(rows, f, rows') && |rows'| == |rows|
    ensures rows' == rows
  {
    var spared: set<seq<Byte>> :| rows' == Keep(rows, Not(Except(f, spared)));
    KeepAllMeans(rows, Not(Except(f, spared)));
    KeepAll(rows, Not(Except(f, spared)));
  }

  /** A cursor that does not open for lack of memory. */
  const REFUSED_CURSOR := [Good, Bad(NO_MEMORY)]

  /** The cursor does not open.  `rmLog` returns the system's error, 12, which a caller takes for a count. */
  method ErrorForACount() returns (r: int, before: seq<Row>, after: seq<Row>, ghost failedDeletions: int)
    ensures r == 12 && after == before && failedDeletions == 0
  {
    hide StoreOfOne, RmRows, RemoveCourse, Since, WellFormed, RmTargets, RmSeekKey, SeekPos, RemovedSome;
    var env := OneRecordStored(REFUSED_CURSOR, ALL_WELL + REFUSED_CURSOR);
    before := env.committed;
    ghost var missed := env.missed;
    OneToRemove();
    r := RmLog(env, None, 0, 0, 0);
    after := env.committed;
    failedDeletions := env.missed - missed;
    AnswersGoOn(ALL_WELL, REFUSED_CURSOR, env.answers);
    RefusedCursor(Since(ALL_WELL, env.answers), r);
  }

  lemma RefusedCursor(h: seq<Answer>, r: int)
    requires (h <= REFUSED_CURSOR || REFUSED_CURSOR <= h) && PassesError(h, r)
    ensures CursorRefused(h) && r == 12
  {
    assert REFUSED_CURSOR[0] == Good && REFUSED_CURSOR[1] == Bad(NO_MEMORY);
    assert h[0] == Good && h[1] == Bad(NO_MEMORY);
  }
}
