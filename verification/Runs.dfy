/**
  Runs of the program over one database: every sequence of calls that store or remove, each
  with any outcome the library allows it.
 */
module Runs {
  import opened Bytes
  import opened Keys
  import opened Rows
  import opened Seqs
  import opened Cursors
  import opened Lmdb
  import opened Courses
  import opened LogStore
  import opened DbLog
  import opened DbNotes
  import opened Index

  datatype Op =
    | PutOne(entry: LogEntry, size: nat, now: Time)
    | PutBatch(recs: seq<LogRecord>)
    | Remove(sa: Option<Mac>, saSize: int, start: Time, finish: Time)
    | SetNote(mac: Mac, tail: seq<Byte>, value: seq<Byte>)
    | RemoveNotes(mac: Mac, macSize: int)

  ghost predicate Callable(op: Op) {
    match op
    case PutOne(_, _, _) => true
    case PutBatch(_) => true
    case Remove(sa, saSize, _, _) => sa.None? ==> saSize <= 0
    case SetNote(_, tail, _) => |tail| == 9
    case RemoveNotes(_, _) => true
  }

  function RecordsOf(op: Op): seq<LogRecord> {
    match op
    case PutOne(entry, _, now) => [EntryRecord(entry, now)]
    case PutBatch(recs) => recs
    case _ => []
  }

  /** The committed store before and after a call, whatever the library's calls returned. */
  ghost predicate OpStep(s: seq<Row>, op: Op, s': seq<Row>) {
    || s' == s
    || match op
       case PutOne(_, _, _) => exists lost :: Stored(s, RecordsOf(op), lost, s')
       case PutBatch(_) => exists lost :: Stored(s, RecordsOf(op), lost, s')
       case Remove(sa, saSize, start, finish) => RemovedSome(s, RmTargets(PrefixOf(sa, saSize), start, finish), s')
       case SetNote(sa, tail, value) =>
         |tail| == 9 && Ascending(s) && s' == NoteStored(s, NoteKey(sa, tail), value)
       case RemoveNotes(sa, saSize) => RemovedSome(s, NotesOf(sa[..ClampSize(saSize)]), s')
  }

  ghost predicate IsPut(op: Op) {
    op.PutOne? || op.PutBatch?
  }

  /** A put that fails, or that stores all its writes. */
  ghost predicate CleanPut(s: seq<Row>, op: Op, s': seq<Row>) {
    IsPut(op) && (s' == s || Stored(s, RecordsOf(op), 0, s'))
  }

  /**
    Every call makes such a step, and a put that loses no write a clean one, as every put does
    without a full map.  A call that ends its process takes its open transaction with it.
   */
  method Perform(env: DbEnv, op: Op) returns (r: int)
    requires env.Valid() && !env.inTxn && WellFormed(env.committed) && Callable(op)
    modifies env
    ensures env.Valid() && !env.inTxn && WellFormed(env.committed)
    ensures OpStep(old(env.committed), op, env.committed)
    ensures IsPut(op) && (env.dropped == old(env.dropped) || env.full == old(env.full)) ==>
              CleanPut(old(env.committed), op, env.committed)
  {
    hide WellFormed, Ascending, RemovedSome, NoteStored, Keep, Stored, Since, PutLogCourse, BatchCourse, RemoveCourse,
      PassesError, CursorRefused, Before;
    ghost var s, d := env.committed, env.dropped;
    match op
    case PutOne(entry, size, now) =>
      r := PutLog(env, entry, size, now);
      assert r == 0 ==> Stored(s, RecordsOf(op), env.dropped - d, env.committed);
    case PutBatch(recs) =>
      r := PutLogEntries(env, recs);
      assert r >= 0 ==> Stored(s, RecordsOf(op), env.dropped - d, env.committed);
    case Remove(sa, saSize, start, finish) => r := RmLog(env, sa, saSize, start, finish);
    case SetNote(sa, tail, value) => r := PutNotification(env, sa, tail, value);
    case RemoveNotes(sa, saSize) =>
      var crashed;
      r, crashed := RmNotification(env, sa, saSize);
      env.Abort();
  }

  /** A run starts from the empty database. */
  ghost predicate Run(states: seq<seq<Row>>, ops: seq<Op>) {
    && |states| == |ops| + 1
    && states[0] == []
    && forall i :: 0 <= i < |ops| ==> OpStep(states[i], ops[i], states[i + 1])
  }

  function OpTimes(op: Op): seq<int> {
    Times(RecordsOf(op))
  }

  /** All the times a run has put, in order. */
  function RunTimes(ops: seq<Op>): seq<int> {
    if ops == [] then [] else RunTimes(ops[..|ops| - 1]) + OpTimes(ops[|ops| - 1])
  }

  // ---- The invariant -----------------------------------------------------------------------

  lemma RemovalStep(s: seq<Row>, op: Op, s': seq<Row>, now: int)
    requires WellFormed(s) && OpStep(s, op, s') && s' != s && (op.Remove? || op.RemoveNotes?)
    ensures WellFormed(s') && (EveryLogHasProbe(s) ==> EveryLogHasProbe(s')) && (Indexed(s, now) ==> Indexed(s', now))
  {
    hide EveryLogHasProbe, Indexed, WellFormedRow, Keep;
    var f := if op.Remove? then RmTargets(PrefixOf(op.sa, op.saSize), op.start, op.finish)
             else NotesOf(op.mac[..ClampSize(op.macSize)]);
    var spared: set<seq<Byte>> :| s' == Keep(s, Not(Except(f, spared)));
    RemovalKeepsIndex(s, Not(Except(f, spared)), now);
  }

  lemma NoteStep(s: seq<Row>, sa: Mac, tail: seq<Byte>, value: seq<Byte>, now: int)
    requires WellFormed(s) && |tail| == 9
    ensures var s' := NoteStored(s, NoteKey(sa, tail), value);
            WellFormed(s') && (EveryLogHasProbe(s) ==> EveryLogHasProbe(s')) && (Indexed(s, now) ==> Indexed(s', now))
  {
    var key := NoteKey(sa, tail);
    if value == [] {
      RemovalKeepsIndex(s, OtherThan(key), now);
    } else {
      NotePutKeepsIndex(s, Row(key, value), now);
    }
  }

  lemma NotePutKeepsIndex(s: seq<Row>, w: Row, now: int)
    requires WellFormed(s) && IsNoteKey(w.key) && w.val != []
    ensures WellFormed(Put(s, w)) && (EveryLogHasProbe(s) ==> EveryLogHasProbe(Put(s, w)))
    ensures Indexed(s, now) ==> Indexed(Put(s, w), now)
  {
    assert WellFormedRow(w);
    hide Put, WellFormedRow;
    PutKeepsWellFormed(s, w);
    if EveryLogHasProbe(s) {
      forall r | r in Put(s, w) && IsLogKey(r.key) ensures HasProbe(Put(s, w), KeySa(r.key)) {
        assert HasProbe(s, KeySa(r.key));
        var p :| p in s && p.key == ProbeKey(KeySa(r.key));
        assert p in Put(s, w);
      }
    }
  }

  lemma StepKeepsEntries(s: seq<Row>, op: Op, s': seq<Row>)
    requires WellFormed(s) && EveryLogHasProbe(s) && OpStep(s, op, s')
    ensures WellFormed(s') && EveryLogHasProbe(s')
  {
    hide EveryLogHasProbe, WellFormedRow, Indexed, PutAll, Keep, Put;
    if s' != s {
      if op.PutOne? || op.PutBatch? {
        var lost :| Stored(s, RecordsOf(op), lost, s');
        SuffixKeepsEntries(s, RecordsOf(op), lost);
      } else if op.SetNote? {
        NoteStep(s, op.mac, op.tail, op.value, 0);
      } else {
        RemovalStep(s, op, s', 0);
      }
    }
  }

  lemma StepKeepsIndex(s: seq<Row>, op: Op, s': seq<Row>, now: int)
    requires Indexed(s, now) && OpStep(s, op, s') && Rising(now, OpTimes(op))
    ensures Indexed(s', LastOr(now, OpTimes(op)))
  {
    assert WellFormed(s);
    hide EveryLogHasProbe, WellFormedRow, Indexed, PutAll, Keep, Put;
    if s' == s {
      IndexedLater(s, now, LastOr(now, OpTimes(op)));
    } else if op.PutOne? || op.PutBatch? {
      var lost :| Stored(s, RecordsOf(op), lost, s');
      SuffixKeepsIndex(s, RecordsOf(op), lost, now);
    } else if op.SetNote? {
      NoteStep(s, op.mac, op.tail, op.value, now);
    } else {
      RemovalStep(s, op, s', now);
    }
  }

  lemma RunPrefix(states: seq<seq<Row>>, ops: seq<Op>)
    requires Run(states, ops) && ops != []
    ensures Run(states[..|ops|], ops[..|ops| - 1])
  {
  }

  /**
    In every state of every run, with full maps and restarts wherever the library likes, the
    store is well-formed and every MAC with a log record has a last-probe entry.
   */
  lemma {:induction false} RunKeepsEntries(states: seq<seq<Row>>, ops: seq<Op>)
    requires Run(states, ops)
    ensures forall i :: 0 <= i < |states| ==> WellFormed(states[i]) && EveryLogHasProbe(states[i])
  {
    hide WellFormed, EveryLogHasProbe, OpStep;
    assert WellFormed([]) && EveryLogHasProbe([]) by { EmptyStore(); }
    if ops != [] {
      var n := |ops| - 1;
      RunPrefix(states, ops);
      RunKeepsEntries(states[..|ops|], ops[..n]);
      forall i | 0 <= i <= n ensures WellFormed(states[i]) && EveryLogHasProbe(states[i]) {
        assert states[..|ops|][i] == states[i];
      }
      assert OpStep(states[n], ops[n], states[n + 1]);
      StepKeepsEntries(states[n], ops[n], states[n + 1]);
    }
  }

  lemma EmptyStore()
    ensures WellFormed([]) && EveryLogHasProbe([]) && Indexed([], 0) && ProbesLogged([])
  {
  }

  lemma RisingSplits(now: int, a: seq<int>, b: seq<int>)
    requires Rising(now, a + b)
    ensures Rising(now, a) && Rising(LastOr(now, a), b) && LastOr(now, a + b) == LastOr(LastOr(now, a), b)
  {
    var s := a + b;
    forall i | 0 <= i < |a| ensures now <= a[i] {
      assert a[i] == s[i];
    }
    forall i, j | 0 <= i < j < |a| ensures a[i] <= a[j] {
      assert a[i] == s[i] && a[j] == s[j];
    }
    forall i | 0 <= i < |b| ensures LastOr(now, a) <= b[i] {
      assert b[i] == s[|a| + i] && (a != [] ==> a[|a| - 1] == s[|a| - 1]);
    }
    forall i, j | 0 <= i < j < |b| ensures b[i] <= b[j] {
      assert b[i] == s[|a| + i] && b[j] == s[|a| + j];
    }
  }

  /** And if the times put never decrease, that entry is at or after every record of its MAC. */
  lemma {:induction false} RunKeepsIndex(states: seq<seq<Row>>, ops: seq<Op>)
    requires Run(states, ops) && Rising(0, RunTimes(ops))
    ensures Indexed(states[|ops|], LastOr(0, RunTimes(ops)))
  {
    hide Indexed, OpStep;
    if ops == [] {
      EmptyStore();
    } else {
      var n := |ops| - 1;
      RunPrefix(states, ops);
      RisingSplits(0, RunTimes(ops[..n]), OpTimes(ops[n]));
      RunKeepsIndex(states[..|ops|], ops[..n]);
      assert OpStep(states[n], ops[n], states[n + 1]);
      StepKeepsIndex(states[n], ops[n], states[n + 1], LastOr(0, RunTimes(ops[..n])));
    }
  }
}
