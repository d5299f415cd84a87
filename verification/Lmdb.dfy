/**
  The key-value library as its callers may rely on it: one ordered map, one write transaction
  at a time, cursors that move by key order.  The answer to a call is chosen freely among those
  the library documents, so that what is proved holds whichever it gives; a script can fix the
  first answers.
 */
module Lmdb {
  import opened Bytes
  import opened Rows
  import opened Seqs

  const MDB_SUCCESS := 0
  const MDB_NOTFOUND := -30798
  const MDB_MAP_FULL := -30792

  /** A failure: a system error is positive, the library's own codes lie well below the program's. */
  predicate IsFailure(r: int) {
    r > 0 || -30800 < r < -30700
  }

  /** The result of a call that failed for another reason than a full map or a missing key. */
  type Code = r: int | IsFailure(r) && r != MDB_MAP_FULL && r != MDB_NOTFOUND witness 5

  predicate IsWriteResult(r: int) {
    r == MDB_SUCCESS || r == MDB_MAP_FULL || (IsFailure(r) && r != MDB_NOTFOUND)
  }

  /** What the library answers to a call: done, map full, or another failure. */
  datatype Answer = Good | Full | Bad(code: Code)

  function AnswerOf(r: int): Answer
  {
    if r == MDB_SUCCESS then Good else if r == MDB_MAP_FULL then Full
    else if IsFailure(r) && r != MDB_NOTFOUND then Bad(r) else Bad(5)
  }

  /** `dbenv`: an open environment, its write transaction and its cursor. */
  class DbEnv {
    var committed: seq<Row>      // what a new transaction sees
    var pending: seq<Row>        // what the open transaction sees
    var inTxn: bool
    var cursorKey: seq<Byte>     // the key the cursor last returned

    const script: seq<Answer>    // the first answers
    var answers: seq<Answer>     // the answers so far

    // Bookkeeping for specifications.
    ghost var written: nat       // writes accepted by the open transaction
    ghost var dropped: nat       // accepted writes discarded with their transaction, ever
    ghost var reopened: bool     // enlarged after a full map, no write accepted since
    ghost var hard: nat          // failures that enlarging a full map could not cure, ever
    ghost var full: nat          // calls refused for a full map, ever
    ghost var commitFull: nat    // those of them that were commits
    ghost var missed: nat        // deletions under the cursor that failed, ever

    ghost predicate Valid()
      reads this
    {
      && Ascending(committed) && (inTxn ==> Ascending(pending))
      && (answers <= script || script <= answers)
    }

    constructor (script: seq<Answer>)
      ensures Valid() && committed == [] && !inTxn && answers == [] && this.script == script
    {
      this.script, answers := script, [];
      committed, pending, inTxn, cursorKey := [], [], false, [];
      written, dropped, reopened, hard, full, commitFull, missed := 0, 0, false, 0, 0, 0, 0;
    }

    static method AnyFailure() returns (r: Code)
      ensures IsFailure(r) && r != MDB_MAP_FULL && r != MDB_NOTFOUND
    {
      var c: int := *;
      r := if IsFailure(c) && c != MDB_MAP_FULL && c != MDB_NOTFOUND then c else 5;
    }

    /** The next answer: the script's, or any after its end. */
    method NextAnswer() returns (a: Answer)
      requires Valid()
      modifies this`answers
      ensures Valid() && answers == old(answers) + [a]
    {
      if |answers| < |script| {
        a := script[|answers|];
        assert script[..|answers| + 1] == answers + [a];
      } else {
        var c := AnyFailure();
        var any: int := *;
        a := if any == 0 then Good else if any == 1 then Full else Bad(c);
      }
      answers := answers + [a];
    }

    /** A call that only succeeds or fails: `mdb_env_info`, `mdb_env_create`, `mdb_cursor_open`. */
    method Attempt() returns (r: int)
      requires Valid()
      modifies this`hard, this`answers
      ensures Valid() && |answers| == |old(answers)| + 1 && answers == old(answers) + [answers[|old(answers)|]]
      ensures r == MDB_SUCCESS <==> answers[|old(answers)|] == Good
      ensures r == MDB_SUCCESS ==> hard == old(hard)
      ensures r != MDB_SUCCESS ==> IsFailure(r) && r != MDB_MAP_FULL && r != MDB_NOTFOUND && hard == old(hard) + 1
      ensures answers[|old(answers)|].Bad? ==> r == answers[|old(answers)|].code
    {
      var a := NextAnswer();
      match a
      case Good =>
        r := MDB_SUCCESS;
      case Full =>
        r := AnyFailure();
        hard := hard + 1;
      case Bad(code) =>
        r := code;
        hard := hard + 1;
    }

    /** `mdb_txn_begin` */
    method Begin() returns (r: int)
      requires Valid() && !inTxn
      modifies this`pending, this`inTxn, this`written, this`hard, this`answers
      ensures Valid() && |answers| == |old(answers)| + 1 && answers == old(answers) + [answers[|old(answers)|]]
      ensures r == MDB_SUCCESS <==> answers[|old(answers)|] == Good
      ensures r == MDB_SUCCESS ==> inTxn && pending == committed && written == 0 && hard == old(hard)
      ensures r != MDB_SUCCESS ==> IsFailure(r) && !inTxn && hard > old(hard)
    {
      r := Attempt();
      if r == MDB_SUCCESS {
        pending, inTxn, written := committed, true, 0;
      }
    }

    /** The outcome of a write to the open transaction: accepted, map full, or another failure. */
    method WriteOutcome() returns (r: int)
      requires Valid()
      modifies this`hard, this`full, this`answers
      ensures IsWriteResult(r)
      ensures Valid() && answers == old(answers) + [AnswerOf(r)]
      ensures r == MDB_SUCCESS ==> hard == old(hard)
      ensures r == MDB_MAP_FULL ==> hard == old(hard) + if reopened then 1 else 0
      ensures full == old(full) + if r == MDB_MAP_FULL then 1 else 0
      ensures r != MDB_SUCCESS && r != MDB_MAP_FULL ==> IsFailure(r) && r != MDB_NOTFOUND && hard == old(hard) + 1
    {
      var a := NextAnswer();
      match a
      case Good =>
        r := MDB_SUCCESS;
      case Full =>
        r := MDB_MAP_FULL;
        hard, full := hard + if reopened then 1 else 0, full + 1;
      case Bad(code) =>
        r := code;
        hard := hard + 1;
    }

    /** `mdb_put`; on a transaction that is not open it fails. */
    method PutRow(row: Row) returns (r: int)
      requires Valid()
      modifies this`pending, this`written, this`reopened, this`hard, this`full, this`answers
      ensures Valid()
      ensures full == old(full) + if r == MDB_MAP_FULL then 1 else 0
      ensures IsWriteResult(r)
      ensures inTxn ==> answers == old(answers) + [AnswerOf(r)]
      ensures !inTxn ==> answers == old(answers)
      ensures r == MDB_SUCCESS ==> inTxn && pending == Put(old(pending), row)
                                   && written == old(written) + 1 && !reopened && hard == old(hard)
      ensures r != MDB_SUCCESS ==> pending == old(pending) && written == old(written) && reopened == old(reopened)
      ensures r == MDB_MAP_FULL ==> inTxn && hard == old(hard) + if old(reopened) then 1 else 0
      ensures r != MDB_SUCCESS && r != MDB_MAP_FULL ==> hard == old(hard) + 1
    {
      if !inTxn {
        r := AnyFailure();
        hard := hard + 1;
        return;
      }
      r := WriteOutcome();
      if r == MDB_SUCCESS {
        PutAscends(pending, row);
        pending, written, reopened := Put(pending, row), written + 1, false;
      }
    }

    /** `mdb_del` of a whole key. */
    method DelKey(key: seq<Byte>) returns (r: int)
      requires Valid()
      modifies this`pending, this`written, this`reopened, this`hard, this`full, this`answers
      ensures Valid()
      ensures full == old(full) + if r == MDB_MAP_FULL then 1 else 0
      ensures r == MDB_SUCCESS ==> inTxn && (exists row :: row in old(pending) && row.key == key)
                                   && pending == Keep(old(pending), OtherThan(key))
                                   && written == old(written) + 1 && !reopened && hard == old(hard)
      ensures r != MDB_SUCCESS ==> pending == old(pending) && written == old(written) && reopened == old(reopened)
      ensures r == MDB_NOTFOUND ==> inTxn && hard == old(hard) && forall row :: row in pending ==> row.key != key
      ensures r == MDB_MAP_FULL ==> inTxn && hard == old(hard) + if old(reopened) then 1 else 0
      ensures r != MDB_SUCCESS && r != MDB_MAP_FULL && r != MDB_NOTFOUND ==> hard == old(hard) + 1
    {
      if !inTxn {
        r := AnyFailure();
        hard := hard + 1;
        return;
      }
      var rest := Keep(pending, OtherThan(key));
      KeepAscends(pending, OtherThan(key));
      if rest == pending {
        assert forall row :: row in rest ==> row.key != key;
        r := MDB_NOTFOUND;
        return;
      }
      if forall row :: row in pending ==> row.key != key {
        KeepAll(pending, OtherThan(key));
      }
      r := WriteOutcome();
      if r == MDB_SUCCESS {
        pending, written, reopened := rest, written + 1, false;
      }
    }

    /** `mdb_txn_commit`: publishes the transaction, or discards it. */
    method Commit() returns (r: int)
      requires Valid()
      modifies this`committed, this`inTxn, this`written, this`dropped, this`hard, this`full, this`commitFull, this`answers
      ensures Valid() && !inTxn
      ensures IsWriteResult(r)
      ensures old(inTxn) ==> answers == old(answers) + [AnswerOf(r)]
      ensures !old(inTxn) ==> answers == old(answers)
      ensures full == old(full) + if r == MDB_MAP_FULL then 1 else 0
      ensures r == MDB_SUCCESS ==> old(inTxn) && committed == old(pending)
                                   && dropped == old(dropped) && hard == old(hard) && commitFull == old(commitFull)
      ensures r != MDB_SUCCESS ==> committed == old(committed) && IsFailure(r)
                                   && dropped == old(dropped) + if old(inTxn) then old(written) else 0
      ensures r == MDB_MAP_FULL ==> commitFull == old(commitFull) + 1 && hard == old(hard) + if reopened then 1 else 0
      ensures r != MDB_SUCCESS && r != MDB_MAP_FULL ==> hard == old(hard) + 1 && commitFull == old(commitFull)
    {
      if !inTxn {
        r := AnyFailure();
        hard := hard + 1;
        return;
      }
      r := WriteOutcome();
      if r == MDB_SUCCESS {
        committed, inTxn := pending, false;
      } else {
        commitFull := commitFull + if r == MDB_MAP_FULL then 1 else 0;
        inTxn, dropped := false, dropped + written;
      }
      written := 0;
    }

    /** `mdb_txn_abort` */
    method Abort()
      requires Valid()
      modifies this`inTxn, this`written, this`dropped
      ensures Valid() && !inTxn && dropped == old(dropped) + if old(inTxn) then old(written) else 0
    {
      if inTxn {
        inTxn, dropped, written := false, dropped + written, 0;
      }
    }

    /** `mdb_env_set_mapsize` to twice the size. */
    method DoubleMapSize()
      modifies this`reopened
      ensures reopened
    {
      reopened := true;
    }

    /** `mdb_cursor_get` with MDB_SET_RANGE: the least key not before k. */
    method SetRange(k: seq<Byte>) returns (r: int, row: Row)
      requires Valid() && inTxn
      modifies this`cursorKey
      ensures r == MDB_SUCCESS <==> SeekPos(pending, k) < |pending|
      ensures r == MDB_SUCCESS ==> row == pending[SeekPos(pending, k)] && cursorKey == row.key
      ensures r != MDB_SUCCESS ==> r == MDB_NOTFOUND
    {
      var i := SeekPos(pending, k);
      if i < |pending| {
        r, row, cursorKey := MDB_SUCCESS, pending[i], pending[i].key;
      } else {
        r, row := MDB_NOTFOUND, Row([], []);
      }
    }

    /** `mdb_cursor_get` with MDB_NEXT: the least key after the one last returned, deleted since or not. */
    method Next() returns (r: int, row: Row)
      requires Valid() && inTxn
      modifies this`cursorKey
      ensures r == MDB_SUCCESS <==> AfterPos(pending, old(cursorKey)) < |pending|
      ensures r == MDB_SUCCESS ==> row == pending[AfterPos(pending, old(cursorKey))] && cursorKey == row.key
    {
      var i := AfterPos(pending, cursorKey);
      if i < |pending| {
        r, row, cursorKey := MDB_SUCCESS, pending[i], pending[i].key;
      } else {
        r, row := MDB_NOTFOUND, Row([], []);
      }
    }

    /** `mdb_cursor_del`: deletes the row the cursor last returned, or fails; the cursor keeps its place. */
    method CursorDel() returns (r: int)
      requires Valid() && inTxn
      modifies this`pending, this`written, this`hard, this`missed, this`answers
      ensures Valid() && |answers| == |old(answers)| + 1 && answers == old(answers) + [answers[|old(answers)|]]
      ensures r == MDB_SUCCESS <==> answers[|old(answers)|] == Good
      ensures r == MDB_SUCCESS ==> pending == Keep(old(pending), OtherThan(cursorKey))
                                   && hard == old(hard) && missed == old(missed)
      ensures r != MDB_SUCCESS ==> pending == old(pending) && hard == old(hard) + 1 && missed == old(missed) + 1
    {
      r := Attempt();
      if r == MDB_SUCCESS {
        KeepAscends(pending, OtherThan(cursorKey));
        pending, written := Keep(pending, OtherThan(cursorKey)), written + 1;
      } else {
        missed := missed + 1;
      }
    }
  }
}
