/** Storing, removing and listing notifications (dblog.cpp). */
module DbNotes {
  import opened Bytes
  import opened Keys
  import opened Rows
  import opened Seqs
  import opened Cursors
  import opened Lmdb
  import opened Courses
  import opened LogStore
  import opened OtherScans
  import opened DbLog

  /** The store after a notification text is set, or cleared by an empty text. */
  function NoteStored(rows: seq<Row>, key: seq<Byte>, value: seq<Byte>): seq<Row>
    requires Ascending(rows)
  {
    if value != [] then Put(rows, Row(key, value)) else Keep(rows, OtherThan(key))
  }

  lemma NoteStoredWellFormed(rows: seq<Row>, sa: Mac, tail: seq<Byte>, value: seq<Byte>)
    requires WellFormed(rows) && |tail| == 9
    ensures WellFormed(NoteStored(rows, NoteKey(sa, tail), value))
  {
    var key := NoteKey(sa, tail);
    if value != [] {
      PutAscends(rows, Row(key, value));
      assert WellFormedRow(Row(key, value));
    } else {
      RmKeepsWellFormed(rows, OtherThan(key));
    }
  }

  /** One attempt to write or delete a notification in the open transaction. */
  method WriteNote(env: DbEnv, key: seq<Byte>, value: seq<Byte>) returns (r: int)
    requires env.Valid()
    modifies env`pending, env`written, env`reopened, env`hard, env`full, env`answers
    ensures env.Valid()
    ensures r == 0 ==> env.inTxn && env.pending == NoteStored(old(env.pending), key, value) && env.hard == old(env.hard)
    ensures r == 0 && value == [] ==> exists row :: row in old(env.pending) && row.key == key
    ensures r == MDB_NOTFOUND && value == [] ==>
              env.inTxn && env.hard == old(env.hard) && forall row :: row in env.pending ==> row.key != key
    ensures r == MDB_MAP_FULL ==> env.inTxn && env.hard == old(env.hard) + if old(env.reopened) then 1 else 0
    ensures r != 0 && r != MDB_MAP_FULL && !(r == MDB_NOTFOUND && value == []) ==> env.hard > old(env.hard)
    ensures r != 0 ==> env.pending == old(env.pending) && env.reopened == old(env.reopened)
  {
    if value != [] {
      r := env.PutRow(Row(key, value));
    } else {
      r := env.DelKey(key);
    }
  }

  /**
    Sets the notification of a MAC, or clears it with an empty text.  Clearing a key that is not
    stored is an error, as is a commit refused for a full map; every error leaves the store as it was.
   */
  method PutNotification(env: DbEnv, sa: Mac, tail: seq<Byte>, value: seq<Byte>) returns (r: int)
    requires env.Valid() && !env.inTxn && WellFormed(env.committed) && |tail| == 9
    modifies env
    ensures env.Valid() && !env.inTxn && WellFormed(env.committed)
    ensures r in {0, ERRCODE_LMDB_TXN_BEGIN, ERRCODE_LMDB_PUT, ERRCODE_LMDB_TXN_COMMIT}
    ensures r == 0 ==> env.committed == NoteStored(old(env.committed), NoteKey(sa, tail), value)
    ensures r != 0 ==> env.committed == old(env.committed)
    ensures r == 0 <==> env.hard == old(env.hard) && env.commitFull == old(env.commitFull)
                        && (value != [] || exists row :: row in old(env.committed) && row.key == NoteKey(sa, tail))
  {
    hide Put, Keep, WellFormedRow, Ascending;
    env.reopened := false;
    var key := NoteKey(sa, tail);
    NoteStoredWellFormed(env.committed, sa, tail, value);
    r := env.Begin();
    if r != 0 {
      return ERRCODE_LMDB_TXN_BEGIN;
    }
    r := WriteNote(env, key, value);
    if r == MDB_MAP_FULL {
      r := ProcessMapFull(env);
      if r == 0 {
        r := WriteNote(env, key, value);
      }
    }
    if r != 0 {
      env.Abort();
      return ERRCODE_LMDB_PUT;
    }
    r := env.Commit();
    if r != 0 {
      return ERRCODE_LMDB_TXN_COMMIT;
    }
  }

  lemma NoteKeyOf(sa: Mac, t: seq<Byte>, u: seq<Byte>, v: seq<Byte>)
    requires |t| == |u| == 9
    ensures IsNoteOf(sa, Row(NoteKey(sa, t), v))
    ensures NoteKey(sa, t) == NoteKey(sa, u) <==> t == u
  {
    assert NoteKey(sa, t)[7..] == t && NoteKey(sa, u)[7..] == u;
    assert NoteKey(sa, t)[1..1 + |sa|] == sa;
  }

  lemma NoteSetRows(rows: seq<Row>, key: seq<Byte>, value: seq<Byte>)
    requires Ascending(rows) && value != []
    ensures Ascending(NoteStored(rows, key, value))
    ensures forall r :: r in NoteStored(rows, key, value) <==> r == Row(key, value) || (r in rows && r.key != key)
  {
    PutAscends(rows, Row(key, value));
  }

  /** The only notification of a MAC in the store is under this key. */
  ghost predicate OnlyNoteAt(rows: seq<Row>, sa: Mac, key: seq<Byte>) {
    forall r :: r in rows && IsNoteOf(sa, r) ==> r.key == key
  }

  /**
    The last nine bytes of the key are whatever is in memory.  A notification that is set and then
    cleared is gone, with all of its MAC, exactly when those bytes are the same both times, and no other
    was there before.
   */
  lemma {:induction false} SetThenClear(rows: seq<Row>, sa: Mac, t: seq<Byte>, u: seq<Byte>, value: seq<Byte>)
    requires Ascending(rows) && |t| == |u| == 9 && value != []
    ensures Ascending(NoteStored(rows, NoteKey(sa, t), value))
    ensures (forall r :: r in NoteStored(NoteStored(rows, NoteKey(sa, t), value), NoteKey(sa, u), []) ==> !IsNoteOf(sa, r))
            <==> t == u && OnlyNoteAt(rows, sa, NoteKey(sa, t))
  {
    hide Put, NoteKey, IsNoteOf, Ascending;
    var x := Row(NoteKey(sa, t), value);
    NoteKeyOf(sa, t, u, value);
    NoteSetRows(rows, x.key, value);
    var set1 := NoteStored(rows, x.key, value);
    var left := NoteStored(set1, NoteKey(sa, u), []);
    assert forall r :: r in left <==> r in set1 && r.key != NoteKey(sa, u);
    if t != u {
      assert x in left;
    }
    if r :| r in rows && IsNoteOf(sa, r) && r.key != x.key && t == u {
      assert r in left;
    }
  }

  /** A notification that is set twice is stored once exactly under the same condition. */
  lemma {:induction false} SetTwice(rows: seq<Row>, sa: Mac, t: seq<Byte>, u: seq<Byte>, value: seq<Byte>, value': seq<Byte>)
    requires Ascending(rows) && |t| == |u| == 9 && value != [] && value' != []
    ensures Ascending(NoteStored(rows, NoteKey(sa, t), value))
    ensures var twice := NoteStored(NoteStored(rows, NoteKey(sa, t), value), NoteKey(sa, u), value');
            (forall r :: r in twice && IsNoteOf(sa, r) ==> r == Row(NoteKey(sa, u), value'))
            <==> t == u && OnlyNoteAt(rows, sa, NoteKey(sa, t))
  {
    hide NoteStored, NoteKey, IsNoteOf, Ascending;
    var x, y := Row(NoteKey(sa, t), value), Row(NoteKey(sa, u), value');
    NoteKeyOf(sa, t, u, value);
    NoteSetRows(rows, x.key, value);
    var once := NoteStored(rows, x.key, value);
    NoteSetRows(once, y.key, value');
    var twice := NoteStored(once, y.key, value');
    if t != u {
      assert x in twice;
    }
    if r :| r in rows && IsNoteOf(sa, r) && r.key != x.key && t == u {
      assert r in twice;
    }
  }

  /** The loop of `rmNotification`. */
  method RmNoteScan(env: DbEnv, p: Prefix, first: Row, ghost rows: seq<Row>)
    returns (cnt: nat, ghost spared: set<seq<Byte>>)
    requires env.Valid() && env.inTxn && env.pending == rows && WellFormed(rows)
    requires SeekPos(rows, BlockKey(TAG_NOTE, p)) < |rows|
    requires first == rows[SeekPos(rows, BlockKey(TAG_NOTE, p))] && env.cursorKey == first.key
    modifies env`pending, env`written, env`cursorKey, env`hard, env`missed, env`answers
    ensures env.Valid() && Removed(rows, NotesOf(p), spared, env.pending, cnt)
    ensures |spared| == env.missed - old(env.missed) == env.hard - old(env.hard)
    ensures Deletions(old(env.answers), env.answers, cnt, |spared|)
  {
    hide Deletions, Swept, SeekPos, AfterPos, Keep, Before, Ascending, Except, Not, OtherThan;
    ghost var i, f := SeekPos(rows, BlockKey(TAG_NOTE, p)), NotesOf(p);
    NotesAfterSeek(rows, p);
    var row, r := first, 0;
    cnt, spared := 0, {};
    SweptStart(rows, i, f);
    NoDeletions(env.answers);
    while true
      invariant i < |rows| && row == rows[i] && env.cursorKey == row.key && !Before(row.key, BlockKey(TAG_NOTE, p))
      invariant env.Valid() && Swept(rows, i, f, spared, env.pending, cnt) && SeekPos(rows, BlockKey(TAG_NOTE, p)) <= i
      invariant |spared| == env.missed - old(env.missed) == env.hard - old(env.hard)
      invariant Deletions(old(env.answers), env.answers, cnt, |spared|)
      decreases |rows| - i
    {
      assert row in rows;
      if |row.key| < 6 || row.key[0] != TAG_NOTE || row.key[1..1 + |p|] != p {
        StopAtNote(rows, i, p);
        break;
      }
      ghost var b, failed := env.answers, |spared|;
      spared := DeleteCounted(env, rows, i, f, spared, cnt);
      OneDeletion(old(env.answers), b, env.answers, cnt, failed);
      cnt := cnt + 1;
      SweptNext(rows, i, f, spared, env.pending, cnt);
      i := i + 1;
      r, row := env.Next();
      if r != 0 {
        break;
      }
    }
    SweptEnd(rows, i, f, spared, env.pending, cnt);
  }

  lemma NotesAfterSeek(rows: seq<Row>, p: Prefix)
    requires WellFormed(rows)
    ensures forall j :: 0 <= j < SeekPos(rows, BlockKey(TAG_NOTE, p)) ==> !NotesOf(p)(rows[j])
    ensures forall j :: SeekPos(rows, BlockKey(TAG_NOTE, p)) <= j < |rows| ==> !Before(rows[j].key, BlockKey(TAG_NOTE, p))
  {
    hide IsNoteOf, SeekPos, WellFormedRow;
    SeekPosSplits(rows, BlockKey(TAG_NOTE, p));
    forall j | 0 <= j < |rows| && IsNoteOf(p, rows[j]) ensures !Before(rows[j].key, BlockKey(TAG_NOTE, p)) {
      NoteNotBeforeBlock(rows[j], p);
    }
  }

  /** The notifications of a prefix, and the store without them. */
  function NoteRows(rows: seq<Row>, p: Prefix): seq<Row> {
    Keep(rows, NotesOf(p))
  }

  function NoteLeaves(rows: seq<Row>, p: Prefix): seq<Row> {
    Keep(rows, Not(NotesOf(p)))
  }

  /** A removal takes the notifications of the MACs that have the prefix, and no other row. */
  lemma {:induction false} NotesLeft(rows: seq<Row>, p: Prefix, r: Row)
    requires r in rows
    ensures r in NoteLeaves(rows, p)
            <==> !exists sa: Mac, tail: seq<Byte> :: |tail| == 9 && r.key == NoteKey(sa, tail) && p <= sa
  {
    if IsNoteOf(p, r) {
      NoteKeyParts(r.key);
      assert p <= KeySa(r.key);
    }
    if sa: Mac, tail: seq<Byte> :| |tail| == 9 && r.key == NoteKey(sa, tail) && p <= sa {
      assert r.key[1..1 + |p|] == sa[..|p|] == p;
    }
  }

  lemma NoteKeyParts(k: seq<Byte>)
    requires IsNoteKey(k)
    ensures |k[7..]| == 9 && k == NoteKey(KeySa(k), k[7..])
  {
  }

  lemma RmNoteRest(rows: seq<Row>, p: Prefix, spared: set<seq<Byte>>, left: seq<Row>, cnt: nat)
    requires WellFormed(rows) && Removed(rows, NotesOf(p), spared, left, cnt)
    ensures WellFormed(left) && RemovedSome(rows, NotesOf(p), left)
    ensures cnt == |NoteRows(rows, p)| && |rows| - |left| == cnt - |spared| >= 0
    ensures |spared| == 0 ==> left == NoteLeaves(rows, p)
  {
    hide Keep, WellFormed, RemovedSome, Removed;
    RemovedRest(rows, NotesOf(p), spared, left, cnt);
  }

  lemma NoNotes(rows: seq<Row>, p: Prefix)
    requires WellFormed(rows) && SeekPos(rows, BlockKey(TAG_NOTE, p)) == |rows|
    ensures NoteRows(rows, p) == [] && NoteLeaves(rows, p) == rows
  {
    hide SeekPos, Keep;
    NotesAfterSeek(rows, p);
    StartStep(rows, |rows|, NotesOf(p));
    StopStep(rows, |rows|, NotesOf(p));
  }

  lemma NoteNotBeforeBlock(r: Row, p: Prefix)
    requires IsNoteOf(p, r)
    ensures !Before(r.key, BlockKey(TAG_NOTE, p))
  {
    InBlockParts(r.key, TAG_NOTE, p);
    NotBeforePrefix(r.key, 1 + |p|);
  }

  /** The rest of `rmNotification`, with a transaction and a cursor. */
  method SeekAndRemove(env: DbEnv, p: Prefix, ghost a: seq<Answer>, ghost since: seq<Answer>) returns (r: int)
    requires env.Valid() && env.inTxn && env.pending == env.committed && WellFormed(env.committed)
    requires since == env.answers && Opened(a, since, 0)
    modifies env
    ensures env.Valid() && !env.inTxn && WellFormed(env.committed)
    ensures RemovedSome(old(env.committed), NotesOf(p), env.committed)
    ensures env.hard - old(env.hard) >= env.missed - old(env.missed) >= 0 && env.commitFull >= old(env.commitFull)
    ensures r < 0 ==> env.committed == old(env.committed)
    ensures env.hard - old(env.hard) == env.missed - old(env.missed) ==> (r >= 0 <==> env.commitFull == old(env.commitFull))
    ensures r >= 0 ==> 0 <= |old(env.committed)| - |env.committed| <= r
    ensures env.hard - old(env.hard) == env.missed - old(env.missed) && env.commitFull == old(env.commitFull) ==>
              && r == |NoteRows(old(env.committed), p)|
              && |old(env.committed)| - |env.committed| == r - (env.missed - old(env.missed))
    ensures env.hard == old(env.hard) && env.commitFull == old(env.commitFull) ==>
              env.committed == NoteLeaves(old(env.committed), p)
    ensures r >= 0 ==> (r == |old(env.committed)| - |env.committed| <==> env.hard == old(env.hard))
    ensures PassesError(Since(a, env.answers), r) && !CursorRefused(Since(a, env.answers))
    ensures SeekPos(old(env.committed), BlockKey(TAG_NOTE, p)) < |old(env.committed)| ==>
              RemoveCourse(Since(a, env.answers), |NoteRows(old(env.committed), p)|)
              == if env.hard - old(env.hard) == env.missed - old(env.missed) && env.commitFull == old(env.commitFull)
                 then Done(env.missed - old(env.missed), []) else Fails
  {
    hide SeekPos, WellFormed, Ascending, Before, NotesOf, RemovedSome, Removed, BlockKey, NoteRows, NoteLeaves,
      RemoveCourse, Since, Opened, PassesError, CursorRefused, Deletions, IsFailure, IsWriteResult;
    ghost var rows := env.committed;
    RemovedNone(rows, NotesOf(p));
    var row: Row;
    r, row := env.SetRange(BlockKey(TAG_NOTE, p));
    if r != 0 {
      NoNotes(rows, p);
      env.Abort();
      OpenedThen(a, since, [], 0);
      assert since + [] == since;
      if r == MDB_NOTFOUND {
        r := 0;
      }
      return;
    }
    var cnt;
    ghost var spared;
    cnt, spared := RmNoteScan(env, p, row, rows);
    RmNoteRest(rows, p, spared, env.pending, cnt);
    ghost var b := env.answers;
    r := env.Commit();
    RemoveEnds(a, since, b, cnt, |spared|, AnswerOf(r));
    RemoveAnswers(a, since, b, cnt, |spared|, AnswerOf(r), if r != 0 then ERRCODE_LMDB_TXN_COMMIT else cnt);
    if r != 0 {
      r := ERRCODE_LMDB_TXN_COMMIT;
      return;
    }
    r := cnt;
  }

  /**
    Removes the notifications whose MAC has the prefix, whatever the last nine bytes of their
    keys, and no other row.  Returns how many, or the error of a cursor that does not open, so that a
    result that is not negative is the number removed exactly when every call to the library succeeded.
    A negative length, the parser's answer to a blank text, is copied as a huge one: the process ends
    there, with its transaction not committed.
   */
  method RmNotification(env: DbEnv, sa: Mac, saSize: int) returns (r: int, crashed: bool)
    requires env.Valid() && !env.inTxn && WellFormed(env.committed)
    modifies env
    ensures env.Valid() && WellFormed(env.committed) && (env.inTxn <==> crashed)
    ensures RemovedSome(old(env.committed), NotesOf(sa[..ClampSize(saSize)]), env.committed)
    ensures env.hard - old(env.hard) >= env.missed - old(env.missed) >= 0 && env.commitFull >= old(env.commitFull)
    ensures crashed || r < 0 ==> env.committed == old(env.committed)
    ensures crashed ==> env.hard == old(env.hard)
    ensures env.hard == old(env.hard) ==> (crashed <==> saSize < 0)
    ensures env.hard - old(env.hard) == env.missed - old(env.missed) && env.commitFull == old(env.commitFull) && saSize >= 0 ==>
              && r == |NoteRows(old(env.committed), sa[..ClampSize(saSize)])|
              && |old(env.committed)| - |env.committed| == r - (env.missed - old(env.missed))
    ensures env.hard == old(env.hard) && env.commitFull == old(env.commitFull) && saSize >= 0 ==>
              env.committed == NoteLeaves(old(env.committed), sa[..ClampSize(saSize)])
    ensures env.hard == old(env.hard) && !crashed ==> (r >= 0 <==> env.commitFull == old(env.commitFull))
    ensures r >= 0 && !crashed ==> 0 <= |old(env.committed)| - |env.committed| <= r
    ensures r >= 0 && !crashed ==> (r == |old(env.committed)| - |env.committed| <==> env.hard == old(env.hard))
    ensures !crashed ==> PassesError(Since(old(env.answers), env.answers), r)
    ensures !crashed && CursorRefused(Since(old(env.answers), env.answers)) ==>
              env.committed == old(env.committed) && env.missed == old(env.missed)
    ensures saSize >= 0 && SeekPos(old(env.committed), BlockKey(TAG_NOTE, sa[..ClampSize(saSize)])) < |old(env.committed)| ==>
              RemoveCourse(Since(old(env.answers), env.answers), |NoteRows(old(env.committed), sa[..ClampSize(saSize)])|)
              == if env.hard - old(env.hard) == env.missed - old(env.missed) && env.commitFull == old(env.commitFull)
                 then Done(env.missed - old(env.missed), []) else Fails
  {
    hide SeekPos, WellFormed, Ascending, Before, NotesOf, RemovedSome, Removed, BlockKey, NoteRows, NoteLeaves,
      RemoveCourse, Since, Opened, PassesError, CursorRefused, Deletions, IsFailure, IsWriteResult;
    ghost var rows := env.committed;
    RemovedNone(rows, NotesOf(sa[..ClampSize(saSize)]));
    ghost var a := env.answers;
    crashed := false;
    r := env.Begin();
    ghost var begun := env.answers;
    if r != 0 {
      NotBegun(a, begun, ERRCODE_LMDB_TXN_BEGIN);
      RemoveFails(a, begun, ERRCODE_LMDB_TXN_BEGIN, |NoteRows(rows, sa[..ClampSize(saSize)])|);
      return ERRCODE_LMDB_TXN_BEGIN, false;
    }
    var sz := if saSize < 6 then saSize else 6;
    if sz < 0 {
      crashed := true;
      return;
    }
    var p: Prefix := sa[..sz];
    r := env.Attempt();
    ghost var since := env.answers;
    if r != 0 {
      var ignored := env.Commit();
      NotOpened(a, begun, since, [AnswerOf(ignored)], r);
      RemoveFails(a, since + [AnswerOf(ignored)], r, |NoteRows(rows, p)|);
      return;
    }
    CursorOpened(a, begun, since);
    r := SeekAndRemove(env, p, a, since);
  }

  // ---- Listing -------------------------------------------------------------------------

  /** Where the listing goes: a stream of lines, and the flag set when the user interrupts. */
  class NoteSink {
    var lines: seq<(Mac, seq<Byte>)>
    var interruptFlag: bool

    constructor ()
      ensures lines == [] && !interruptFlag
    {
      lines, interruptFlag := [], false;
    }

    /** `onNotification`: prints one line; true stops the scan. */
    method OnNotification(sa: Mac, json: seq<Byte>) returns (stop: bool)
      modifies this`lines
      ensures lines == old(lines) + [(sa, json)] && stop == interruptFlag
    {
      lines := lines + [(sa, json)];
      stop := interruptFlag;
    }
  }

  function NoteLine(r: Row): (Mac, seq<Byte>) {
    (if |r.key| >= 7 then KeySa(r.key) else [0, 0, 0, 0, 0, 0], r.val)
  }

  /** The lines show the MAC and the text of each notification in the store, and nothing else. */
  lemma {:induction false} NotesListed(rows: seq<Row>, sa: Mac, text: seq<Byte>)
    ensures (sa, text) in Map(NoteLine, Keep(rows, NotesOf([])))
            <==> exists tail: seq<Byte> :: |tail| == 9 && Row(NoteKey(sa, tail), text) in rows
  {
    hide NoteKey;
    var kept := Keep(rows, NotesOf([]));
    var lines := Map(NoteLine, kept);
    if (sa, text) in lines {
      var i :| 0 <= i < |kept| && lines[i] == (sa, text);
      assert kept[i] in kept;
      NoteKeyParts(kept[i].key);
      assert Row(NoteKey(sa, kept[i].key[7..]), text) == kept[i];
    }
    if tail: seq<Byte> :| |tail| == 9 && Row(NoteKey(sa, tail), text) in rows {
      var row := Row(NoteKey(sa, tail), text);
      NoteKeyOf(sa, tail, tail, text);
      assert KeySa(row.key) == sa by { NoteKeySa(sa, tail); }
      assert IsNoteOf([], row);
      assert row in kept;
      var i :| 0 <= i < |kept| && kept[i] == row;
      assert lines[i] == (sa, text);
    }
  }

  lemma NoteKeySa(sa: Mac, tail: seq<Byte>)
    requires |tail| == 9
    ensures KeySa(NoteKey(sa, tail)) == sa
  {
  }

  /** The loop of `lsNotification`. */
  method LsNoteScan(env: DbEnv, sink: NoteSink, first: Row)
    requires env.Valid() && env.inTxn && WellFormed(env.pending)
    requires SeekPos(env.pending, NOTE_SEEK_KEY) < |env.pending|
    requires first == env.pending[SeekPos(env.pending, NOTE_SEEK_KEY)] && env.cursorKey == first.key
    modifies env`cursorKey, sink`lines
    ensures var notes := Map(NoteLine, env.pending[SeekPos(env.pending, NOTE_SEEK_KEY)..]);
            && notes != []
            && sink.lines == old(sink.lines) + if sink.interruptFlag then Slice(notes, 0, 1) else notes
  {
    hide SeekPos, AfterPos, Ascending, WellFormedRow, NoteLine;
    ghost var rows := env.pending;
    ghost var i0 := SeekPos(rows, NOTE_SEEK_KEY);
    ghost var notes := Map(NoteLine, rows[i0..]);
    ghost var i := i0;
    var row, r := first, 0;
    while true
      invariant i0 <= i < |rows| && row == rows[i] && env.cursorKey == row.key
      invariant sink.lines == old(sink.lines) + notes[..i - i0]
      invariant sink.interruptFlag ==> i == i0
      decreases |rows| - i
    {
      NoteAt(rows, i);
      if |row.val| > 0 && |row.key| >= 6 {
        assert notes[..i + 1 - i0] == notes[..i - i0] + [NoteLine(row)];
        var stop := sink.OnNotification(KeySa(row.key), row.val);
        if stop {
          break;
        }
      }
      AfterSelf(rows, i);
      i := i + 1;
      r, row := env.Next();
      if r != 0 {
        break;
      }
    }
  }

  /**
    Lists the notifications of the store, in the order of their keys: all of them, or the first
    one only when the user has interrupted.
   */
  method LsNotification(env: DbEnv, sink: NoteSink) returns (r: int)
    requires env.Valid() && !env.inTxn && WellFormed(env.committed)
    modifies env, sink`lines
    ensures env.Valid() && !env.inTxn && env.committed == old(env.committed)
    ensures env.hard == old(env.hard) && env.commitFull == old(env.commitFull) ==>
              var notes := Map(NoteLine, Keep(old(env.committed), NotesOf([])));
              && r == (if notes == [] then MDB_NOTFOUND else 0)
              && sink.lines == old(sink.lines) + if sink.interruptFlag then Slice(notes, 0, 1) else notes
  {
    hide SeekPos, Keep, Ascending, WellFormedRow;
    ghost var rows := env.committed;
    NotesAreTheTail(rows);
    r := OpenCursor(env);
    if r != 0 {
      return;
    }
    var row: Row;
    r, row := env.SetRange(NOTE_SEEK_KEY);
    if r != 0 {
      env.Abort();
      return;
    }
    LsNoteScan(env, sink, row);
    r := env.Commit();
    if r != 0 {
      return ERRCODE_LMDB_TXN_COMMIT;
    }
  }

  lemma NoteAt(rows: seq<Row>, i: nat)
    requires WellFormed(rows) && SeekPos(rows, NOTE_SEEK_KEY) <= i < |rows|
    ensures |rows[i].key| >= 7 && rows[i].val != [] && NoteLine(rows[i]) == (KeySa(rows[i].key), rows[i].val)
  {
    SeekPosSplits(rows, NOTE_SEEK_KEY);
    assert rows[i] in rows;
    AtOrAfterNoteSeek(rows[i]);
  }
}
