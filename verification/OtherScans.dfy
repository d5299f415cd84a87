/** The scans of the 'P' and 'T' families, and what a deletion does to every scan. */
module OtherScans {
  import opened Bytes
  import opened Keys
  import opened Rows
  import opened Seqs
  import opened LogStore

  // ---- Last probes -------------------------------------------------------------------

  /** `readLastProbe` goes on after a row with a short key or value, and tests the MAC of the others. */
  predicate GoesOn(r: Row, p: Prefix) {
    |r.key| < PROBE_KEY_SIZE || |r.val| < PROBE_VAL_SIZE || HasPrefix(r.key, p)
  }

  /** How many rows from position i on the scan passes. */
  function StretchLen(rows: seq<Row>, i: nat, p: Prefix): (n: nat)
    requires i <= |rows|
    ensures i + n <= |rows|
    ensures forall j :: i <= j < i + n ==> GoesOn(rows[j], p)
    ensures i + n < |rows| ==> !GoesOn(rows[i + n], p)
    decreases |rows| - i
  {
    if i == |rows| || !GoesOn(rows[i], p) then 0 else 1 + StretchLen(rows, i + 1, p)
  }

  /** `readLastProbe` tests the value's size and time, but not the tag. */
  predicate ProbeLike(q: Query, r: Row) {
    |r.key| >= PROBE_KEY_SIZE && |r.val| >= PROBE_VAL_SIZE && q.lo <= DecodeProbeVal(r.val) <= q.hi
  }

  function ProbeLikeBy(q: Query): Row -> bool { r => ProbeLike(q, r) }

  function ProbeStart(rows: seq<Row>, p: Prefix): nat {
    SeekPos(rows, BlockKey(TAG_PROBE, p))
  }

  /** The rows `readLastProbe` reports. */
  function ProbeRows(rows: seq<Row>, p: Prefix, start: Time, finish: Time): seq<Row> {
    var i := ProbeStart(rows, p);
    Keep(rows[i..i + StretchLen(rows, i, p)], ProbeLikeBy(QueryOf(p, start, finish)))
  }

  /** The last probes a filter selects. */
  function ProbesOf(rows: seq<Row>, q: Query): seq<Row> {
    Keep(rows, WantedProbeBy(q))
  }

  /**
    A notification that `readLastProbe` takes for a last probe: its MAC has the prefix, its text
    is at least eight bytes long with a first word in the time range, and neither a last probe after
    the prefix's own nor an earlier notification of eight bytes or more stops the scan before it.
   */
  ghost predicate Leaks(rows: seq<Row>, q: Query, n: Row) {
    && n in rows && IsNoteOf(q.prefix, n) && ProbeLike(q, n)
    && (forall r :: r in rows && IsProbeKey(r.key) && !Before(r.key, BlockKey(TAG_PROBE, q.prefix))
                    ==> HasPrefix(r.key, q.prefix))
    && (forall r :: r in rows && IsNoteKey(r.key) && !Before(n.key, r.key) && |r.val| >= PROBE_VAL_SIZE
                    ==> HasPrefix(r.key, q.prefix))
  }

  lemma AtOrAfterProbeSeek(r: Row, p: Prefix)
    requires WellFormedRow(r)
    ensures IsProbeKey(r.key) && HasPrefix(r.key, p) ==> !Before(r.key, BlockKey(TAG_PROBE, p))
    ensures IsNoteKey(r.key) ==> Before(BlockKey(TAG_PROBE, p), r.key)
    ensures IsLogKey(r.key) ==> Before(r.key, BlockKey(TAG_PROBE, p))
  {
    InBlockParts(r.key, TAG_PROBE, p);
    NotBeforePrefix(r.key, 1 + |p|);
  }

  lemma InProbeBlock(a: Row, b: Row, p: Prefix)
    requires WellFormedRow(a) && WellFormedRow(b)
    requires IsProbeKey(b.key) && HasPrefix(b.key, p)
    requires !Before(a.key, BlockKey(TAG_PROBE, p)) && (a == b || Before(a.key, b.key))
    ensures HasPrefix(a.key, p)
  {
    var seek := BlockKey(TAG_PROBE, p);
    InBlockParts(a.key, TAG_PROBE, p);
    InBlockParts(b.key, TAG_PROBE, p);
    assert seek[..1 + |p|] == seek;
    if !InBlock(a.key, TAG_PROBE, p) && a != b {
      PastBlock(TAG_PROBE, p, seek, a.key, b.key);
    }
  }

  /** The scan's stretch runs from the seek key to the first row that stops it. */
  ghost predicate InStretch(rows: seq<Row>, p: Prefix, j: nat)
    requires j < |rows|
  {
    var i := ProbeStart(rows, p);
    i <= j < i + StretchLen(rows, i, p)
  }

  /** A row lies in a slice exactly when its position does. */
  lemma RowInSlice(rows: seq<Row>, i: nat, e: nat, j: nat)
    requires Ascending(rows) && i <= e <= |rows| && j < |rows|
    ensures rows[j] in rows[i..e] <==> i <= j < e
  {
    BeforeIrreflexive(rows[j].key);
    if i <= j < e {
      assert rows[i..e][j - i] == rows[j];
    }
  }

  lemma ProbeInStretch(rows: seq<Row>, q: Query, j: nat)
    requires WellFormed(rows) && j < |rows| && WantedProbe(q, rows[j])
    ensures InStretch(rows, q.prefix, j) && ProbeLike(q, rows[j])
  {
    var p := q.prefix;
    var i := ProbeStart(rows, p);
    var e := i + StretchLen(rows, i, p);
    SeekPosSplits(rows, BlockKey(TAG_PROBE, p));
    AtOrAfterProbeSeek(rows[j], p);
    if j >= e {
      assert rows[e] in rows && rows[j] in rows;
      InProbeBlock(rows[e], rows[j], p);
    }
  }

  lemma LeakInStretch(rows: seq<Row>, q: Query, j: nat)
    requires WellFormed(rows) && j < |rows| && Leaks(rows, q, rows[j])
    ensures InStretch(rows, q.prefix, j) && ProbeLike(q, rows[j])
  {
    var i := ProbeStart(rows, q.prefix);
    var e := i + StretchLen(rows, i, q.prefix);
    SeekPosSplits(rows, BlockKey(TAG_PROBE, q.prefix));
    AtOrAfterProbeSeek(rows[j], q.prefix);
    BeforeAsymmetric(BlockKey(TAG_PROBE, q.prefix), rows[j].key);
    if j >= e {
      var s := rows[e];
      assert s in rows;
      AtOrAfterProbeSeek(s, q.prefix);
      BeforeIrreflexive(s.key);
      if j > e { BeforeAsymmetric(s.key, rows[j].key); }
    }
  }

  lemma NoteInStretchLeaks(rows: seq<Row>, q: Query, j: nat)
    requires WellFormed(rows) && j < |rows| && InStretch(rows, q.prefix, j)
    requires IsNoteKey(rows[j].key) && ProbeLike(q, rows[j])
    ensures Leaks(rows, q, rows[j])
  {
    var p, n := q.prefix, rows[j];
    var seek := BlockKey(TAG_PROBE, p);
    SeekPosSplits(rows, seek);
    forall m | 0 <= m < |rows| && !Before(n.key, rows[m].key) && !Before(rows[m].key, seek)
      ensures GoesOn(rows[m], p)
    {
    }
    forall r | r in rows && IsProbeKey(r.key) ensures !Before(n.key, r.key) {
      TagOrder(n.key, r.key);
    }
    forall r | r in rows && IsNoteKey(r.key) ensures !Before(r.key, seek) {
      TagOrder(r.key, seek);
    }
  }

  lemma InStretchIsProbeOrLeak(rows: seq<Row>, q: Query, j: nat)
    requires WellFormed(rows) && j < |rows| && InStretch(rows, q.prefix, j) && ProbeLike(q, rows[j])
    ensures WantedProbe(q, rows[j]) || Leaks(rows, q, rows[j])
  {
    assert rows[j] in rows && GoesOn(rows[j], q.prefix);
    SeekPosSplits(rows, BlockKey(TAG_PROBE, q.prefix));
    AtOrAfterProbeSeek(rows[j], q.prefix);
    if IsNoteKey(rows[j].key) {
      NoteInStretchLeaks(rows, q, j);
    }
  }

  /** Which rows the scan reports: the wanted last probes and the leaking notifications. */
  lemma {:induction false} ProbeRowsMembers(rows: seq<Row>, p: Prefix, start: Time, finish: Time, j: nat)
    requires WellFormed(rows) && j < |rows|
    ensures rows[j] in ProbeRows(rows, p, start, finish)
            <==> WantedProbe(QueryOf(p, start, finish), rows[j]) || Leaks(rows, QueryOf(p, start, finish), rows[j])
  {
    hide WantedProbe, Leaks, ProbeLike, StretchLen, WellFormedRow;
    var q := QueryOf(p, start, finish);
    RowInSlice(rows, ProbeStart(rows, p), ProbeStart(rows, p) + StretchLen(rows, ProbeStart(rows, p), p), j);
    assert rows[j] in ProbeRows(rows, p, start, finish) <==> InStretch(rows, p, j) && ProbeLike(q, rows[j]);
    if WantedProbe(q, rows[j]) {
      ProbeInStretch(rows, q, j);
    }
    if Leaks(rows, q, rows[j]) {
      LeakInStretch(rows, q, j);
    }
    if InStretch(rows, p, j) && ProbeLike(q, rows[j]) {
      InStretchIsProbeOrLeak(rows, q, j);
    }
  }

  lemma ProbeRowsAscend(rows: seq<Row>, p: Prefix, start: Time, finish: Time)
    requires WellFormed(rows)
    ensures Ascending(ProbeRows(rows, p, start, finish)) && Ascending(ProbesOf(rows, QueryOf(p, start, finish)))
    ensures forall r :: r in ProbeRows(rows, p, start, finish) ==> r in rows
  {
    var q, i := QueryOf(p, start, finish), ProbeStart(rows, p);
    KeepAscends(rows[i..i + StretchLen(rows, i, p)], ProbeLikeBy(q));
    KeepAscends(rows, WantedProbeBy(q));
  }

  lemma ProbeRowsMember(rows: seq<Row>, p: Prefix, start: Time, finish: Time, r: Row)
    requires WellFormed(rows)
    ensures r in ProbeRows(rows, p, start, finish)
            <==> r in ProbesOf(rows, QueryOf(p, start, finish)) || Leaks(rows, QueryOf(p, start, finish), r)
  {
    hide ProbeRows, StretchLen, ProbeStart, Ascending, WellFormedRow, WantedProbe, ProbeLike;
    ProbeRowsAscend(rows, p, start, finish);
    if r in rows {
      var j :| 0 <= j < |rows| && rows[j] == r;
      ProbeRowsMembers(rows, p, start, finish, j);
    }
  }

  /**
    `readLastProbe` reports exactly the last probes with the prefix and a time in range exactly
    when no notification leaks into the scan; in particular when the store has no notifications.
   */
  lemma {:induction false} ProbeScanIsExact(rows: seq<Row>, p: Prefix, start: Time, finish: Time)
    requires WellFormed(rows)
    ensures ProbeRows(rows, p, start, finish) == ProbesOf(rows, QueryOf(p, start, finish))
            <==> forall n :: !Leaks(rows, QueryOf(p, start, finish), n)
    ensures (forall r :: r in rows ==> !IsNoteKey(r.key))
            ==> ProbeRows(rows, p, start, finish) == ProbesOf(rows, QueryOf(p, start, finish))
  {
    hide ProbeRows, StretchLen, ProbeStart, Ascending, WellFormedRow, Keep;
    var q := QueryOf(p, start, finish);
    var got, want := ProbeRows(rows, p, start, finish), ProbesOf(rows, q);
    forall r ensures r in got <==> r in want || Leaks(rows, q, r) {
      ProbeRowsMember(rows, p, start, finish, r);
    }
    if forall n :: !Leaks(rows, q, n) {
      ProbeRowsAscend(rows, p, start, finish);
      SameRows(got, want);
    } else {
      var n :| Leaks(rows, q, n);
      assert n in got && n !in want;
    }
  }

  /** Without a MAC filter every long enough notification in the time range is reported as a probe. */
  lemma {:induction false} AllNotesLeak(rows: seq<Row>, q: Query, n: Row)
    requires WellFormed(rows) && q.prefix == []
    ensures Leaks(rows, q, n) <==> n in rows && IsNoteKey(n.key) && ProbeLike(q, n)
  {
  }

  const EXAMPLE_NOTE := Row(NoteKey([1, 2, 3, 4, 5, 6], [0, 0, 0, 0, 0, 0, 0, 0, 0]), [123, 34, 97, 34, 58, 34, 98, 34, 125])

  /** The store with the one notification {"a":"b"} and no probe at all has one "last probe". */
  lemma {:induction false} NoteTakenForProbe()
    ensures WellFormed([EXAMPLE_NOTE])
    ensures ProbeRows([EXAMPLE_NOTE], [], 0, 0) == [EXAMPLE_NOTE] != ProbesOf([EXAMPLE_NOTE], QueryOf([], 0, 0))
  {
    var rows := [EXAMPLE_NOTE];
    assert rows[0] == EXAMPLE_NOTE && IsNoteKey(rows[0].key);
    AllNotesLeak(rows, QueryOf([], 0, 0), EXAMPLE_NOTE);
    ProbeRowsMembers(rows, [], 0, 0, 0);
    ProbeScanIsExact(rows, [], 0, 0);
    var got := ProbeRows(rows, [], 0, 0);
    assert |got| <= 1;
  }

  // ---- Notifications -----------------------------------------------------------------

  /** `lsNotification` seeks the tag and five zero bytes. */
  const NOTE_SEEK_KEY: seq<Byte> := [TAG_NOTE, 0, 0, 0, 0, 0]

  lemma AtOrAfterNoteSeek(r: Row)
    requires WellFormedRow(r)
    ensures Before(r.key, NOTE_SEEK_KEY) <==> !IsNoteKey(r.key)
  {
    if IsNoteKey(r.key) {
      var zeros: seq<Byte> := [0, 0, 0, 0, 0];
      var k := r.key;
      assert k == k[..1] + k[1..6] + k[6..];
      NotBeforeZeros(k[1..6], zeros);
      BeforeByHead(k[..1] + k[1..6], k[6..], [TAG_NOTE] + zeros, []);
      BeforeByHead(k[..1], k[1..6], [TAG_NOTE], zeros);
      BeforeIrreflexive([TAG_NOTE]);
      assert NOTE_SEEK_KEY == [TAG_NOTE] + zeros + [];
    }
  }

  /** The notifications are the tail of the store, from the seek key of `lsNotification` on. */
  lemma {:induction false} NotesAreTheTail(rows: seq<Row>)
    requires WellFormed(rows)
    ensures rows[SeekPos(rows, NOTE_SEEK_KEY)..] == Keep(rows, NotesOf([]))
  {
    var i := SeekPos(rows, NOTE_SEEK_KEY);
    SeekPosSplits(rows, NOTE_SEEK_KEY);
    forall j | 0 <= j < |rows| ensures j >= i <==> IsNoteOf([], rows[j]) {
      AtOrAfterNoteSeek(rows[j]);
    }
    assert rows == rows[..i] + rows[i..];
    KeepAppend(rows[..i], rows[i..], NotesOf([]));
    KeepNone(rows[..i], NotesOf([]));
    KeepAll(rows[i..], NotesOf([]));
  }

  /** A row after the block's seek key that is not a notification of the prefix ends the block. */
  lemma {:induction false} StopAtNote(rows: seq<Row>, i: nat, p: Prefix)
    requires WellFormed(rows) && i < |rows|
    requires !Before(rows[i].key, BlockKey(TAG_NOTE, p)) && !IsNoteOf(p, rows[i])
    ensures forall j :: i <= j < |rows| ==> !IsNoteOf(p, rows[j])
  {
    var seek := BlockKey(TAG_NOTE, p);
    assert rows[i] in rows;
    InBlockParts(rows[i].key, TAG_NOTE, p);
    assert seek[..1 + |p|] == seek;
    forall j | i < j < |rows| ensures !IsNoteOf(p, rows[j]) {
      assert rows[j] in rows;
      InBlockParts(rows[j].key, TAG_NOTE, p);
      PastBlock(TAG_NOTE, p, seek, rows[i].key, rows[j].key);
    }
  }

  // ---- What a deletion does to the scans ---------------------------------------------

  lemma RmKeepsWellFormed(rows: seq<Row>, f: Row -> bool)
    requires WellFormed(rows)
    ensures WellFormed(Keep(rows, f))
  {
    KeepAscends(rows, f);
  }

  lemma KeepCommutes(rows: seq<Row>, f: Row -> bool, g: Row -> bool)
    ensures Keep(Keep(rows, f), g) == Keep(Keep(rows, g), f)
  {
    KeepTwice(rows, f, g);
    KeepTwice(rows, g, f);
    KeepSame(rows, Both(f, g), Both(g, f));
  }

  /**
    `rmLog` deletes as many records as `readLog` reports for the same filter, `readLog` then
    reports none, and for any other filter it reports what it reported before, in the same
    order, without the deleted records.  Last probes and notifications stay.
   */
  lemma {:induction false} DeleteThenRead(rows: seq<Row>, p: Prefix, start: Time, finish: Time, p': Prefix, start': Time, finish': Time)
    requires WellFormed(rows) && start <= Finish(finish)
    ensures |RmRows(rows, p, start, finish)| == |ReadRows(rows, p, start, finish)|
    ensures ReadRows(RmLeaves(rows, p, start, finish), p, start, finish) == []
    ensures ReadRows(RmLeaves(rows, p, start, finish), p', start', finish')
            == Keep(ReadRows(rows, p', start', finish'), Not(WantedBy(QueryOf(p, start, finish))))
    ensures ProbesOf(RmLeaves(rows, p, start, finish), QueryOf(p', start', finish'))
            == ProbesOf(rows, QueryOf(p', start', finish'))
    ensures Keep(RmLeaves(rows, p, start, finish), NotesOf(p')) == Keep(rows, NotesOf(p'))
  {
    var q, q' := QueryOf(p, start, finish), QueryOf(p', start', finish');
    var gone := Not(WantedBy(q));
    var left := RmLeaves(rows, p, start, finish);
    RmIsExact(rows, p, start, finish);
    ReadIsExact(rows, p, start, finish);
    RmKeepsWellFormed(rows, gone);
    ReadIsExact(left, p, start, finish);
    KeepNone(left, WantedBy(q));
    KeepCommutes(rows, gone, ReachedBy(q', ReadSeekKey(p', start')));
    KeepCommutes(rows, gone, WantedProbeBy(q'));
    KeepAll(ProbesOf(rows, q'), gone);
    KeepCommutes(rows, gone, NotesOf(p'));
    KeepAll(Keep(rows, NotesOf(p')), gone);
  }

  // ---- Reversed ends -------------------------------------------------------------------

  /**
    With two non-zero ends `readLastProbe` never depends on their order, nor does `readLog`
    with a partial MAC; with a full MAC `readLog` does, exactly when a record of that MAC has
    a time at or after the earlier end and before the later one.
   */
  lemma {:induction false} RangeSymmetry(rows: seq<Row>, p: Prefix, lo: Time, hi: Time)
    requires WellFormed(rows) && 0 < lo < hi
    ensures ProbeRows(rows, p, lo, hi) == ProbeRows(rows, p, hi, lo)
    ensures |p| < 6 ==> ReadRows(rows, p, lo, hi) == ReadRows(rows, p, hi, lo)
    ensures |p| == 6 ==> (ReadRows(rows, p, lo, hi) == ReadRows(rows, p, hi, lo)
                          <==> forall r :: r in rows && Wanted(Query(p, lo, hi), r) ==> KeyTime(r.key) == hi)
  {
    ReadIsExact(rows, p, lo, hi);
    ReadIsExact(rows, p, hi, lo);
    assert QueryOf(p, lo, hi) == QueryOf(p, hi, lo) == Query(p, lo, hi);
    if |p| == 6 {
      assert forall r :: Wanted(Query(p, lo, hi), r) ==> (KeyTime(r.key) < hi <==> ReadMisses(p, hi, lo, r));
    }
  }
}
