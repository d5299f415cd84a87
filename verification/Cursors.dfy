/** Steps of a cursor over ascending rows, with and without deletions on the way. */
module Cursors {
  import opened Bytes
  import opened Rows
  import opened Seqs
  import opened LogStore

  /** The map while a scan stands before row i and has deleted the earlier rows that satisfy f. */
  function Thinned(rows: seq<Row>, i: nat, f: Row -> bool): seq<Row>
    requires i <= |rows|
  {
    Keep(rows[..i], Not(f)) + rows[i..]
  }

  lemma ThinnedAscends(rows: seq<Row>, i: nat, f: Row -> bool)
    requires Ascending(rows) && i <= |rows|
    ensures Ascending(Thinned(rows, i, f))
  {
    KeepAscends(rows[..i], Not(f));
    var a := Keep(rows[..i], Not(f));
    forall x, y | 0 <= x < |a| && i <= y < |rows| ensures Before(a[x].key, rows[y].key) {
      assert a[x] in rows[..i];
    }
  }

  lemma WithoutOne(a: seq<Row>, row: Row, b: seq<Row>)
    requires forall r :: r in a || r in b ==> r.key != row.key
    ensures Keep(a + ([row] + b), OtherThan(row.key)) == a + b
  {
    var f := OtherThan(row.key);
    KeepAll(a, f);
    KeepAll(b, f);
    KeepNone([row], f);
    hide Keep, OtherThan;
    KeepAppend(a, [row] + b, f);
    KeepAppend([row], b, f);
    assert [] + b == b;
  }

  lemma OneKeyEach(rows: seq<Row>, i: nat, r: Row)
    requires Ascending(rows) && i < |rows| && (r in rows[..i] || r in rows[i + 1..])
    ensures r.key != rows[i].key
  {
    BeforeIrreflexive(r.key);
  }

  /** Deleting row i, where it satisfies f, is one step of the scan. */
  lemma {:induction false} DeleteStep(rows: seq<Row>, i: nat, f: Row -> bool)
    requires Ascending(rows) && i < |rows| && f(rows[i])
    ensures Keep(Thinned(rows, i, f), OtherThan(rows[i].key)) == Thinned(rows, i + 1, f)
    ensures |Thinned(rows, i, f)| == |Thinned(rows, i + 1, f)| + 1
  {
    var kept, rest := Keep(rows[..i], Not(f)), rows[i + 1..];
    KeepNext(rows, 0, i, Not(f));
    assert rows[i..] == [rows[i]] + rest && rows[0..i] == rows[..i] && rows[0..i + 1] == rows[..i + 1];
    forall r | r in kept || r in rest ensures r.key != rows[i].key {
      OneKeyEach(rows, i, r);
    }
    hide Keep, OtherThan, Ascending;
    WithoutOne(kept, rows[i], rest);
  }

  lemma {:induction false} SkipStep(rows: seq<Row>, i: nat, f: Row -> bool)
    requires i < |rows| && !f(rows[i])
    ensures Thinned(rows, i, f) == Thinned(rows, i + 1, f)
  {
    hide Keep;
    KeepNext(rows, 0, i, Not(f));
    assert rows[i..] == [rows[i]] + rows[i + 1..] && rows[0..i] == rows[..i] && rows[0..i + 1] == rows[..i + 1];
  }

  /** The rows satisfying f but for those whose deletion failed. */
  function Except(f: Row -> bool, spared: set<seq<Byte>>): Row -> bool {
    r => f(r) && r.key !in spared
  }

  /** A deletion of row i that fails leaves what is left when its key is spared. */
  lemma {:induction false} SpareStep(rows: seq<Row>, i: nat, f: Row -> bool, spared: set<seq<Byte>>)
    requires Ascending(rows) && i < |rows|
    ensures Thinned(rows, i + 1, Except(f, spared + {rows[i].key})) == Thinned(rows, i, Except(f, spared))
    ensures forall j :: i < j < |rows| ==> rows[j].key != rows[i].key
  {
    hide Keep;
    var g, g' := Except(f, spared), Except(f, spared + {rows[i].key});
    forall r | r in rows[..i] || r in rows[i + 1..] ensures r.key != rows[i].key {
      OneKeyEach(rows, i, r);
    }
    KeepSame(rows[..i], Not(g), Not(g'));
    SkipStep(rows, i, g');
    forall j | i < j < |rows| ensures rows[j].key != rows[i].key {
      assert rows[j] in rows[i + 1..];
    }
  }

  /** From row i, kept or deleted, the cursor goes to row i + 1. */
  lemma {:induction false} NextStep(rows: seq<Row>, i: nat, f: Row -> bool)
    requires Ascending(rows) && i < |rows|
    ensures var n := AfterPos(Thinned(rows, i + 1, f), rows[i].key);
            && n + |rows| - i - 1 == |Thinned(rows, i + 1, f)|
            && (i + 1 < |rows| ==> Thinned(rows, i + 1, f)[n] == rows[i + 1])
  {
    var k := rows[i].key;
    var kept, rest := Keep(rows[..i + 1], Not(f)), rows[i + 1..];
    ThinnedAscends(rows, i + 1, f);
    BeforeIrreflexive(k);
    forall r | r in kept ensures !Before(k, r.key) {
      var j :| 0 <= j < i + 1 && rows[j] == r;
      if j < i { BeforeAsymmetric(r.key, k); }
    }
    AfterPosAt(kept, rest, k);
  }

  lemma {:induction false} AfterSelf(rows: seq<Row>, i: nat)
    requires Ascending(rows) && i < |rows|
    ensures AfterPos(rows, rows[i].key) == i + 1
  {
    BeforeIrreflexive(rows[i].key);
    forall j | 0 <= j < i ensures !Before(rows[i].key, rows[j].key) {
      BeforeAsymmetric(rows[j].key, rows[i].key);
    }
    assert rows == rows[..i + 1] + rows[i + 1..];
    AfterPosAt(rows[..i + 1], rows[i + 1..], rows[i].key);
  }

  /** A scan that stops where no row is left to select has selected all of them. */
  lemma {:induction false} StopStep(rows: seq<Row>, i: nat, f: Row -> bool)
    requires i <= |rows| && forall j :: i <= j < |rows| ==> !f(rows[j])
    ensures Thinned(rows, i, f) == Keep(rows, Not(f))
    ensures Keep(rows[..i], f) == Keep(rows, f)
  {
    assert rows == rows[..i] + rows[i..];
    KeepAppend(rows[..i], rows[i..], f);
    KeepAppend(rows[..i], rows[i..], Not(f));
    KeepNone(rows[i..], f);
    KeepAll(rows[i..], Not(f));
  }

  /** A scan that starts where every selected row is still ahead has lost none. */
  lemma {:induction false} StartStep(rows: seq<Row>, i: nat, f: Row -> bool)
    requires i <= |rows| && forall j :: 0 <= j < i ==> !f(rows[j])
    ensures Thinned(rows, i, f) == rows && Keep(rows[..i], f) == []
  {
    hide Keep;
    assert forall r :: r in rows[..i] ==> !f(r);
    assert rows == rows[..i] + rows[i..];
    KeepNone(rows[..i], f);
    KeepAll(rows[..i], Not(f));
  }

  // ---- Deleting scans ---------------------------------------------------------------------

  /**
    A deleting scan stands before row i: of the earlier rows that satisfy f it has counted `cnt`
    and deleted all but the spared, and `left` is the map.
   */
  ghost predicate Swept(rows: seq<Row>, i: nat, f: Row -> bool, spared: set<seq<Byte>>, left: seq<Row>, cnt: nat) {
    && i <= |rows| && Ascending(rows)
    && left == Thinned(rows, i, Except(f, spared))
    && cnt == |Keep(rows[..i], f)|
    && |rows| - |left| == cnt - |spared|
    && forall j :: i <= j < |rows| ==> rows[j].key !in spared
  }

  /** All rows that satisfy f are counted, and deleted but for the spared; no other row is gone. */
  ghost predicate Removed(rows: seq<Row>, f: Row -> bool, spared: set<seq<Byte>>, left: seq<Row>, cnt: nat) {
    && left == Keep(rows, Not(Except(f, spared)))
    && cnt == |Keep(rows, f)|
    && |rows| - |left| == cnt - |spared|
  }

  lemma SweptStart(rows: seq<Row>, i: nat, f: Row -> bool)
    requires Ascending(rows) && i <= |rows| && forall j :: 0 <= j < i ==> !f(rows[j])
    ensures Swept(rows, i, f, {}, rows, 0)
  {
    hide Thinned, Keep;
    StartStep(rows, i, f);
    StartStep(rows, i, Except(f, {}));
  }

  lemma SweptPast(rows: seq<Row>, i: nat, f: Row -> bool, spared: set<seq<Byte>>, left: seq<Row>, cnt: nat)
    requires Swept(rows, i, f, spared, left, cnt) && i < |rows| && !f(rows[i])
    ensures Swept(rows, i + 1, f, spared, left, cnt)
  {
    hide Thinned, Keep, Ascending;
    KeepNext(rows, 0, i, f);
    SkipStep(rows, i, Except(f, spared));
    assert rows[0..i] == rows[..i] && rows[0..i + 1] == rows[..i + 1];
  }

  lemma SweptDeleted(rows: seq<Row>, i: nat, f: Row -> bool, spared: set<seq<Byte>>, left: seq<Row>, cnt: nat)
    requires Swept(rows, i, f, spared, left, cnt) && i < |rows| && f(rows[i])
    ensures Swept(rows, i + 1, f, spared, Keep(left, OtherThan(rows[i].key)), cnt + 1)
  {
    hide Thinned, Keep, Ascending, OtherThan;
    KeepNext(rows, 0, i, f);
    DeleteStep(rows, i, Except(f, spared));
    assert rows[0..i] == rows[..i] && rows[0..i + 1] == rows[..i + 1];
  }

  lemma SweptSpared(rows: seq<Row>, i: nat, f: Row -> bool, spared: set<seq<Byte>>, left: seq<Row>, cnt: nat)
    requires Swept(rows, i, f, spared, left, cnt) && i < |rows| && f(rows[i])
    ensures Swept(rows, i + 1, f, spared + {rows[i].key}, left, cnt + 1)
    ensures |spared + {rows[i].key}| == |spared| + 1
  {
    hide Thinned, Keep, Ascending, Except;
    KeepNext(rows, 0, i, f);
    SpareStep(rows, i, f, spared);
    assert rows[0..i] == rows[..i] && rows[0..i + 1] == rows[..i + 1];
  }

  lemma SweptNext(rows: seq<Row>, i: nat, f: Row -> bool, spared: set<seq<Byte>>, left: seq<Row>, cnt: nat)
    requires Swept(rows, i + 1, f, spared, left, cnt)
    ensures var n := AfterPos(left, rows[i].key);
            n + |rows| - i - 1 == |left| && (i + 1 < |rows| ==> left[n] == rows[i + 1])
  {
    hide Thinned, Keep, Ascending, Except, AfterPos;
    NextStep(rows, i, Except(f, spared));
  }

  lemma SweptEnd(rows: seq<Row>, i: nat, f: Row -> bool, spared: set<seq<Byte>>, left: seq<Row>, cnt: nat)
    requires Swept(rows, i, f, spared, left, cnt) && forall j :: i <= j < |rows| ==> !f(rows[j])
    ensures Removed(rows, f, spared, left, cnt)
  {
    hide Thinned, Keep, Ascending;
    StopStep(rows, i, f);
    StopStep(rows, i, Except(f, spared));
  }
}
