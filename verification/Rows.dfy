/** The ordered map: rows with strictly ascending keys. */
module Rows {
  import opened Bytes
  import opened Seqs

  datatype Row = Row(key: seq<Byte>, val: seq<Byte>)

  ghost predicate Ascending(rows: seq<Row>) {
    forall i, j :: 0 <= i < j < |rows| ==> Before(rows[i].key, rows[j].key)
  }

  /** The position of the least key that is not before k: where a cursor set to range k lands. */
  function SeekPos(rows: seq<Row>, k: seq<Byte>): (n: nat)
    ensures n <= |rows|
  {
    if rows == [] || !Before(rows[0].key, k) then 0 else 1 + SeekPos(rows[1..], k)
  }

  /** The position of the least key after k: where the cursor goes next from k, present or not. */
  function AfterPos(rows: seq<Row>, k: seq<Byte>): (n: nat)
    ensures n <= |rows|
  {
    if rows == [] || Before(k, rows[0].key) then 0 else 1 + AfterPos(rows[1..], k)
  }

  lemma {:induction false} SeekPosSplits(rows: seq<Row>, k: seq<Byte>)
    requires Ascending(rows)
    ensures forall i :: 0 <= i < |rows| ==> (i < SeekPos(rows, k) <==> Before(rows[i].key, k))
  {
    if rows != [] {
      if Before(rows[0].key, k) {
        SeekPosSplits(rows[1..], k);
        forall i | 0 < i < |rows|
          ensures i < SeekPos(rows, k) <==> Before(rows[i].key, k)
        {
          assert rows[i] == rows[1..][i - 1];
        }
      } else {
        forall i | 0 < i < |rows| ensures !Before(rows[i].key, k) {
          BeforeChain(k, rows[0].key, rows[i].key);
          if Before(rows[i].key, k) { BeforeAsymmetric(rows[i].key, k); }
        }
      }
    }
  }

  lemma {:induction false} AfterPosSplits(rows: seq<Row>, k: seq<Byte>)
    requires Ascending(rows)
    ensures forall i :: 0 <= i < |rows| ==> (i >= AfterPos(rows, k) <==> Before(k, rows[i].key))
  {
    if rows != [] {
      if Before(k, rows[0].key) {
        forall i | 0 < i < |rows| ensures Before(k, rows[i].key) {
          BeforeTransitive(k, rows[0].key, rows[i].key);
        }
      } else {
        AfterPosSplits(rows[1..], k);
        forall i | 0 < i < |rows|
          ensures i >= AfterPos(rows, k) <==> Before(k, rows[i].key)
        {
          assert rows[i] == rows[1..][i - 1];
        }
      }
    }
  }

  /** From a key that was at the end of `done`, or between `done` and `rest`, the cursor goes to `rest`. */
  lemma AfterPosAt(done: seq<Row>, rest: seq<Row>, k: seq<Byte>)
    requires Ascending(done + rest)
    requires forall r :: r in done ==> !Before(k, r.key)
    requires forall r :: r in rest ==> Before(k, r.key)
    ensures AfterPos(done + rest, k) == |done|
  {
    var all := done + rest;
    var n := AfterPos(all, k);
    assert n < |done| ==> all[n] == done[n];
    assert n > |done| ==> all[|done|] == rest[0];
    AfterPosSplits(all, k);
  }

  lemma SeekNotPastAfter(rows: seq<Row>, k: seq<Byte>)
    requires Ascending(rows)
    ensures SeekPos(rows, k) <= AfterPos(rows, k)
  {
    var j := AfterPos(rows, k);
    if j < SeekPos(rows, k) {
      SeekPosSplits(rows, k);
      AfterPosSplits(rows, k);
      BeforeAsymmetric(k, rows[j].key);
    }
  }

  /** Storing a row replaces the value of its key or inserts the row at its place. */
  function Put(rows: seq<Row>, row: Row): seq<Row>
    requires Ascending(rows)
  {
    SeekNotPastAfter(rows, row.key);
    rows[..SeekPos(rows, row.key)] + [row] + rows[AfterPos(rows, row.key)..]
  }

  lemma PutAscends(rows: seq<Row>, row: Row)
    requires Ascending(rows)
    ensures Ascending(Put(rows, row))
    ensures forall r :: r in Put(rows, row) <==> r == row || (r in rows && r.key != row.key)
  {
    var k := row.key;
    var i, j := SeekPos(rows, k), AfterPos(rows, k);
    SeekPosSplits(rows, k);
    AfterPosSplits(rows, k);
    SeekNotPastAfter(rows, k);
    var put := rows[..i] + [row] + rows[j..];
    forall x, y | 0 <= x < y < |put| ensures Before(put[x].key, put[y].key) {
      if x < i && y > i {
        BeforeTransitive(put[x].key, k, put[y].key);
      }
    }
    BeforeIrreflexive(k);
    forall r ensures r in put <==> r == row || (r in rows && r.key != k) {
      if r in rows && r.key != k {
        var n :| 0 <= n < |rows| && rows[n] == r;
        BeforeTotal(r.key, k);
        if n < i { assert put[n] == r; } else { assert n >= j; assert put[n - j + i + 1] == r; }
      }
      if r == row { assert put[i] == r; }
    }
  }

  /** Storing several rows, first to last. */
  function PutAll(rows: seq<Row>, writes: seq<Row>): (r: seq<Row>)
    requires Ascending(rows)
    ensures Ascending(r)
  {
    if writes == [] then rows else
      var n := |writes| - 1;
      var before := PutAll(rows, writes[..n]);
      PutAscends(before, writes[n]);
      Put(before, writes[n])
  }

  lemma {:induction false} PutAllAppend(rows: seq<Row>, a: seq<Row>, b: seq<Row>)
    requires Ascending(rows)
    ensures PutAll(rows, a + b) == PutAll(PutAll(rows, a), b)
  {
    if b == [] {
      assert a + b == a;
    } else {
      var n := |b| - 1;
      assert (a + b)[..|a + b| - 1] == a + b[..n];
      PutAllAppend(rows, a, b[..n]);
    }
  }

  /** Write i stores row r, and is the last write to its key. */
  ghost predicate LastWrite(w: seq<Row>, i: int, r: Row) {
    0 <= i < |w| && w[i] == r && Unwritten(w[i + 1..], r.key)
  }

  ghost predicate Unwritten(w: seq<Row>, k: seq<Byte>) {
    forall r :: r in w ==> r.key != k
  }

  /** After several writes a key has its last written value, or its old one if none was written. */
  lemma {:induction false} PutAllMeaning(rows: seq<Row>, w: seq<Row>, r: Row)
    requires Ascending(rows)
    ensures r in PutAll(rows, w) <==> (exists i :: LastWrite(w, i, r)) || (r in rows && Unwritten(w, r.key))
  {
    hide Put;
    if w != [] {
      var n := |w| - 1;
      var init, last := w[..n], w[n];
      PutAllMeaning(rows, init, r);
      PutAscends(PutAll(rows, init), last);
      assert w == init + [last];
      if i :| LastWrite(init, i, r) && r.key != last.key {
        assert w[i + 1..] == init[i + 1..] + [last];
        assert LastWrite(w, i, r);
      }
      if i :| LastWrite(w, i, r) && i < n {
        assert w[i + 1..] == init[i + 1..] + [last];
        assert LastWrite(init, i, r) && last in w[i + 1..];
      }
      if r == last {
        assert w[n + 1..] == [] && LastWrite(w, n, r);
      }
    }
  }

  lemma {:induction false} KeepAscends(rows: seq<Row>, p: Row -> bool)
    requires Ascending(rows)
    ensures Ascending(Keep(rows, p))
  {
    if rows != [] {
      var n := |rows| - 1;
      KeepAscends(rows[..n], p);
      var kept := Keep(rows[..n], p);
      forall i | 0 <= i < |kept| ensures Before(kept[i].key, rows[n].key) {
        assert kept[i] in rows[..n];
      }
    }
  }

  function OtherThan(k: seq<Byte>): Row -> bool {
    (row: Row) => row.key != k
  }

  /** Ascending sequences with the same rows are equal: the order is determined by the keys. */
  lemma {:induction false} SameRows(a: seq<Row>, b: seq<Row>)
    requires Ascending(a) && Ascending(b)
    requires forall r :: r in a <==> r in b
    ensures a == b
  {
    assert |b| > 0 ==> b[0] in a;
    assert |a| > 0 ==> a[0] in b;
    if a != [] {
      var x, y := a[|a| - 1], b[|b| - 1];
      assert x in b && y in a;
      BeforeIrreflexive(x.key);
      if x != y {
        var i :| 0 <= i < |b| && b[i] == x;
        var j :| 0 <= j < |a| && a[j] == y;
        BeforeAsymmetric(x.key, y.key);
      }
      var a', b' := a[..|a| - 1], b[..|b| - 1];
      assert a == a' + [x] && b == b' + [x];
      forall r ensures r in a' <==> r in b' {
        if r in a' { assert r in a && r.key != x.key; }
        if r in b' { assert r in b && r.key != x.key; }
      }
      SameRows(a', b');
    }
  }

  /** A key that is written has a last write. */
  lemma {:induction false} LastWriteOf(w: seq<Row>, k: seq<Byte>) returns (i: nat)
    requires !Unwritten(w, k)
    ensures i < |w| && w[i].key == k && LastWrite(w, i, w[i])
  {
    var n := |w| - 1;
    if w[n].key == k {
      i := n;
      assert w[n + 1..] == [];
    } else {
      assert w == w[..n] + [w[n]];
      i := LastWriteOf(w[..n], k);
      assert w[i + 1..] == w[..n][i + 1..] + [w[n]];
    }
  }

  lemma LastWriteInRest(w: seq<Row>, lost: nat, i: nat, r: Row)
    requires lost <= i < |w|
    ensures LastWrite(w[lost..], i - lost, r) <==> LastWrite(w, i, r)
  {
    assert w[lost..][i - lost + 1..] == w[i + 1..];
  }

  lemma SameKeySameRow(rows: seq<Row>, a: Row, b: Row)
    requires Ascending(rows) && a in rows && b in rows && a.key == b.key
    ensures a == b
  {
    BeforeIrreflexive(a.key);
  }

  /** Every last write that is left out is in the store already. */
  ghost predicate StoredBefore(rows: seq<Row>, w: seq<Row>, lost: nat)
    requires lost <= |w|
  {
    forall i :: 0 <= i < lost && LastWrite(w, i, w[i]) ==> w[i] in rows
  }

  lemma RestHasRow(rows: seq<Row>, w: seq<Row>, lost: nat, r: Row)
    requires Ascending(rows) && lost <= |w| && StoredBefore(rows, w, lost)
    ensures r in PutAll(rows, w[lost..]) <==> r in PutAll(rows, w)
  {
    hide PutAll, Ascending, LastWrite, Unwritten;
    var s := w[lost..];
    PutAllMeaning(rows, s, r);
    PutAllMeaning(rows, w, r);
    UnwrittenRest(w, lost, r.key);
    if j :| LastWrite(s, j, r) {
      LastWriteBound(s, j, r);
      LastWriteInRest(w, lost, j + lost, r);
    }
    if j :| LastWrite(w, j, r) {
      LastWriteBound(w, j, r);
      if j >= lost {
        LastWriteInRest(w, lost, j, r);
      } else {
        UnwrittenAfter(w, lost, j, r);
      }
    }
    if r in rows && Unwritten(s, r.key) && !Unwritten(w, r.key) {
      var j := LastWriteOf(w, r.key);
      WrittenEarly(w, lost, j);
      SameKeySameRow(rows, r, w[j]);
    }
  }

  lemma LastWriteBound(w: seq<Row>, i: int, r: Row)
    requires LastWrite(w, i, r)
    ensures 0 <= i < |w| && w[i] == r
  {
  }

  lemma UnwrittenMeans(w: seq<Row>, k: seq<Byte>)
    requires Unwritten(w, k)
    ensures forall r :: r in w ==> r.key != k
  {
  }

  lemma UnwrittenRest(w: seq<Row>, lost: nat, k: seq<Byte>)
    requires lost <= |w|
    ensures Unwritten(w, k) ==> Unwritten(w[lost..], k)
  {
  }

  lemma WrittenEarly(w: seq<Row>, lost: nat, i: nat)
    requires lost <= |w| && i < |w| && Unwritten(w[lost..], w[i].key)
    ensures i < lost
  {
    InRest(w, lost, i);
  }

  lemma InRest(w: seq<Row>, lost: nat, i: nat)
    requires lost <= |w| && i < |w|
    ensures i >= lost ==> w[i] in w[lost..]
  {
    assert i >= lost ==> w[lost..][i - lost] == w[i];
  }

  lemma UnwrittenAfter(w: seq<Row>, lost: nat, i: nat, r: Row)
    requires i < lost <= |w| && LastWrite(w, i, r)
    ensures Unwritten(w[lost..], r.key)
  {
    assert w[lost..] == w[i + 1..][lost - i - 1..];
  }

  /** Leaving out the first writes changes nothing exactly when each of them is overwritten later or stored already. */
  lemma {:induction false} RestIsAll(rows: seq<Row>, w: seq<Row>, lost: nat)
    requires Ascending(rows) && lost <= |w|
    ensures PutAll(rows, w[lost..]) == PutAll(rows, w) <==> StoredBefore(rows, w, lost)
  {
    hide Ascending, LastWrite, Unwritten;
    var a, b := PutAll(rows, w[lost..]), PutAll(rows, w);
    hide PutAll;
    if StoredBefore(rows, w, lost) {
      forall r ensures r in a <==> r in b {
        RestHasRow(rows, w, lost, r);
      }
      SameRows(a, b);
    } else {
      var i :| 0 <= i < lost && LastWrite(w, i, w[i]) && w[i] !in rows;
      PutAllMeaning(rows, w, w[i]);
      PutAllMeaning(rows, w[lost..], w[i]);
      UnwrittenAfter(w, lost, i, w[i]);
      UnwrittenMeans(w[lost..], w[i].key);
      forall j ensures !LastWrite(w[lost..], j, w[i]) {
        if LastWrite(w[lost..], j, w[i]) {
          LastWriteBound(w[lost..], j, w[i]);
        }
      }
    }
  }
}
