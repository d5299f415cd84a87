/**
  What a call that stores or removes makes of the library's answers: its whole course as a function of
  the answers to the calls it makes, oldest first (dblog.cpp).
 */
module Courses {
  import opened Lmdb

  /** The answers to the calls of a call. */
  function Since(before: seq<Answer>, after: seq<Answer>): seq<Answer> {
    if before <= after then after[|before|..] else []
  }

  /**
    Not enough answers yet; an error; or success with `lost` writes dropped, or deletions failed, and
    `rest` not asked for.
   */
  datatype Course = Unfinished | Fails | Done(lost: nat, rest: seq<Answer>)

  /** Calls that must all be answered well, n of them. */
  function Goods(h: seq<Answer>, n: nat): Course {
    if n == 0 then Done(0, h)
    else if h == [] then Unfinished
    else if h[0] != Good then Fails
    else Goods(h[1..], n - 1)
  }

  /** The calls of a restart: sizing, opening the environment and the database, and a new transaction. */
  const RESTART := 4

  /**
    One write after n others, `lost` of them dropped: done, or after a restart, which drops all n,
    done by the second attempt.
   */
  function Write(h: seq<Answer>, n: nat, lost: nat): Course {
    if h == [] then Unfinished
    else match h[0]
      case Good => Done(lost, h[1..])
      case Bad(_) => Fails
      case Full =>
        match Goods(h[1..], RESTART + 1)
        case Done(_, rest) => Done(n, rest)
        case c => c
  }

  /** The first n writes of a transaction. */
  function Puts(h: seq<Answer>, n: nat): Course {
    if n == 0 then Done(0, h) else
      match Puts(h, n - 1)
      case Done(lost, rest) => Write(rest, n - 1, lost)
      case c => c
  }

  /** `putLog`: begin, the two puts of the record, and the commit, which restarts like a put. */
  function PutLogCourse(h: seq<Answer>): Course {
    match Goods(h, 1)
    case Done(_, rest) => Puts(rest, 3)
    case c => c
  }

  /** `putLogEntries` with n records: its commit is not tried again. */
  function BatchCourse(h: seq<Answer>, n: nat): Course {
    match Goods(h, 1)
    case Done(_, rest) => Committed(Puts(rest, 2 * n))
    case c => c
  }

  function Committed(c: Course): Course {
    if !c.Done? then c else
      match Goods(c.rest, 1)
      case Done(_, rest) => Done(c.lost, rest)
      case e => e
  }

  /** The answers that are not good. */
  function Failures(d: seq<Answer>): (n: nat)
    ensures n <= |d|
  {
    if d == [] then 0 else Failures(d[..|d| - 1]) + if d[|d| - 1] == Good then 0 else 1
  }

  /**
    `rmLog` and `rmNotification` with n rows to delete: begin, the cursor, a deletion for each row, whatever
    it is answered, and the commit.
   */
  function RemoveCourse(h: seq<Answer>, n: nat): Course {
    match Goods(h, 2)
    case Done(_, g) =>
      (if |g| < n then Unfinished else
         match Goods(g[n..], 1)
         case Done(_, rest) => Done(Failures(g[..n]), rest)
         case c => c)
    case c => c
  }

  /** With more answers the course is the same, and the new ones are left over. */
  function More(c: Course, x: seq<Answer>): Course
    requires !c.Unfinished?
  {
    if c.Done? then Done(c.lost, c.rest + x) else c
  }

  lemma {:induction false} GoodsMore(h: seq<Answer>, x: seq<Answer>, n: nat)
    requires !Goods(h, n).Unfinished?
    ensures Goods(h + x, n) == More(Goods(h, n), x)
  {
    if n > 0 && h != [] {
      assert (h + x)[1..] == h[1..] + x;
      if h[0] == Good {
        GoodsMore(h[1..], x, n - 1);
      }
    }
  }

  lemma WriteMore(h: seq<Answer>, x: seq<Answer>, n: nat, lost: nat)
    requires !Write(h, n, lost).Unfinished?
    ensures Write(h + x, n, lost) == More(Write(h, n, lost), x)
  {
    hide Goods;
    assert (h + x)[1..] == h[1..] + x;
    if h[0] == Full {
      GoodsMore(h[1..], x, RESTART + 1);
    }
  }

  lemma {:induction false} PutsMore(h: seq<Answer>, x: seq<Answer>, n: nat)
    requires !Puts(h, n).Unfinished?
    ensures Puts(h + x, n) == More(Puts(h, n), x)
  {
    hide Write;
    if n > 0 {
      PutsMore(h, x, n - 1);
      var c := Puts(h, n - 1);
      if c.Done? {
        WriteMore(c.rest, x, n - 1, c.lost);
      }
    }
  }

  lemma PutLogMore(h: seq<Answer>, x: seq<Answer>)
    requires !PutLogCourse(h).Unfinished?
    ensures PutLogCourse(h + x) == More(PutLogCourse(h), x)
  {
    hide Goods, Puts;
    GoodsMore(h, x, 1);
    var c := Goods(h, 1);
    if c.Done? {
      PutsMore(c.rest, x, 3);
    }
  }

  /** One call more: after n good answers the next decides; after a failure none does. */
  lemma {:induction false} GoodsNext(h: seq<Answer>, n: nat, a: Answer)
    requires !Goods(h, n).Unfinished?
    ensures Goods(h, n) == Done(0, []) ==> Goods(h + [a], n + 1) == if a == Good then Done(0, []) else Fails
    ensures Goods(h, n) == Fails ==> Goods(h, n + 1) == Fails
  {
    if n > 0 && h != [] && h[0] == Good {
      GoodsNext(h[1..], n - 1, a);
      assert (h + [a])[1..] == h[1..] + [a];
    }
  }

  lemma {:induction false} GoodsFail(h: seq<Answer>, k: nat, n: nat)
    requires k <= n && Goods(h, k) == Fails
    ensures Goods(h, n) == Fails
  {
    if h[0] == Good {
      GoodsFail(h[1..], k - 1, n - 1);
    }
  }

  lemma {:induction false} PutsFail(h: seq<Answer>, k: nat, n: nat)
    requires k <= n && Puts(h, k) == Fails
    ensures Puts(h, n) == Fails
  {
    if k < n {
      PutsFail(h, k, n - 1);
    }
  }

  lemma PutsNext(g: seq<Answer>, n: nat, lost: nat, x: seq<Answer>)
    requires Puts(g, n) == Done(lost, [])
    ensures Puts(g + x, n + 1) == Write(x, n, lost)
  {
    hide Write;
    PutsMore(g, x, n);
    assert [] + x == x;
  }

  /** A write that is not refused for a full map. */
  lemma WriteOnce(g: seq<Answer>, n: nat, lost: nat, a: Answer)
    requires Puts(g, n) == Done(lost, []) && a != Full
    ensures Puts(g + [a], n + 1) == if a == Good then Done(lost, []) else Fails
  {
    hide Puts;
    PutsNext(g, n, lost, [a]);
  }

  /** A write that is, with the answers m of the restart and, if it is made, b of the second attempt. */
  lemma WriteTwice(g: seq<Answer>, n: nat, lost: nat, m: seq<Answer>, b: Answer)
    requires Puts(g, n) == Done(lost, []) && !Goods(m, RESTART).Unfinished?
    ensures Goods(m, RESTART) == Done(0, []) ==>
              Puts(g + [Full] + m + [b], n + 1) == if b == Good then Done(n, []) else Fails
    ensures Goods(m, RESTART) == Fails ==> Puts(g + [Full] + m, n + 1) == Fails
  {
    hide Goods, Puts;
    GoodsNext(m, RESTART, b);
    var x, y := [Full] + m + [b], [Full] + m;
    PutsNext(g, n, lost, x);
    PutsNext(g, n, lost, y);
    assert g + x == g + [Full] + m + [b] && g + y == g + [Full] + m;
    assert x[1..] == m + [b] && y[1..] == m;
  }

  /** n calls answered well use up n answers. */
  lemma {:induction false} GoodsUse(h: seq<Answer>, n: nat)
    requires Goods(h, n).Done?
    ensures n <= |h| && Goods(h, n) == Done(0, h[n..]) && Full !in h[..n]
  {
    if n > 0 {
      GoodsUse(h[1..], n - 1);
      assert h[..n] == [h[0]] + h[1..][..n - 1];
    }
  }

  ghost predicate SplitsAt(h: seq<Answer>, rest: seq<Answer>, k: nat) {
    k <= |h| && rest == h[k..]
  }

  /**
    The writes of a transaction use up a first part of the answers, and none of them is lost
    exactly when no answer of that part but the first reports a full map.
   */
  lemma {:induction false} PutsUse(h: seq<Answer>, n: nat) returns (k: nat)
    requires Puts(h, n).Done?
    ensures SplitsAt(h, Puts(h, n).rest, k) && n <= k
    ensures n == 0 ==> k == 0 && Puts(h, n).lost == 0
    ensures n > 0 ==> (Puts(h, n).lost == 0 <==> Full !in h[1..k])
    ensures Puts(h, n).lost < n || n == 0
  {
    if n == 0 {
      k := 0;
    } else {
      var k0 := PutsUse(h, n - 1);
      var c := Puts(h, n - 1);
      if c.rest[0] == Good {
        k := k0 + 1;
      } else {
        GoodsUse(c.rest[1..], RESTART + 1);
        k := k0 + 1 + RESTART + 1;
        assert h[k0 + 1..k] == c.rest[1..][..RESTART + 1];
      }
      UsedBefore(h, n, k0, k);
    }
  }

  lemma UsedBefore(h: seq<Answer>, n: nat, k0: nat, k: nat)
    requires k0 < k <= |h| && Full !in h[k0 + 1..k] && (n > 1 ==> 1 <= k0) && (n == 1 ==> k0 == 0)
    ensures n > 1 ==> (Full in h[1..k] <==> Full in h[1..k0] || h[k0] == Full)
    ensures n == 1 ==> Full !in h[1..k]
  {
    if n > 1 {
      assert h[1..k] == h[1..k0] + [h[k0]] + h[k0 + 1..k];
    }
  }

  /** One write uses one answer, or six with a full map first. */
  lemma WriteUses(h: seq<Answer>, n: nat, lost: nat) returns (k: nat)
    requires Write(h, n, lost).Done?
    ensures h != [] && k <= |h| && Write(h, n, lost) == Done(if h[0] == Full then n else lost, h[k..])
    ensures k == if h[0] == Full then 6 else 1
    ensures h[0] == Full ==> h[1] == h[2] == Good
  {
    hide Goods;
    k := 1;
    if h[0] == Full {
      GoodsUse(h[1..], RESTART + 1);
      k := 6;
      assert h[1..][5..] == h[6..] && h[1..][..5] == h[1..6];
      assert h[1] in h[1..6] && h[2] in h[1..6];
      FirstGoods(h[1..]);
    }
  }

  lemma FirstGoods(h: seq<Answer>)
    requires Goods(h, RESTART + 1).Done?
    ensures |h| >= 2 && h[0] == h[1] == Good
  {
    assert Goods(h[1..], RESTART).Done?;
  }

  /** What three writes use, all answers taken: with a full map at the last, six answers before the end. */
  lemma ThreeWrites(g: seq<Answer>)
    requires Puts(g, 3).Done? && Puts(g, 3).rest == []
    ensures |g| >= 3 && Puts(g, 3).lost <= 2
    ensures Puts(g, 3).lost == 2 <==> |g| >= 6 && g[|g| - 6] == Full
  {
    var c1, c2 := Write(g, 0, 0), Puts(g, 2);
    assert Puts(g, 1) == c1 by { assert Puts(g, 0) == Done(0, g); }
    assert c2 == Write(c1.rest, 1, c1.lost) && Puts(g, 3) == Write(c2.rest, 2, c2.lost);
    hide Puts, Write;
    var k1 := WriteUses(g, 0, 0);
    var k2 := WriteUses(c1.rest, 1, c1.lost);
    var k3 := WriteUses(c2.rest, 2, c2.lost);
    assert c2.rest == g[k1 + k2..] && |g| == k1 + k2 + k3;
    if k3 == 1 {
      assert k2 == 6 ==> g[|g| - 6] == c1.rest[1];
    } else {
      assert c2.rest[0] == g[|g| - 6];
    }
  }

  /**
    A `putLog` that succeeds has lost a write exactly when a full map was reported after its first
    put, and both writes exactly when it was reported at the commit, which then takes six answers.
   */
  lemma {:induction false} PutLogLoses(h: seq<Answer>)
    requires PutLogCourse(h).Done? && PutLogCourse(h).rest == []
    ensures |h| >= 4 && PutLogCourse(h).lost <= 2
    ensures PutLogCourse(h).lost == 0 <==> Full !in h[2..]
    ensures PutLogCourse(h).lost == 2 <==> |h| >= 7 && h[|h| - 6] == Full
  {
    hide Puts, Goods;
    GoodsUse(h, 1);
    var g := h[1..];
    var k := PutsUse(g, 3);
    assert g[1..k] == h[2..];
    ThreeWrites(g);
    assert |g| >= 6 ==> g[|g| - 6] == h[|h| - 6];
  }

  /** The same for a batch that is not empty. */
  lemma {:induction false} BatchLoses(h: seq<Answer>, n: nat)
    requires BatchCourse(h, n).Done? && BatchCourse(h, n).rest == []
    ensures |h| >= 2 && BatchCourse(h, n).lost <= 2 * n && (BatchCourse(h, n).lost == 0 <==> Full !in h[2..])
  {
    hide Puts;
    GoodsUse(h, 1);
    var c := Puts(h[1..], 2 * n);
    var k := PutsUse(h[1..], 2 * n);
    GoodsUse(c.rest, 1);
    assert k + 2 == |h|;
    if n > 0 {
      assert h[2..] == h[1..][1..k] + c.rest[..1];
    }
  }

  /** The call ends at its begin. */
  predicate BeginFails(h: seq<Answer>) {
    h != [] && h[0] != Good
  }

  /** All of n writes are done. */
  predicate AllPut(h: seq<Answer>, n: nat) {
    h != [] && h[0] == Good && Puts(h[1..], n).Done?
  }

  /** The call ends at the write after n others. */
  predicate FailsAt(h: seq<Answer>, n: nat) {
    AllPut(h, n) && Puts(h[1..], n + 1) == Fails
  }

  // ---- Removals -------------------------------------------------------------------------------

  lemma RemoveMore(h: seq<Answer>, x: seq<Answer>, n: nat)
    requires !RemoveCourse(h, n).Unfinished?
    ensures RemoveCourse(h + x, n) == More(RemoveCourse(h, n), x)
  {
    hide Goods, Failures;
    GoodsMore(h, x, 2);
    var c := Goods(h, 2);
    if c.Done? {
      var g := c.rest;
      assert (g + x)[n..] == g[n..] + x && (g + x)[..n] == g[..n];
      GoodsMore(g[n..], x, 1);
    }
  }

  lemma {:induction false} FailuresAppend(a: seq<Answer>, b: seq<Answer>)
    ensures Failures(a + b) == Failures(a) + Failures(b)
  {
    if b == [] {
      assert a + b == a;
    } else {
      assert (a + b)[..|a + b| - 1] == a + b[..|b| - 1];
      FailuresAppend(a, b[..|b| - 1]);
    }
  }

  lemma {:induction false} NoFailures(d: seq<Answer>)
    ensures Failures(d) == 0 <==> forall x :: x in d ==> x == Good
  {
    if d != [] {
      var init, last := d[..|d| - 1], d[|d| - 1];
      NoFailures(init);
      assert d == init + [last] && last in d;
      assert forall x :: x in d <==> x in init || x == last;
    }
  }

  /** A removal that succeeds has missed as many rows as it was given other answers than good ones. */
  lemma {:induction false} RemoveLoses(h: seq<Answer>, n: nat)
    requires RemoveCourse(h, n).Done? && RemoveCourse(h, n).rest == []
    ensures |h| == n + 3 && RemoveCourse(h, n).lost == Failures(h)
    ensures RemoveCourse(h, n).lost == 0 <==> forall x :: x in h ==> x == Good
  {
    GoodsUse(h, 2);
    var g := h[2..];
    GoodsUse(g[n..], 1);
    hide Goods;
    assert h == h[..2] + (g[..n] + g[n..]);
    FailuresAppend(h[..2], g[..n] + g[n..]);
    FailuresAppend(g[..n], g[n..]);
    GoodsOnly(h, 2);
    GoodsOnly(g[n..], 1);
    assert g[n..] == g[n..][..1];
    NoFailures(h[..2]);
    NoFailures(g[n..]);
    NoFailures(h);
    hide Failures;
  }

  lemma {:induction false} GoodsOnly(h: seq<Answer>, n: nat)
    requires Goods(h, n).Done? && n <= |h|
    ensures forall x :: x in h[..n] ==> x == Good
  {
    if n > 0 {
      GoodsOnly(h[1..], n - 1);
      assert h[..n] == [h[0]] + h[1..][..n - 1];
    }
  }

  /** The answers of b after a are those of n deletions, `failed` of which failed. */
  ghost predicate Deletions(a: seq<Answer>, b: seq<Answer>, n: nat, failed: nat) {
    a <= b && |b| == |a| + n && Failures(b[|a|..]) == failed
  }

  lemma NoDeletions(a: seq<Answer>)
    ensures Deletions(a, a, 0, 0)
  {
  }

  lemma OneDeletion(a: seq<Answer>, b: seq<Answer>, b': seq<Answer>, n: nat, failed: nat)
    requires Deletions(a, b, n, failed) && |b'| == |b| + 1 && b' == b + [b'[|b|]]
    ensures Deletions(a, b', n + 1, failed + if b'[|b|] == Good then 0 else 1)
  {
    var d := b'[|a|..];
    assert d[..n] == b[|a|..] && d[n] == b'[|b|];
  }

  predicate CursorRefused(h: seq<Answer>) {
    |h| >= 2 && h[0] == Good && h[1] != Good
  }

  /** The error of a cursor that does not open is the result, a positive one like any other. */
  ghost predicate PassesError(h: seq<Answer>, r: int) {
    && h != [] && (h[0] == Good ==> |h| >= 2)
    && (CursorRefused(h) && h[1].Bad? ==> r == h[1].code)
  }

  /** How the opening of a scan went: its answers and its result. */
  ghost predicate Opened(a: seq<Answer>, b: seq<Answer>, r: int) {
    var h := Since(a, b);
    && a <= b && PassesError(h, r)
    && (r == 0 ==> h == [Good, Good])
    && (r != 0 ==> Goods(h, 2) == Fails)
  }

  lemma NotBegun(a: seq<Answer>, b: seq<Answer>, r: int)
    requires |b| == |a| + 1 && b == a + [b[|a|]] && b[|a|] != Good && r != 0
    ensures Opened(a, b, r)
  {
    assert Since(a, b) == [b[|a|]];
  }

  lemma NotOpened(a: seq<Answer>, begun: seq<Answer>, b: seq<Answer>, x: seq<Answer>, r: int)
    requires begun == a + [Good] && |b| == |begun| + 1 && b == begun + [b[|begun|]] && b[|begun|] != Good && r != 0
    requires b[|begun|].Bad? ==> r == b[|begun|].code
    ensures Opened(a, b + x, r) && CursorRefused(Since(a, b + x))
  {
    var h := Since(a, b + x);
    assert h[0] == Good && h[1] == b[|begun|] && h[1..][0] == h[1];
    assert Goods(h[1..], 1) == Fails;
  }

  lemma CursorOpened(a: seq<Answer>, begun: seq<Answer>, b: seq<Answer>)
    requires begun == a + [Good] && b == begun + [Good]
    ensures Opened(a, b, 0)
  {
    assert Since(a, b) == [Good, Good];
  }

  lemma RemoveEnds(a: seq<Answer>, since: seq<Answer>, b: seq<Answer>, n: nat, failed: nat, x: Answer)
    requires Opened(a, since, 0) && Deletions(since, b, n, failed)
    ensures RemoveCourse(Since(a, b + [x]), n) == if x == Good then Done(failed, []) else Fails
  {
    hide Failures;
    var h := Since(a, b + [x]);
    assert since == a + [Good, Good] && h == [Good, Good] + (b[|since|..] + [x]);
    TwoGoods(b[|since|..] + [x]);
    assert (b[|since|..] + [x])[n..] == [x] && (b[|since|..] + [x])[..n] == b[|since|..];
    OneGood(x);
    hide Goods;
  }

  lemma TwoGoods(g: seq<Answer>)
    ensures Goods([Good, Good] + g, 2) == Done(0, g)
  {
    var h := [Good, Good] + g;
    assert h[1..] == [Good] + g && ([Good] + g)[1..] == g;
    assert Goods(g, 0) == Done(0, g) && Goods([Good] + g, 1) == Done(0, g);
  }

  lemma OneGood(x: Answer)
    ensures Goods([x], 1) == if x == Good then Done(0, []) else Fails
  {
    assert [x][1..] == [] && Goods([], 0) == Done(0, []);
  }

  lemma OpenedThen(a: seq<Answer>, since: seq<Answer>, x: seq<Answer>, r: int)
    requires Opened(a, since, 0)
    ensures a <= since + x && !CursorRefused(Since(a, since + x)) && PassesError(Since(a, since + x), r)
  {
    var h := Since(a, since + x);
    assert since == a + [Good, Good] && h[..2] == [Good, Good];
    assert h[0] == Good && h[1] == Good;
  }

  lemma RemoveAnswers(a: seq<Answer>, since: seq<Answer>, b: seq<Answer>, n: nat, failed: nat, x: Answer, r: int)
    requires Opened(a, since, 0) && Deletions(since, b, n, failed)
    ensures a <= b + [x] && !CursorRefused(Since(a, b + [x])) && PassesError(Since(a, b + [x]), r)
  {
    hide PassesError, CursorRefused, Failures;
    assert b + [x] == since + (b[|since|..] + [x]);
    OpenedThen(a, since, b[|since|..] + [x], r);
  }

  lemma RemoveFails(a: seq<Answer>, b: seq<Answer>, r: int, n: nat)
    requires Opened(a, b, r) && r != 0
    ensures a <= b && RemoveCourse(Since(a, b), n) == Fails && PassesError(Since(a, b), r)
  {
  }

  // ---- Scripts --------------------------------------------------------------------------------

  /**
    Answers that agree as far as both go: where the one has a whole course, the other has the same one, and
    has used what that one used.
   */
  lemma CourseDecides(script: seq<Answer>, h: seq<Answer>)
    requires script <= h || h <= script
    requires PutLogCourse(script).Done?
    requires !PutLogCourse(h).Unfinished? && (PutLogCourse(h).Done? ==> PutLogCourse(h).rest == [])
    ensures PutLogCourse(h) == Done(PutLogCourse(script).lost, []) && script == h + PutLogCourse(script).rest
  {
    hide PutLogCourse;
    if script <= h {
      PutLogMore(script, h[|script|..]);
      assert h == script + h[|script|..];
    } else {
      PutLogMore(h, script[|h|..]);
      assert script == h + script[|h|..] && [] + script[|h|..] == script[|h|..];
    }
  }

  lemma RemoveDecides(script: seq<Answer>, h: seq<Answer>, n: nat)
    requires script <= h || h <= script
    requires RemoveCourse(script, n).Done?
    requires !RemoveCourse(h, n).Unfinished? && (RemoveCourse(h, n).Done? ==> RemoveCourse(h, n).rest == [])
    ensures RemoveCourse(h, n) == Done(RemoveCourse(script, n).lost, []) && script == h + RemoveCourse(script, n).rest
  {
    hide RemoveCourse;
    if script <= h {
      RemoveMore(script, h[|script|..], n);
      assert h == script + h[|script|..];
    } else {
      RemoveMore(h, script[|h|..], n);
      assert script == h + script[|h|..] && [] + script[|h|..] == script[|h|..];
    }
  }
}
