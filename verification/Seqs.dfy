/** Selecting, mapping and concatenating sequences. */
module Seqs {

  /** The elements satisfying p, in their order. */
  function Keep<T(!new)>(s: seq<T>, p: T -> bool): (r: seq<T>)
    ensures |r| <= |s|
    ensures forall x :: x in r <==> x in s && p(x)
  {
    if s == [] then [] else
      var n := |s| - 1;
      Keep(s[..n], p) + if p(s[n]) then [s[n]] else []
  }

  lemma {:induction false} KeepAppend<T(!new)>(s: seq<T>, t: seq<T>, p: T -> bool)
    ensures Keep(s + t, p) == Keep(s, p) + Keep(t, p)
  {
    if t == [] {
      assert s + t == s;
    } else {
      var n := |t| - 1;
      assert (s + t)[..|s + t| - 1] == s + t[..n];
      KeepAppend(s, t[..n], p);
    }
  }

  lemma KeepNext<T(!new)>(s: seq<T>, i: nat, j: nat, p: T -> bool)
    requires i <= j < |s|
    ensures p(s[j]) ==> Keep(s[i..j + 1], p) == Keep(s[i..j], p) + [s[j]]
    ensures !p(s[j]) ==> Keep(s[i..j + 1], p) == Keep(s[i..j], p)
  {
    assert s[i..j + 1][..j - i] == s[i..j];
  }

  lemma {:induction false} KeepSame<T(!new)>(s: seq<T>, p: T -> bool, q: T -> bool)
    requires forall x :: x in s ==> p(x) == q(x)
    ensures Keep(s, p) == Keep(s, q)
  {
    if s != [] {
      KeepSame(s[..|s| - 1], p, q);
    }
  }

  lemma {:induction false} KeepNone<T(!new)>(s: seq<T>, p: T -> bool)
    requires forall x :: x in s ==> !p(x)
    ensures Keep(s, p) == []
  {
    if s != [] {
      KeepNone(s[..|s| - 1], p);
    }
  }

  lemma {:induction false} KeepAll<T(!new)>(s: seq<T>, p: T -> bool)
    requires forall x :: x in s ==> p(x)
    ensures Keep(s, p) == s
  {
    if s != [] {
      KeepAll(s[..|s| - 1], p);
      assert s == s[..|s| - 1] + [s[|s| - 1]];
    }
  }

  function Both<T>(p: T -> bool, q: T -> bool): T -> bool {
    x => p(x) && q(x)
  }

  /** Two selections one after the other are the selection by both. */
  lemma {:induction false} KeepTwice<T(!new)>(s: seq<T>, p: T -> bool, q: T -> bool)
    ensures Keep(Keep(s, p), q) == Keep(s, Both(p, q))
  {
    if s != [] {
      var n := |s| - 1;
      KeepTwice(s[..n], p, q);
      KeepAppend(Keep(s[..n], p), if p(s[n]) then [s[n]] else [], q);
    }
  }

  lemma {:induction false} KeepSplitsCount<T(!new)>(s: seq<T>, p: T -> bool, q: T -> bool)
    requires forall x :: x in s ==> p(x) != q(x)
    ensures |Keep(s, p)| + |Keep(s, q)| == |s|
  {
    if s != [] {
      KeepSplitsCount(s[..|s| - 1], p, q);
    }
  }

  function Map<T, U>(f: T -> U, s: seq<T>): (r: seq<U>)
    ensures |r| == |s|
    ensures forall i :: 0 <= i < |s| ==> r[i] == f(s[i])
  {
    seq(|s|, i requires 0 <= i < |s| => f(s[i]))
  }

  lemma MapAppend<T, U>(f: T -> U, s: seq<T>, t: seq<T>)
    ensures Map(f, s + t) == Map(f, s) + Map(f, t)
  {
  }

  /** Selecting after mapping is mapping after selecting by the composed test. */
  lemma {:induction false} KeepMap<T(!new), U(!new)>(f: T -> U, s: seq<T>, p: T -> bool, q: U -> bool)
    requires forall x :: x in s ==> p(x) == q(f(x))
    ensures Keep(Map(f, s), q) == Map(f, Keep(s, p))
  {
    if s != [] {
      var n := |s| - 1;
      KeepMap(f, s[..n], p, q);
      assert Map(f, s)[..n] == Map(f, s[..n]);
      MapAppend(f, Keep(s[..n], p), if p(s[n]) then [s[n]] else []);
    }
  }

  function Flatten<T>(ss: seq<seq<T>>): seq<T> {
    if ss == [] then [] else Flatten(ss[..|ss| - 1]) + ss[|ss| - 1]
  }

  function Min(a: int, b: int): int {
    if a < b then a else b
  }

  /** At most n elements, after leaving out the first `from`. */
  function Slice<T>(s: seq<T>, from: nat, n: nat): seq<T> {
    s[Min(from, |s|)..Min(from + n, |s|)]
  }

  ghost predicate IsLeast(k: int, s: set<int>) {
    k in s && forall j :: j in s ==> k <= j
  }

  /** The least of a set, then the rest. */
  function SortedKeys(s: set<int>): (keys: seq<int>) {
    if s == {} then [] else
      HasLeast(s);
      var k :| k in s && forall j :: j in s ==> k <= j;
      [k] + SortedKeys(s - {k})
  }

  lemma {:induction false} HasLeast(s: set<int>)
    requires s != {}
    ensures exists k :: IsLeast(k, s)
  {
    assert (forall a :: a !in s) ==> s == {};
    var a :| a in s;
    var rest := s - {a};
    assert |rest| < |s|;
    if rest == {} {
      assert forall j :: j in s ==> j == a || j in rest;
      assert IsLeast(a, s);
    } else {
      HasLeast(rest);
      var k :| IsLeast(k, rest);
      var m := if a < k then a else k;
      forall j | j in s ensures m <= j {
        if j != a { assert j in rest; }
      }
      assert IsLeast(m, s);
    }
  }

  /** The buckets are printed each once, in ascending order. */
  lemma {:induction false} SortedKeysOf(s: set<int>)
    ensures forall k :: k in SortedKeys(s) <==> k in s
    ensures forall i, j :: 0 <= i < j < |SortedKeys(s)| ==> SortedKeys(s)[i] < SortedKeys(s)[j]
  {
    if s != {} {
      HasLeast(s);
      var keys := SortedKeys(s);
      var rest := SortedKeys(s - {keys[0]});
      assert keys == [keys[0]] + rest && IsLeast(keys[0], s);
      SortedKeysOf(s - {keys[0]});
      hide SortedKeys;
      forall j | 0 <= j < |rest| ensures keys[0] < rest[j] {
        assert rest[j] in rest;
      }
    }
  }
}
