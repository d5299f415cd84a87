/** Byte strings, the byte order of the key-value library, and 32-bit big-endian numbers. */
module Bytes {

  type Byte = b: int | 0 <= b < 256

  const TWO_TO_THE_32: int := 0x1_0000_0000

  type UInt32 = n: int | 0 <= n < TWO_TO_THE_32

  const UINT32_MAX: UInt32 := 0xFFFF_FFFF

  /** Byte-wise comparison; a proper prefix comes before its extensions. */
  predicate Before(a: seq<Byte>, b: seq<Byte>)
    decreases |a|
  {
    && b != []
    && (a == [] || a[0] < b[0] || (a[0] == b[0] && Before(a[1..], b[1..])))
  }

  lemma {:induction false} BeforeIrreflexive(a: seq<Byte>)
    ensures !Before(a, a)
    decreases |a|
  {
    if a != [] {
      BeforeIrreflexive(a[1..]);
    }
  }

  lemma {:induction false} BeforeTransitive(a: seq<Byte>, b: seq<Byte>, c: seq<Byte>)
    requires Before(a, b) && Before(b, c)
    ensures Before(a, c)
    decreases |a|
  {
    if a != [] && a[0] == b[0] == c[0] {
      BeforeTransitive(a[1..], b[1..], c[1..]);
    }
  }

  lemma {:induction false} BeforeTotal(a: seq<Byte>, b: seq<Byte>)
    ensures Before(a, b) || a == b || Before(b, a)
    decreases |a|
  {
    if a != [] && b != [] && a[0] == b[0] {
      BeforeTotal(a[1..], b[1..]);
      assert a == [a[0]] + a[1..] && b == [b[0]] + b[1..];
    }
  }

  lemma BeforeAsymmetric(a: seq<Byte>, b: seq<Byte>)
    requires Before(a, b)
    ensures !Before(b, a) && a != b
  {
    BeforeIrreflexive(a);
    if Before(b, a) {
      BeforeTransitive(a, b, a);
    }
  }

  /** `!Before(b, a)` is the reflexive order; it chains with `Before` on either side. */
  lemma BeforeChain(a: seq<Byte>, b: seq<Byte>, c: seq<Byte>)
    ensures !Before(b, a) && Before(b, c) ==> Before(a, c)
    ensures Before(a, b) && !Before(c, b) ==> Before(a, c)
    ensures !Before(b, a) && !Before(c, b) ==> !Before(c, a)
  {
    BeforeTotal(a, b);
    BeforeTotal(b, c);
    BeforeTotal(a, c);
    if Before(a, b) && Before(b, c) {
      BeforeTransitive(a, b, c);
    }
    if Before(c, a) {
      BeforeIrreflexive(a);
      if Before(a, b) { BeforeTransitive(c, a, b); }
      if Before(b, c) { BeforeTransitive(b, c, a); }
    }
  }

  /** Byte strings with heads of one length compare by the heads first, then by the tails. */
  lemma {:induction false} BeforeByHead(h: seq<Byte>, a: seq<Byte>, k: seq<Byte>, b: seq<Byte>)
    requires |h| == |k|
    ensures Before(h + a, k + b) <==> Before(h, k) || (h == k && Before(a, b))
    decreases |h|
  {
    if h == [] {
      assert h + a == a && k + b == b;
    } else {
      BeforeByHead(h[1..], a, k[1..], b);
      assert (h + a)[1..] == h[1..] + a && (k + b)[1..] == k[1..] + b;
      assert h == [h[0]] + h[1..] && k == [k[0]] + k[1..];
    }
  }

  /** Cutting both strings to their first n bytes keeps the order, up to equality. */
  lemma BeforeTruncated(a: seq<Byte>, b: seq<Byte>, n: nat)
    requires n <= |a| && n <= |b|
    ensures Before(a, b) ==> !Before(b[..n], a[..n])
    ensures Before(a[..n], b[..n]) ==> Before(a, b)
  {
    assert a == a[..n] + a[n..] && b == b[..n] + b[n..];
    BeforeByHead(a[..n], a[n..], b[..n], b[n..]);
    BeforeIrreflexive(a[..n]);
    if Before(b[..n], a[..n]) {
      BeforeAsymmetric(b[..n], a[..n]);
    }
  }

  /** No string comes before one of its prefixes. */
  lemma NotBeforePrefix(k: seq<Byte>, n: nat)
    requires n <= |k|
    ensures !Before(k, k[..n])
  {
    var h := k[..n];
    assert k == h + k[n..] && h == h + [];
    BeforeByHead(h, k[n..], h, []);
    BeforeIrreflexive(h);
  }

  /** `htobe32`: most significant byte first. */
  function ToBE(n: UInt32): (s: seq<Byte>)
    ensures |s| == 4
  {
    [n / 0x100_0000, n / 0x1_0000 % 0x100, n / 0x100 % 0x100, n % 0x100]
  }

  /** `be32toh`. */
  function FromBE(s: seq<Byte>): UInt32
    requires |s| == 4
  {
    s[0] as int * 0x100_0000 + s[1] as int * 0x1_0000 + s[2] as int * 0x100 + s[3] as int
  }

  lemma BERoundTrip(n: UInt32)
    ensures FromBE(ToBE(n)) == n
  {
    var a, b, c := n / 0x100, n / 0x1_0000, n / 0x100_0000;
    assert b == a / 0x100 && c == b / 0x100;
    assert n == a * 0x100 + n % 0x100;
    assert a == b * 0x100 + a % 0x100;
    assert b == c * 0x100 + b % 0x100;
  }

  lemma BEOrder(s: seq<Byte>, t: seq<Byte>)
    requires |s| == |t| == 4
    ensures Before(s, t) <==> FromBE(s) < FromBE(t)
    ensures s == t <==> FromBE(s) == FromBE(t)
  {
    BeforeByHead(s[..1], s[1..], t[..1], t[1..]);
    assert s == s[..1] + s[1..] && t == t[..1] + t[1..];
    var s1, t1 := s[1..], t[1..];
    BeforeByHead(s1[..1], s1[1..], t1[..1], t1[1..]);
    assert s1 == s1[..1] + s1[1..] && t1 == t1[..1] + t1[1..];
    var s2, t2 := s1[1..], t1[1..];
    BeforeByHead(s2[..1], s2[1..], t2[..1], t2[1..]);
    assert s2 == s2[..1] + s2[1..] && t2 == t2[..1] + t2[1..];
    assert s2[1..] == [s[3]] && t2[1..] == [t[3]];
    assert s == [s[0], s[1], s[2], s[3]] && t == [t[0], t[1], t[2], t[3]];
  }
}
