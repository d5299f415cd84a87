/**
  Keys of the three record families kept in one ordered map: 'L' (log, by MAC and time),
  'P' (last probe, by MAC) and 'T' (notification, by MAC).
 */
module Keys {
  import opened Bytes

  const TAG_LOG: Byte := 76    // 'L'
  const TAG_PROBE: Byte := 80  // 'P'
  const TAG_NOTE: Byte := 84   // 'T'

  type Mac = m: seq<Byte> | |m| == 6 witness [0, 0, 0, 0, 0, 0]

  /** The first bytes of a MAC address; a scan without a MAC filter uses the empty one. */
  type Prefix = p: seq<Byte> | |p| <= 6

  /** Seconds since the Unix epoch, as the 32 bits the key holds. */
  type Time = UInt32

  const LOG_KEY_SIZE := 16
  const PROBE_KEY_SIZE := 7

  /** `struct LogKey`: tag, MAC, a padding byte, then a 64-bit field holding `htobe32` of the time. */
  function LogKey(sa: Mac, dt: Time): (k: seq<Byte>)
    ensures |k| == LOG_KEY_SIZE
  {
    [TAG_LOG] + sa + [0] + ToBE(dt) + [0, 0, 0, 0]
  }

  /** `struct LastProbeKey` tagged 'P'. */
  function ProbeKey(sa: Mac): (k: seq<Byte>)
    ensures |k| == PROBE_KEY_SIZE
  {
    [TAG_PROBE] + sa
  }

  /** A notification key is written with the size of `LogKey`; its last nine bytes are whatever follows in memory. */
  function NoteKey(sa: Mac, tail: seq<Byte>): (k: seq<Byte>)
    requires |tail| == 9
    ensures |k| == LOG_KEY_SIZE
  {
    [TAG_NOTE] + sa + tail
  }

  function KeySa(k: seq<Byte>): Mac
    requires |k| >= 7
  {
    k[1..7]
  }

  function KeyTime(k: seq<Byte>): Time
    requires |k| >= 12
  {
    FromBE(k[8..12])
  }

  predicate IsLogKey(k: seq<Byte>) {
    |k| == LOG_KEY_SIZE && k[0] == TAG_LOG && k[7] == 0 && k[12..] == [0, 0, 0, 0]
  }

  predicate IsProbeKey(k: seq<Byte>) {
    |k| == PROBE_KEY_SIZE && k[0] == TAG_PROBE
  }

  predicate IsNoteKey(k: seq<Byte>) {
    |k| == LOG_KEY_SIZE && k[0] == TAG_NOTE
  }

  /** The MAC of the key starts with the prefix: `memcmp(key1.sa, sa, sz) == 0`. */
  predicate HasPrefix(k: seq<Byte>, p: Prefix)
    requires |k| >= 7
  {
    k[1..1 + |p|] == p
  }

  /** Every log key decodes, and decoding inverts encoding. */
  lemma {:induction false} LogKeyRoundTrip(sa: Mac, dt: Time)
    ensures IsLogKey(LogKey(sa, dt))
    ensures KeySa(LogKey(sa, dt)) == sa && KeyTime(LogKey(sa, dt)) == dt
  {
    var k := LogKey(sa, dt);
    assert k[8..12] == ToBE(dt);
    BERoundTrip(dt);
  }

  lemma BEInjective(s: seq<Byte>)
    requires |s| == 4
    ensures ToBE(FromBE(s)) == s
  {
    BERoundTrip(FromBE(s));
    BEOrder(ToBE(FromBE(s)), s);
  }

  lemma {:induction false} LogKeyDecodes(k: seq<Byte>)
    requires IsLogKey(k)
    ensures k == LogKey(KeySa(k), KeyTime(k))
  {
    BEInjective(k[8..12]);
    assert k == k[..1] + k[1..7] + k[7..8] + k[8..12] + k[12..];
  }

  /** The byte order of log keys is the order of (MAC, time). */
  lemma {:induction false} LogKeyOrder(m: Mac, s: Time, n: Mac, t: Time)
    ensures Before(LogKey(m, s), LogKey(n, t)) <==> Before(m, n) || (m == n && s < t)
    ensures LogKey(m, s) == LogKey(n, t) <==> m == n && s == t
  {
    var z: seq<Byte> := [0, 0, 0, 0];
    BeforeByHead([TAG_LOG] + m + [0], ToBE(s) + z, [TAG_LOG] + n + [0], ToBE(t) + z);
    assert LogKey(m, s) == ([TAG_LOG] + m + [0]) + (ToBE(s) + z);
    assert LogKey(n, t) == ([TAG_LOG] + n + [0]) + (ToBE(t) + z);
    BeforeByHead([TAG_LOG], m + [0], [TAG_LOG], n + [0]);
    assert [TAG_LOG] + m + [0] == [TAG_LOG] + (m + [0]);
    assert [TAG_LOG] + n + [0] == [TAG_LOG] + (n + [0]);
    BeforeByHead(m, [0], n, [0]);
    BeforeIrreflexive([0]);
    BeforeIrreflexive([TAG_LOG]);
    BeforeByHead(ToBE(s), z, ToBE(t), z);
    BeforeIrreflexive(z);
    BEOrder(ToBE(s), ToBE(t));
    BERoundTrip(s);
    BERoundTrip(t);
    LogKeyRoundTrip(m, s);
    LogKeyRoundTrip(n, t);
    assert m == n ==> [TAG_LOG] + m + [0] == [TAG_LOG] + n + [0];
    assert ([TAG_LOG] + m + [0])[1..7] == m && ([TAG_LOG] + n + [0])[1..7] == n;
  }

  /** Families follow each other: every 'L' key precedes every 'P' key, and those every 'T' key. */
  lemma {:induction false} TagOrder(a: seq<Byte>, b: seq<Byte>)
    requires a != [] && b != []
    ensures Before(a, b) ==> a[0] <= b[0]
    ensures a[0] < b[0] ==> Before(a, b)
  {
  }

  /** The first key of the block of a tag and a MAC prefix. */
  function BlockKey(tag: Byte, p: Prefix): (k: seq<Byte>)
    ensures |k| == 1 + |p|
  {
    [tag] + p
  }

  predicate InBlock(k: seq<Byte>, tag: Byte, p: Prefix)
  {
    |k| >= 7 && k[..1 + |p|] == BlockKey(tag, p)
  }

  lemma InBlockParts(k: seq<Byte>, tag: Byte, p: Prefix)
    requires |k| >= 7
    ensures InBlock(k, tag, p) <==> k[0] == tag && HasPrefix(k, p)
  {
    assert k[..1 + |p|] == [k[0]] + k[1..1 + |p|];
  }

  /**
    For every prefix the keys with one tag and that MAC prefix form one contiguous block
    that begins at the seek key.
   */
  lemma {:induction false} BlockContiguous(tag: Byte, p: Prefix, a: seq<Byte>, b: seq<Byte>, c: seq<Byte>)
    requires |b| >= 7 && InBlock(a, tag, p) && InBlock(c, tag, p)
    requires !Before(b, a) && !Before(c, b)
    ensures InBlock(b, tag, p) && !Before(a, BlockKey(tag, p))
  {
    var n := 1 + |p|;
    NotBeforePrefix(a, n);
    BeforeTotal(a, b);
    BeforeTotal(b, c);
    BeforeTruncated(a, b, n);
    BeforeTruncated(b, c, n);
    BeforeTotal(a[..n], b[..n]);
  }

  /** Once a scan that began at the block's seek key has left the block, no later key is in it. */
  lemma {:induction false} PastBlock(tag: Byte, p: Prefix, seek: seq<Byte>, a: seq<Byte>, b: seq<Byte>)
    requires |seek| >= 1 + |p| && seek[..1 + |p|] == BlockKey(tag, p)
    requires |a| >= 7 && !Before(a, seek) && !InBlock(a, tag, p) && Before(a, b)
    ensures !InBlock(b, tag, p)
  {
    var n := 1 + |p|;
    if InBlock(b, tag, p) {
      BeforeTruncated(a, b, n);
      BeforeTruncated(a, seek, n);
      BeforeTotal(a[..n], seek[..n]);
      assert false;
    }
  }
}
