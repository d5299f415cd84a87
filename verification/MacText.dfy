/** MAC addresses as text: the printers and the prefix parser (hostapd-log-entry.cpp). */
module MacText {
  import opened Bytes
  import opened Keys

  const HEX_DIGITS := "0123456789abcdef"

  /** `std::setw(2)` with fill '0' in `std::hex`. */
  function Hex2(b: Byte): (s: string)
    ensures |s| == 2
  {
    [HEX_DIGITS[b / 16], HEX_DIGITS[b % 16]]
  }

  /** `mactostr`: all six bytes. */
  function MacToStr(m: Mac): string {
    Hex2(m[0]) + ":" + Hex2(m[1]) + ":" + Hex2(m[2]) + ":" + Hex2(m[3]) + ":" + Hex2(m[4]) + ":" + Hex2(m[5])
  }

  /** The bytes in two hexadecimal digits each, colons between them. */
  function PrefixText(p: seq<Byte>): (s: string)
    ensures |s| == if p == [] then 0 else 3 * |p| - 1
  {
    if p == [] then "" else if |p| == 1 then Hex2(p[0]) else Hex2(p[0]) + ":" + PrefixText(p[1..])
  }

  /** The stream of `mactostr2`: a colon after every byte. */
  function WithColons(p: seq<Byte>): (s: string)
    ensures |s| == 3 * |p|
  {
    if p == [] then "" else WithColons(p[..|p| - 1]) + Hex2(p[|p| - 1]) + ":"
  }

  lemma {:induction false} WithColonsFront(b: Byte, p: seq<Byte>)
    ensures WithColons([b] + p) == Hex2(b) + ":" + WithColons(p)
  {
    if p == [] {
      assert WithColons([b]) == WithColons([b][..0]) + Hex2(b) + ":";
    } else {
      var init, last := p[..|p| - 1], Hex2(p[|p| - 1]);
      WithColonsFront(b, init);
      assert ([b] + p)[..|p|] == [b] + init;
      var front := Hex2(b) + ":";
      assert (front + WithColons(init)) + last + ":" == front + (WithColons(init) + last + ":");
    }
  }

  lemma {:induction false} WithoutLastColon(p: seq<Byte>)
    requires p != []
    ensures WithColons(p) == PrefixText(p) + ":"
  {
    WithColonsFront(p[0], p[1..]);
    assert p == [p[0]] + p[1..];
    if |p| > 1 {
      WithoutLastColon(p[1..]);
    }
  }

  /** `mactostr2`: the first `size` bytes. */
  method MacToStr2(value: seq<Byte>, size: int) returns (r: string)
    requires size <= |value|
    ensures r == PrefixText(if size <= 0 then [] else value[..size])
  {
    var ss := "";
    var i := 0;
    while i < size
      invariant 0 <= i && (size >= 0 ==> i <= size) && (size < 0 ==> i == 0)
      invariant ss == WithColons(value[..i])
    {
      assert value[..i + 1][..i] == value[..i];
      ss := ss + Hex2(value[i]) + ":";
      i := i + 1;
    }
    r := ss;
    if size > 0 {
      WithoutLastColon(value[..size]);
    }
    if |r| > 1 {
      r := r[..|r| - 1];
    }
  }

  /** Both printers write a whole MAC address alike. */
  lemma {:induction false} PrintersAgree(m: Mac)
    ensures MacToStr(m) == PrefixText(m)
  {
    assert m[1..][1..] == m[2..] && m[2..][1..] == m[3..] && m[3..][1..] == m[4..] && m[4..][1..] == m[5..];
    var t5 := PrefixText(m[5..]);
    assert t5 == Hex2(m[5]);
    var t4 := PrefixText(m[4..]);
    assert t4 == Hex2(m[4]) + ":" + t5;
    var t3 := PrefixText(m[3..]);
    assert t3 == Hex2(m[3]) + ":" + t4;
    var t2 := PrefixText(m[2..]);
    assert t2 == Hex2(m[2]) + ":" + t3;
    var t1 := PrefixText(m[1..]);
    assert t1 == Hex2(m[1]) + ":" + t2;
    assert PrefixText(m) == Hex2(m[0]) + ":" + t1;
  }

  lemma Hex2Injective(a: Byte, b: Byte)
    ensures Hex2(a) == Hex2(b) <==> a == b
  {
    assert forall i, j :: 0 <= i < j < 16 ==> HEX_DIGITS[i] != HEX_DIGITS[j];
    if Hex2(a) == Hex2(b) {
      assert Hex2(a)[0] == HEX_DIGITS[a / 16] && Hex2(b)[0] == HEX_DIGITS[b / 16];
      assert Hex2(a)[1] == HEX_DIGITS[a % 16] && Hex2(b)[1] == HEX_DIGITS[b % 16];
      assert a == a / 16 * 16 + a % 16 && b == b / 16 * 16 + b % 16;
    }
  }

  /**
    The text of a byte string is a prefix of the text of a longer or equal one exactly when its
    bytes are a prefix of the other's bytes.
   */
  lemma {:induction false} TextPrefix(p: seq<Byte>, m: seq<Byte>)
    requires |p| <= |m|
    ensures PrefixText(p) <= PrefixText(m) <==> p <= m
  {
    if p != [] {
      var s, t := PrefixText(p), PrefixText(m);
      Hex2Injective(p[0], m[0]);
      TextPrefix(p[1..], m[1..]);
      assert s[..2] == Hex2(p[0]) && t[..2] == Hex2(m[0]);
      assert p == [p[0]] + p[1..] && m == [m[0]] + m[1..];
      if |p| > 1 {
        assert s == s[..2] + ":" + s[3..] && s[3..] == PrefixText(p[1..]);
        assert t == t[..2] + ":" + t[3..] && t[3..] == PrefixText(m[1..]);
        assert s <= t ==> s[3..] <= t[3..] && s[..2] == t[..2];
        assert s[..2] == t[..2] && s[3..] <= t[3..] ==> s <= t;
      } else {
        assert s == s[..2];
        assert s <= t <==> s == t[..2];
      }
    }
  }

  // ---- The parser ------------------------------------------------------------------------

  predicate IsSpace(c: char) {
    c == ' ' || '\t' <= c <= '\r'
  }

  function SkipSpace(s: string): (t: string)
    ensures |t| <= |s|
  {
    if s != "" && IsSpace(s[0]) then SkipSpace(s[1..]) else s
  }

  predicate IsHex(c: char) {
    '0' <= c <= '9' || 'a' <= c <= 'f' || 'A' <= c <= 'F'
  }

  function HexValue(c: char): (n: int)
    requires IsHex(c)
    ensures 0 <= n < 16
  {
    if c <= '9' then c as int - '0' as int
    else if c <= 'F' then c as int - 'A' as int + 10
    else c as int - 'a' as int + 10
  }

  datatype Conversion = NoMatch | Match(value: Byte, rest: string)

  /**
    One `%02x` conversion of at most two characters after white space (section 7.21.6.2 of
    ISO/IEC 9899:2011), cut to eight bits: one or two digits, or a sign and a digit.  A base
    prefix "0x" fills the width and leaves no digit, so it does not match.
   */
  function Convert(s: string): Conversion {
    var t := SkipSpace(s);
    if t == "" then NoMatch
    else if t[0] == '+' || t[0] == '-' then
      if |t| == 1 || !IsHex(t[1]) then NoMatch
      else if t[0] == '+' then Match(HexValue(t[1]), t[2..])
      else Match((0x100 - HexValue(t[1])) % 0x100, t[2..])
    else if !IsHex(t[0]) then NoMatch
    else if |t| == 1 then Match(HexValue(t[0]), "")
    else if t[0] == '0' && (t[1] == 'x' || t[1] == 'X') then NoMatch
    else if !IsHex(t[1]) then Match(HexValue(t[0]), t[1..])
    else Match(HexValue(t[0]) * 16 + HexValue(t[1]), t[2..])
  }

  /** The values converted by n conversions separated by colons. */
  function Scan(s: string, n: nat): (v: seq<Byte>)
    ensures |v| <= n
    decreases n
  {
    if n == 0 then [] else
      match Convert(s)
      case NoMatch => []
      case Match(b, rest) => [b] + if rest != "" && rest[0] == ':' then Scan(rest[1..], n - 1) else []
  }

  function Zeros(n: nat): seq<Byte> {
    seq(n, i => 0)
  }

  /** The number of conversions; -1 when the text ends before the first one. */
  function ScanCount(s: string): int {
    if SkipSpace(s) == "" then -1 else |Scan(s, 6)|
  }

  /** The parser gives a negative number exactly for a blank text. */
  lemma {:induction false} BlankText(s: string)
    ensures ScanCount(s) < 0 <==> forall i :: 0 <= i < |s| ==> IsSpace(s[i])
  {
    AllSpace(s);
  }

  lemma {:induction false} AllSpace(s: string)
    ensures SkipSpace(s) == "" <==> forall i :: 0 <= i < |s| ==> IsSpace(s[i])
  {
    if s != "" {
      AllSpace(s[1..]);
      assert s == [s[0]] + s[1..];
    }
  }

  /** The bytes read, filled up with zeros. */
  function ScanMac(s: string): (m: Mac) {
    Scan(s, 6) + Zeros(6 - |Scan(s, 6)|)
  }

  lemma ConvertPrinted(b: Byte, rest: string)
    ensures Convert(Hex2(b) + rest) == Match(b, rest)
  {
    var s := Hex2(b) + rest;
    assert s[0] == HEX_DIGITS[b / 16] && s[1] == HEX_DIGITS[b % 16];
    DigitValue(b / 16);
    DigitValue(b % 16);
    assert SkipSpace(s) == s;
    assert s[2..] == rest;
    assert b == b / 16 * 16 + b % 16;
  }

  lemma DigitValue(n: nat)
    requires n < 16
    ensures var c := HEX_DIGITS[n]; IsHex(c) && HexValue(c) == n && !IsSpace(c) && c != 'x' && c != 'X' && c != '+' && c != '-'
  {
    assert HEX_DIGITS[0] == '0' && HEX_DIGITS[1] == '1' && HEX_DIGITS[2] == '2' && HEX_DIGITS[3] == '3';
    assert HEX_DIGITS[4] == '4' && HEX_DIGITS[5] == '5' && HEX_DIGITS[6] == '6' && HEX_DIGITS[7] == '7';
    assert HEX_DIGITS[8] == '8' && HEX_DIGITS[9] == '9' && HEX_DIGITS[10] == 'a' && HEX_DIGITS[11] == 'b';
    assert HEX_DIGITS[12] == 'c' && HEX_DIGITS[13] == 'd' && HEX_DIGITS[14] == 'e' && HEX_DIGITS[15] == 'f';
  }

  lemma {:induction false} ScanPrinted(p: seq<Byte>, n: nat)
    requires |p| <= n
    ensures Scan(PrefixText(p), n) == p
  {
    hide Convert, Hex2;
    if p == [] {
      assert Convert("") == NoMatch by { ConvertNothing(); }
    } else {
      var text := PrefixText(p);
      var rest := text[2..];
      assert text == Hex2(p[0]) + rest;
      ConvertPrinted(p[0], rest);
      if |p| > 1 {
        ScanPrinted(p[1..], n - 1);
        assert rest[0] == ':' && rest[1..] == PrefixText(p[1..]);
      }
    }
  }

  lemma ConvertNothing()
    ensures Convert("") == NoMatch
  {
  }

  /** Parsing what the printers print for n bytes reads those n bytes; the empty text reads as an end of input. */
  lemma {:induction false} TextRoundTrip(p: Prefix)
    ensures Scan(PrefixText(p), 6) == p
    ensures ScanCount(PrefixText(p)) == if p == [] then -1 else |p|
  {
    ScanPrinted(p, 6);
    if p != [] {
      DigitValue(p[0] / 16);
      assert PrefixText(p)[0] == Hex2(p[0])[0] == HEX_DIGITS[p[0] / 16];
    }
  }

  // ---- What a text writes --------------------------------------------------------------------

  /** The digit of n, in either case. */
  predicate HexDigit(c: char, n: int) {
    0 <= n < 16 && ("0123456789abcdef"[n] == c || "0123456789ABCDEF"[n] == c)
  }

  lemma {:induction false} HexMeaning(c: char, n: int)
    ensures HexDigit(c, n) <==> IsHex(c) && HexValue(c) == n
  {
    if 0 <= n < 16 {
      assert "0123456789abcdef"[0] == '0' && "0123456789abcdef"[9] == '9' && "0123456789abcdef"[10] == 'a';
      assert "0123456789abcdef"[n] as int == if n < 10 then '0' as int + n else 'a' as int + n - 10;
      assert "0123456789ABCDEF"[n] as int == if n < 10 then '0' as int + n else 'A' as int + n - 10;
    }
  }

  /** A group: two digits, a single one, or a sign and a digit; the negative of a byte is taken modulo 256. */
  predicate Group(g: string, b: Byte) {
    || (|g| == 2 && HexDigit(g[0], b / 16) && HexDigit(g[1], b % 16))
    || (|g| == 1 && HexDigit(g[0], b as int))
    || (|g| == 2 && g[0] == '+' && HexDigit(g[1], b as int))
    || (|g| == 2 && g[0] == '-' && HexDigit(g[1], (0x100 - b) % 0x100))
  }

  /** Nothing of what follows belongs to the group: it has two characters, or no digit, nor the x of a base prefix, follows. */
  predicate GroupEnds(g: string, rest: string) {
    |g| == 2 || rest == "" || !(IsHex(rest[0]) || (g == "0" && rest[0] in "xX"))
  }

  predicate AllSpaces(s: string) {
    forall i :: 0 <= i < |s| ==> IsSpace(s[i])
  }

  lemma {:induction false} SpacesSkipped(w: string, s: string)
    requires AllSpaces(w) && (s == "" || !IsSpace(s[0]))
    ensures SkipSpace(w + s) == s
  {
    if w == "" {
      assert w + s == s;
    } else {
      assert (w + s)[1..] == w[1..] + s;
      SpacesSkipped(w[1..], s);
    }
  }

  lemma {:induction false} SkippedSpaces(s: string) returns (w: string)
    ensures s == w + SkipSpace(s) && AllSpaces(w) && (SkipSpace(s) == "" || !IsSpace(SkipSpace(s)[0]))
  {
    if s != "" && IsSpace(s[0]) {
      var v := SkippedSpaces(s[1..]);
      w := [s[0]] + v;
    } else {
      w := "";
    }
  }

  /** Any group reads as its byte, after any white space and before anything that is not of it. */
  lemma {:induction false} ConvertReads(w: string, g: string, rest: string, b: Byte)
    requires AllSpaces(w) && Group(g, b) && GroupEnds(g, rest)
    ensures Convert(w + (g + rest)) == Match(b, rest)
  {
    hide HexDigit, HexValue, SkipSpace;
    var t := g + rest;
    HexMeaning(g[0], b / 16);
    HexMeaning(g[0], b as int);
    HexMeaning(g[|g| - 1], b % 16);
    HexMeaning(g[|g| - 1], b as int);
    HexMeaning(g[|g| - 1], (0x100 - b) % 0x100);
    SpacesSkipped(w, t);
    assert t[0] == g[0] && t[|g|..] == rest && (|g| == 2 ==> t[1] == g[1]);
    assert |g| == 1 && rest != "" ==> t[1] == rest[0];
    if |g| == 1 {
      ZeroDigit(g);
    }
  }

  lemma ZeroDigit(g: string)
    requires |g| == 1
    ensures g[0] == '0' <==> g == "0"
  {
  }

  /** And whatever is read is a group. */
  lemma {:induction false} ConvertMeans(s: string) returns (w: string, g: string)
    requires Convert(s).Match?
    ensures var m := Convert(s);
            s == w + (g + m.rest) && AllSpaces(w) && Group(g, m.value) && GroupEnds(g, m.rest)
  {
    hide HexDigit, HexValue, IsHex, SkipSpace;
    w := SkippedSpaces(s);
    var t, rest := SkipSpace(s), Convert(s).rest;
    g := t[..|t| - |rest|];
    assert t == g + rest;
    if |g| == 1 {
      OneDigit(t[0]);
    } else if t[0] == '+' || t[0] == '-' {
      OneDigit(t[1]);
    } else {
      TwoDigits(t[0], t[1]);
    }
  }

  lemma OneDigit(c: char)
    requires IsHex(c)
    ensures HexDigit(c, HexValue(c)) && HexDigit(c, (0x100 - (0x100 - HexValue(c)) % 0x100) % 0x100)
  {
    HexMeaning(c, HexValue(c));
    assert (0x100 - (0x100 - HexValue(c)) % 0x100) % 0x100 == HexValue(c);
  }

  lemma TwoDigits(c: char, d: char)
    requires IsHex(c) && IsHex(d)
    ensures var b := HexValue(c) * 16 + HexValue(d);
            HexDigit(c, b / 16) && HexDigit(d, b % 16)
  {
    hide HexDigit, HexValue, IsHex;
    HexMeaning(c, HexValue(c));
    HexMeaning(d, HexValue(d));
    Halves(HexValue(c), HexValue(d));
  }

  lemma Halves(n: nat, k: nat)
    requires k < 16
    ensures (n * 16 + k) / 16 == n && (n * 16 + k) % 16 == k
  {
  }

  /** The text writes the bytes: a group for each, white space before it, a colon after all but the last. */
  ghost predicate WrittenAs(s: string, p: seq<Byte>)
    decreases |p|
  {
    if p == [] then s == "" else
      exists w: string, g: string, rest: string :: StartsWith(s, w, g, rest, p[0])
        && if |p| == 1 then rest == "" else rest != "" && rest[0] == ':' && WrittenAs(rest[1..], p[1..])
  }

  predicate StartsWith(s: string, w: string, g: string, rest: string, b: Byte) {
    s == w + (g + rest) && AllSpaces(w) && Group(g, b)
  }

  /** A text that writes at most n bytes reads as those bytes. */
  lemma {:induction false} WrittenIsRead(s: string, p: seq<Byte>, n: nat)
    requires WrittenAs(s, p) && |p| <= n
    ensures Scan(s, n) == p
    ensures p != [] ==> SkipSpace(s) != ""
    decreases n
  {
    hide Group, AllSpaces, Convert;
    if p == [] {
      ConvertNothing();
    } else {
      var w: string, g: string, rest: string :| StartsWith(s, w, g, rest, p[0])
        && if |p| == 1 then rest == "" else rest != "" && rest[0] == ':' && WrittenAs(rest[1..], p[1..]);
      GroupThenColon(g, rest, p[0]);
      ConvertReads(w, g, rest, p[0]);
      MatchNotBlank(s);
      if |p| > 1 {
        WrittenIsRead(rest[1..], p[1..], n - 1);
      }
      assert p == [p[0]] + p[1..];
    }
  }

  lemma GroupThenColon(g: string, rest: string, b: Byte)
    requires Group(g, b) && (rest == "" || rest[0] == ':')
    ensures GroupEnds(g, rest)
  {
  }

  lemma MatchNotBlank(s: string)
    ensures Convert(s).Match? ==> SkipSpace(s) != ""
  {
  }

  /** The bytes that are read are written by a first part of the text. */
  lemma {:induction false} ReadIsWritten(s: string, n: nat) returns (k: nat)
    ensures k <= |s| && WrittenAs(s[..k], Scan(s, n))
    decreases n
  {
    hide Group, AllSpaces, Convert, GroupEnds;
    k := 0;
    if n > 0 && Convert(s).Match? {
      var w, g := ConvertMeans(s);
      var b, rest := Convert(s).value, Convert(s).rest;
      var v := Scan(s, n);
      if rest != "" && rest[0] == ':' && Scan(rest[1..], n - 1) != [] {
        var more := ReadIsWritten(rest[1..], n - 1);
        k := |w| + |g| + 1 + more;
        assert s[..k] == w + (g + rest[..1 + more]) && rest[..1 + more][1..] == rest[1..][..more];
        assert v[1..] == Scan(rest[1..], n - 1);
        assert StartsWith(s[..k], w, g, rest[..1 + more], v[0]);
      } else {
        k := |w| + |g|;
        assert s[..k] == w + (g + "") && v == [b];
        assert StartsWith(s[..k], w, g, "", v[0]);
      }
    }
  }

  /** What the printers print is such a text. */
  lemma {:induction false} PrintedIsWritten(p: seq<Byte>)
    ensures WrittenAs(PrefixText(p), p)
  {
    hide HexDigit;
    if p != [] {
      var text, g := PrefixText(p), Hex2(p[0]);
      var rest := text[2..];
      HexDigitOf(p[0] / 16);
      HexDigitOf(p[0] % 16);
      assert text == "" + (g + rest) && AllSpaces("");
      if |p| > 1 {
        PrintedIsWritten(p[1..]);
        assert rest[0] == ':' && rest[1..] == PrefixText(p[1..]);
      }
      assert StartsWith(text, "", g, rest, p[0]);
    }
  }

  lemma HexDigitOf(n: nat)
    requires n < 16
    ensures HexDigit(HEX_DIGITS[n], n)
  {
  }

  /** For instance, a printed address, */
  lemma PrintedExample()
    ensures MacToStr([0x00, 0x0c, 0xe7, 0x35, 0xf8, 0x07]) == "00:0c:e7:35:f8:07"
  {
  }

  /** and a prefix of single digits and capitals. */
  lemma ShortGroups()
    ensures Scan("2:0:A", 6) == [0x02, 0x00, 0x0a]
  {
    FirstGroup("2:0:A", "2", 2);
    FirstGroup("0:A", "0", 0);
    FirstGroup("A", "A", 10);
    assert "2:0:A"[1..] == ":0:A" && ":0:A"[1..] == "0:A" && "0:A"[1..] == ":A" && ":A"[1..] == "A";
    hide Convert;
    assert Scan("A", 4) == [10];
    assert Scan("0:A", 5) == [0] + Scan("A", 4);
  }

  lemma FirstGroup(s: string, g: string, b: Byte)
    requires |g| == 1 && g <= s && Group(g, b) && (|s| == 1 || s[1] == ':')
    ensures Convert(s) == Match(b, s[1..])
  {
    assert s == "" + (g + s[1..]);
    ConvertReads("", g, s[1..], b);
  }

  /**
    What the parser is for: of a text that writes a prefix, in either case and with one or two digits each, it
    reads the bytes and their number; what it reads is written by a first part of the text; what it does
    not read is zero; its result is negative for a blank text and for no other.
   */
  ghost predicate Parsed(value: string, c: int, m: Mac) {
    && (forall p: Prefix :: WrittenAs(value, p) ==> m[..|p|] == p && c == if p == [] then -1 else |p|)
    && c <= 6 && (exists k :: 0 <= k <= |value| && WrittenAs(value[..k], m[..if c < 0 then 0 else c]))
    && (forall i :: 0 <= i < 6 && c <= i ==> m[i] == 0)
    && (c < 0 <==> forall i :: 0 <= i < |value| ==> IsSpace(value[i]))
  }

  /** `strtomacaddress` */
  method StrToMacAddress(retval: array<Byte>, value: string) returns (c: int)
    requires retval.Length == 6
    modifies retval
    ensures c == ScanCount(value) && retval[..] == ScanMac(value)
    ensures Parsed(value, c, retval[..])
  {
    hide Parsed, ScanMac, ScanCount;
    var v := ScanMac(value);
    retval[0] := v[0];
    retval[1] := v[1];
    retval[2] := v[2];
    retval[3] := v[3];
    retval[4] := v[4];
    retval[5] := v[5];
    c := ScanCount(value);
    assert retval[..] == v;
    ParsedSo(value);
  }

  lemma ParsedSo(value: string)
    ensures Parsed(value, ScanCount(value), ScanMac(value))
  {
    hide WrittenAs, Convert, IsSpace;
    var v, c := ScanMac(value), ScanCount(value);
    BlankText(value);
    NothingRead(value);
    var k := ReadIsWritten(value, 6);
    assert v[..if c < 0 then 0 else c] == Scan(value, 6);
    forall p: Prefix | WrittenAs(value, p)
      ensures v[..|p|] == p && c == if p == [] then -1 else |p|
    {
      WrittenIsRead(value, p, 6);
      NothingWritten(value, p);
    }
  }

  lemma NothingWritten(s: string, p: seq<Byte>)
    requires WrittenAs(s, p)
    ensures p == [] ==> s == ""
  {
  }

  lemma NothingRead(s: string)
    ensures ScanCount(s) < 0 ==> Scan(s, 6) == []
  {
  }

  // ---- Numbers ---------------------------------------------------------------------------

  /** A number in decimal, as a stream prints it. */
  function Dec(n: int): string
    decreases n < 0, if n < 0 then -n else n
  {
    if n < 0 then "-" + Dec(-n)
    else if n < 10 then ["0123456789"[n]]
    else Dec(n / 10) + ["0123456789"[n % 10]]
  }
}
