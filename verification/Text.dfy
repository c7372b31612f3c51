/** Decimal numerals, .NET white space, GUID text and the approval fingerprint. */
module Text {

  // ---------------------------------------------------------------- numerals

  predicate IsDigit(c: char) {
    '0' <= c <= '9'
  }

  predicate AllDigits(s: string) {
    forall i :: 0 <= i < |s| ==> IsDigit(s[i])
  }

  function DigitChar(d: nat): (c: char)
    requires d < 10
    ensures IsDigit(c) && DigitValue(c) == d
  {
    (d + 48) as char
  }

  function DigitValue(c: char): nat
    requires IsDigit(c)
  {
    c as int - 48
  }

  /** Shortest decimal numeral of n. */
  function NatText(n: nat): (s: string)
    ensures |s| > 0 && AllDigits(s)
    ensures s[0] == '0' ==> s == "0"
  {
    if n < 10 then [DigitChar(n)] else NatText(n / 10) + [DigitChar(n % 10)]
  }

  function NatValue(s: string): nat
    requires AllDigits(s)
  {
    if s == "" then 0 else NatValue(s[..|s| - 1]) * 10 + DigitValue(s[|s| - 1])
  }

  lemma {:induction false} NatTextRoundTrip(n: nat)
    ensures NatValue(NatText(n)) == n
    ensures NatText(n) == "0" <==> n == 0
  {
    if n >= 10 {
      NatTextRoundTrip(n / 10);
      var s := NatText(n);
      assert s[..|s| - 1] == NatText(n / 10);
    } else {
      assert NatText(n)[..0] == "";
    }
  }

  /** How many digits a text starts with. */
  function DigitCount(s: string): (n: nat)
    ensures n <= |s| && AllDigits(s[..n])
    ensures n < |s| ==> !IsDigit(s[n])
  {
    if s != "" && IsDigit(s[0]) then
      var n := DigitCount(s[1..]);
      assert s[..n + 1] == [s[0]] + s[1..][..n];
      n + 1
    else 0
  }

  lemma {:induction false} DigitCountStops(digits: string, rest: string)
    requires AllDigits(digits) && (rest == "" || !IsDigit(rest[0]))
    ensures DigitCount(digits + rest) == |digits|
  {
    if digits == "" {
      assert digits + rest == rest;
    } else {
      DigitCountStops(digits[1..], rest);
      assert (digits + rest)[1..] == digits[1..] + rest;
    }
  }

  function IntText(n: int): (s: string)
    ensures |s| > 0
    ensures forall i :: 0 <= i < |s| ==> IsDigit(s[i]) || s[i] == '-'
  {
    if n < 0 then "-" + NatText(-n) else NatText(n)
  }

  lemma IntTextInjective(a: int, b: int)
    requires IntText(a) == IntText(b)
    ensures a == b
  {
    NatTextRoundTrip(if a < 0 then -a else a);
    NatTextRoundTrip(if b < 0 then -b else b);
    if a < 0 {
      assert IntText(a)[0] == '-';
      assert IntText(a)[1..] == NatText(-a);
      assert b < 0;
      assert IntText(b)[1..] == NatText(-b);
    } else {
      assert IsDigit(IntText(a)[0]);
      assert b >= 0;
    }
  }

  // ------------------------------------------------------------- white space

  /** The characters .NET's Char.IsWhiteSpace accepts. */
  predicate IsSpace(c: char) {
    var n := c as int;
    || 0x09 <= n <= 0x0D || n == 0x20 || n == 0x85 || n == 0xA0 || n == 0x1680
    || 0x2000 <= n <= 0x200A || n == 0x2028 || n == 0x2029 || n == 0x202F
    || n == 0x205F || n == 0x3000
  }

  predicate IsBlank(s: string) {
    forall i :: 0 <= i < |s| ==> IsSpace(s[i])
  }

  function TrimStart(s: string): string {
    if s != "" && IsSpace(s[0]) then TrimStart(s[1..]) else s
  }

  function TrimEnd(s: string): string {
    if s != "" && IsSpace(s[|s| - 1]) then TrimEnd(s[..|s| - 1]) else s
  }

  function Trim(s: string): string {
    TrimEnd(TrimStart(s))
  }

  /** Trimming leaves no outer white space, and a text is blank exactly when it trims to nothing. */
  lemma {:induction false} TrimStartBlank(s: string)
    ensures TrimStart(s) == "" <==> IsBlank(s)
    ensures TrimStart(s) != "" ==> !IsSpace(TrimStart(s)[0])
    decreases |s|
  {
    if s != "" && IsSpace(s[0]) {
      TrimStartBlank(s[1..]);
      assert s == [s[0]] + s[1..];
    }
  }

  lemma {:induction false} TrimEndKeepsHead(s: string)
    requires s != "" && !IsSpace(s[0])
    ensures TrimEnd(s) != "" && TrimEnd(s)[0] == s[0] && !IsSpace(TrimEnd(s)[|TrimEnd(s)| - 1])
    decreases |s|
  {
    if IsSpace(s[|s| - 1]) {
      TrimEndKeepsHead(s[..|s| - 1]);
    }
  }

  lemma TrimBlank(s: string)
    ensures Trim(s) == "" <==> IsBlank(s)
    ensures IsBlank(Trim(s)) <==> Trim(s) == ""
  {
    TrimStartBlank(s);
    if TrimStart(s) != "" {
      TrimEndKeepsHead(TrimStart(s));
    }
  }

  // -------------------------------------------------------------------- GUIDs

  /** A 128-bit identifier. */
  type Guid = n: nat | n < 0x1_0000_0000_0000_0000_0000_0000_0000_0000

  const EMPTY_GUID: Guid := 0

  function HexChar(d: nat): (c: char)
    requires d < 16
    ensures c != ':'
  {
    if d < 10 then (d + 48) as char else (d + 87) as char
  }

  /** The low `width` hexadecimal digits of n, most significant first. */
  function HexText(n: nat, width: nat): (s: string)
    ensures |s| == width
  {
    if width == 0 then "" else HexText(n / 16, width - 1) + [HexChar(n % 16)]
  }

  function Power16(width: nat): nat {
    if width == 0 then 1 else 16 * Power16(width - 1)
  }

  lemma {:induction false} HexTextInjective(a: nat, b: nat, width: nat)
    requires a < Power16(width) && b < Power16(width)
    requires HexText(a, width) == HexText(b, width)
    ensures a == b
  {
    if width > 0 {
      var s, t := HexText(a, width), HexText(b, width);
      assert s[..width - 1] == HexText(a / 16, width - 1) && t[..width - 1] == HexText(b / 16, width - 1);
      assert s[width - 1] == HexChar(a % 16) && t[width - 1] == HexChar(b % 16);
      HexTextInjective(a / 16, b / 16, width - 1);
    }
  }

  /** The "D" format: 8-4-4-4-12 hexadecimal digits. */
  function GuidText(g: Guid): (s: string)
    ensures |s| == 36
  {
    var h := HexText(g, 32);
    h[..8] + "-" + h[8..12] + "-" + h[12..16] + "-" + h[16..20] + "-" + h[20..]
  }

  lemma GuidTextInjective(a: Guid, b: Guid)
    requires GuidText(a) == GuidText(b)
    ensures a == b
  {
    var s, t := GuidText(a), GuidText(b);
    var h, k := HexText(a, 32), HexText(b, 32);
    assert s[..8] == h[..8] && t[..8] == k[..8];
    assert s[9..13] == h[8..12] && t[9..13] == k[8..12];
    assert s[14..18] == h[12..16] && t[14..18] == k[12..16];
    assert s[19..23] == h[16..20] && t[19..23] == k[16..20];
    assert s[24..] == h[20..] && t[24..] == k[20..];
    assert h == h[..8] + h[8..12] + h[12..16] + h[16..20] + h[20..];
    assert k == k[..8] + k[8..12] + k[12..16] + k[16..20] + k[20..];
    Power32();
    HexTextInjective(a, b, 32);
  }

  lemma Power32()
    ensures Power16(32) == 0x1_0000_0000_0000_0000_0000_0000_0000_0000
  {
    assert Power16(8) == 0x1_0000_0000;
    assert Power16(16) == 0x1_0000_0000_0000_0000;
    assert Power16(24) == 0x1_0000_0000_0000_0000_0000_0000;
  }

  // ------------------------------------------------------ composite key texts

  /** The text one approval command is remembered by. */
  function Fingerprint(tenantId: Guid, id: Guid, reviewer: string, expectedVersion: int): string {
    "question.approve:"
    + (GuidText(tenantId) + (":" + (GuidText(id) + (":" + (reviewer + ":" + IntText(expectedVersion))))))
  }

  /** The text hashed for the advisory lock of an idempotency key. */
  function LockText(tenantId: Guid, key: string): string {
    GuidText(tenantId) + ":" + key
  }

  lemma SplitAtLength(a: string, b: string, c: string, d: string)
    requires a + b == c + d && |a| == |c|
    ensures a == c && b == d
  {
    assert a == (a + b)[..|a|];
    assert c == (c + d)[..|a|];
    assert b == (a + b)[|a|..];
    assert d == (c + d)[|a|..];
  }

  /** Two texts split at a colon agree in both parts when neither tail holds a colon. */
  lemma SplitAtLastColon(a: string, b: string, c: string, d: string)
    requires a + ":" + b == c + ":" + d
    requires ':' !in b && ':' !in d
    ensures a == c && b == d
  {
    var s := a + ":" + b;
    assert s[|a|] == ':' && s[|c|] == ':';
    assert forall i :: |a| < i < |s| ==> s[i] == b[i - |a| - 1];
    assert forall i :: |c| < i < |s| ==> s[i] == d[i - |c| - 1];
    assert |a| == |c|;
    assert a == s[..|a|] == c;
    assert b == s[|a| + 1..] == d;
  }

  /** Although a reviewer may contain ':', equal fingerprints mean equal commands. */
  lemma FingerprintInjective(t1: Guid, i1: Guid, r1: string, v1: int, t2: Guid, i2: Guid, r2: string, v2: int)
    requires Fingerprint(t1, i1, r1, v1) == Fingerprint(t2, i2, r2, v2)
    ensures t1 == t2 && i1 == i2 && r1 == r2 && v1 == v2
  {
    var tail1, tail2 := r1 + ":" + IntText(v1), r2 + ":" + IntText(v2);
    SplitAtLength("question.approve:", GuidText(t1) + (":" + (GuidText(i1) + (":" + tail1))),
                  "question.approve:", GuidText(t2) + (":" + (GuidText(i2) + (":" + tail2))));
    SplitAtLength(GuidText(t1), ":" + (GuidText(i1) + (":" + tail1)),
                  GuidText(t2), ":" + (GuidText(i2) + (":" + tail2)));
    SplitAtLength(":", GuidText(i1) + (":" + tail1), ":", GuidText(i2) + (":" + tail2));
    SplitAtLength(GuidText(i1), ":" + tail1, GuidText(i2), ":" + tail2);
    SplitAtLength(":", tail1, ":", tail2);
    GuidTextInjective(t1, t2);
    GuidTextInjective(i1, i2);
    SplitAtLastColon(r1, IntText(v1), r2, IntText(v2));
    IntTextInjective(v1, v2);
  }

  /** Different scoped keys hash different texts; only the hash itself can collide. */
  lemma LockTextInjective(t1: Guid, k1: string, t2: Guid, k2: string)
    requires LockText(t1, k1) == LockText(t2, k2)
    ensures t1 == t2 && k1 == k2
  {
    var s := LockText(t1, k1);
    assert s[..36] == GuidText(t1) == GuidText(t2);
    assert s[37..] == k1 == k2;
    GuidTextInjective(t1, t2);
  }
}
