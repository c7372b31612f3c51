/** The texts of numbers and identifiers, digit by digit, and the keys made of them. */
module TextLaws {
  import opened Text

  function Power10(n: nat): nat {
    if n == 0 then 1 else 10 * Power10(n - 1)
  }

  lemma {:induction false} Power10Positive(n: nat)
    ensures Power10(n) > 0
  {
    if n > 0 { Power10Positive(n - 1); }
  }

  lemma {:induction false} Power16Positive(n: nat)
    ensures Power16(n) > 0
  {
    if n > 0 { Power16Positive(n - 1); }
  }

  lemma DivideTwice(n: nat, a: nat, b: nat)
    requires a > 0 && b > 0
    ensures a * b > 0 && n / a / b == n / (a * b)
  {
    var q, r := n / a, n % a;
    var p, s := q / b, q % b;
    assert n == a * (b * p + s) + r;
    assert a * (b * p + s) == a * b * p + a * s by { Distribute(a, b, p, s); }
    assert 0 <= a * s + r < a * b by { Bound(a, b, s, r); }
    Quotient(n, a * b, p, a * s + r);
  }

  lemma Distribute(a: int, b: int, p: int, s: int)
    ensures a * (b * p + s) == a * b * p + a * s
  {
  }

  lemma Bound(a: int, b: int, s: int, r: int)
    requires 0 <= r < a && 0 <= s < b
    ensures 0 <= a * s + r < a * b
  {
    assert a * s <= a * (b - 1);
  }

  lemma Multiples(d: int, k: int)
    requires d > 0
    ensures k >= 1 ==> d * k >= d
    ensures k <= -1 ==> d * k <= -d
  {
    if k >= 1 { assert d * k == d + d * (k - 1) && d * (k - 1) >= 0; }
    if k <= -1 { assert d * k == d * (k + 1) - d && d * (k + 1) <= 0; }
  }

  lemma Quotient(n: int, d: int, p: int, r: int)
    requires d > 0 && 0 <= r < d && n == d * p + r
    ensures n / d == p
  {
    var q := n / d;
    assert n == d * q + n % d;
    assert d * (q - p) == d * q - d * p;
    Multiples(d, q - p);
  }

  /** Digit i of the decimal numeral of n, counted from the left. */
  lemma {:induction false} DecimalDigits(n: nat, i: nat)
    requires i < |NatText(n)|
    ensures Power10(|NatText(n)| - 1 - i) > 0
    ensures NatText(n)[i] as int - '0' as int == n / Power10(|NatText(n)| - 1 - i) % 10
  {
    Power10Positive(|NatText(n)| - 1 - i);
    if n >= 10 {
      var k := |NatText(n)| - 1;
      if i < k {
        DecimalDigits(n / 10, i);
        DivideTwice(n, 10, Power10(k - 1 - i));
      } else {
        OneOf(n);
      }
    } else {
      OneOf(n);
    }
  }

  lemma OneOf(n: nat)
    ensures Power10(0) == 1 && n / Power10(0) == n && Power16(0) == 1 && n / Power16(0) == n
  {
  }

  lemma HexCharIs(d: nat)
    requires d < 16
    ensures HexChar(d) == "0123456789abcdef"[d]
  {
  }

  /** Digit i of the hexadecimal text of n. */
  lemma {:induction false} HexDigits(n: nat, width: nat, i: nat)
    requires i < width
    ensures Power16(width - 1 - i) > 0
    ensures HexText(n, width)[i] == "0123456789abcdef"[n / Power16(width - 1 - i) % 16]
  {
    Power16Positive(width - 1 - i);
    if i < width - 1 {
      HexDigits(n / 16, width - 1, i);
      DivideTwice(n, 16, Power16(width - 2 - i));
    } else {
      OneOf(n);
      HexCharIs(n % 16);
    }
  }

  /** Where digit i of an identifier stands in its text. */
  function DigitPlace(i: nat): nat {
    if i < 8 then i else if i < 12 then i + 1 else if i < 16 then i + 2 else if i < 20 then i + 3 else i + 4
  }

  /** An identifier's text: 32 lower-case hexadecimal digits, hyphens after the 8th, 12th, 16th and 20th. */
  lemma GuidDigits(g: Guid, i: nat)
    requires i < 32
    ensures |GuidText(g)| == 36 && Power16(31 - i) > 0
    ensures GuidText(g)[DigitPlace(i)] == "0123456789abcdef"[g / Power16(31 - i) % 16]
    ensures GuidText(g)[8] == '-' && GuidText(g)[13] == '-' && GuidText(g)[18] == '-' && GuidText(g)[23] == '-'
  {
    hide HexText;
    HexDigits(g, 32, i);
    var h := HexText(g, 32);
    assert GuidText(g)[DigitPlace(i)] == h[i];
  }

  /** The texts an approval is remembered and locked by. */
  lemma KeyTexts(tenantId: Guid, id: Guid, reviewer: string, expectedVersion: int, key: string)
    ensures Fingerprint(tenantId, id, reviewer, expectedVersion)
      == "question.approve:" + GuidText(tenantId) + ":" + GuidText(id) + ":" + reviewer + ":" + IntText(expectedVersion)
    ensures LockText(tenantId, key) == GuidText(tenantId) + ":" + key
  {
    hide GuidText, IntText;
    var g, h, v := GuidText(tenantId), GuidText(id), IntText(expectedVersion);
    assert "question.approve:" + (g + (":" + (h + (":" + (reviewer + ":" + v)))))
      == "question.approve:" + g + ":" + h + ":" + reviewer + ":" + v;
  }
}
