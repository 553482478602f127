/** The number that a hexadecimal text writes, and its binary digits: the ones of a bitmap are those of the number. */
module HexNumbers {
  import opened Decimals
  import opened HexMaps
  import opened RangeReader

  /** The hexadecimal digit c stands for d. */
  predicate HexDigit(c: char, d: nat) {
    d < 16 && (c == "0123456789abcdef"[d] || c == "0123456789ABCDEF"[d])
  }

  /** The text writes the number n in hexadecimal. */
  ghost predicate WritesHex(s: string, n: nat) {
    if s == "" then n == 0 else WritesHex(s[..|s| - 1], n / 16) && HexDigit(s[|s| - 1], n % 16)
  }

  function Pow2(e: nat): (w: nat)
    ensures w > 0
  {
    if e == 0 then 1 else 2 * Pow2(e - 1)
  }

  /** The binary digit of n of weight 2 to the power e. */
  function BinaryDigit(n: nat, e: nat): nat { n / Pow2(e) % 2 }

  lemma DigitLaw(c: char, d: nat)
    ensures HexDigit(c, d) <==> Hex(c) && d == HexValue(c)
  {
    if d < 10 {
      SmallDigit(c, d);
    } else if d < 16 {
      LargeDigit(c, d);
    }
  }

  lemma SmallDigit(c: char, d: nat)
    requires d < 10
    ensures HexDigit(c, d) <==> c as int == '0' as int + d
  {
  }

  lemma LargeDigit(c: char, d: nat)
    requires 10 <= d < 16
    ensures HexDigit(c, d) <==> c as int == 'a' as int + d - 10 || c as int == 'A' as int + d - 10
  {
  }

  lemma Div16(n: nat, w: nat)
    requires w > 0
    ensures n / (16 * w) == n / 16 / w
  {
    var q, r := n / 16 / w, n / 16 % w;
    assert n / 16 == q * w + r;
    assert n == 16 * (n / 16) + n % 16;
    assert n == q * (16 * w) + (16 * r + n % 16);
    Quotient(n, 16 * w, q, 16 * r + n % 16);
  }

  lemma Quotient(n: nat, m: nat, q: nat, r: nat)
    requires m > 0 && r < m && n == q * m + r
    ensures n / m == q
  {
    var d := n / m - q;
    assert n == n / m * m + n % m;
    assert d * m == r - n % m;
    assert (d >= 1 ==> d * m >= m) && (d <= -1 ==> d * m + m <= 0);
  }

  lemma LastFour(n: nat, i: nat)
    requires i < 4
    ensures NibbleBit(n % 16, i) <==> BinaryDigit(n, 3 - i) == 1
  {
    FirstPowers();
    LowDigits(n);
    hide Pow2;
  }

  lemma FirstPowers()
    ensures Pow2(0) == 1 && Pow2(1) == 2 && Pow2(2) == 4 && Pow2(3) == 8
  {
    assert Pow2(1) == 2 * Pow2(0) && Pow2(2) == 2 * Pow2(1) && Pow2(3) == 2 * Pow2(2);
  }

  lemma LowDigits(n: nat)
    ensures n / 8 % 2 == n % 16 / 8 % 2 && n / 4 % 2 == n % 16 / 4 % 2
    ensures n / 2 % 2 == n % 16 / 2 % 2 && n / 1 % 2 == n % 16 % 2
  {
    LowDigit(n, 8, 1);
    LowDigit(n, 4, 2);
    LowDigit(n, 2, 4);
    LowDigit(n, 1, 8);
  }

  lemma LowDigit(n: nat, w: nat, half: nat)
    requires w > 0 && w * (2 * half) == 16
    ensures n / w % 2 == n % 16 / w % 2
  {
    var q, v := n / 16, n % 16;
    var a, b := v / w, v % w;
    Parts(v, w);
    Regroup(q, w, half, a, b);
    Quotient(n, w, 2 * (q * half) + a, b);
    Parity(q * half, a);
  }

  lemma Parts(v: nat, w: nat)
    requires w > 0
    ensures v == v / w * w + v % w && v % w < w
  {
  }

  lemma Parity(h: nat, a: nat)
    ensures (2 * h + a) % 2 == a % 2
  {
  }

  lemma Regroup(q: nat, w: nat, half: nat, a: nat, b: nat)
    ensures q * (w * (2 * half)) + (a * w + b) == (2 * (q * half) + a) * w + b
  {
    assert q * (w * (2 * half)) == 2 * (q * half) * w;
  }

  /** Position k of a bitmap is a one exactly if the number the text writes has a one at that place, the highest
      first. */
  lemma {:induction false} OnesBinary(s: string, n: nat, k: nat)
    requires WritesHex(s, n) && k < 4 * |s|
    ensures AllHex(s) && (k in Ones(s) <==> BinaryDigit(n, 4 * |s| - 1 - k) == 1)
    decreases |s|
  {
    HexText(s, n);
    assert k in Ones(s) <==> Bit(s, k);
    hide Ones;
    var m := |s| - 1;
    DigitLaw(s[m], n % 16);
    if k < 4 * m {
      OnesBinary(s[..m], n / 16, k);
      BitPrefix(s, m, k);
      Div16(n, Pow2(4 * m - 1 - k));
      PowFour(4 * m - 1 - k);
    } else {
      LastFour(n, k - 4 * m);
    }
  }

  lemma PowFour(e: nat)
    ensures Pow2(e + 4) == 16 * Pow2(e)
  {
    assert Pow2(e + 1) == 2 * Pow2(e) && Pow2(e + 2) == 4 * Pow2(e) && Pow2(e + 3) == 8 * Pow2(e);
  }

  lemma BitPrefix(s: string, m: nat, k: nat)
    requires AllHex(s) && m <= |s| && k < 4 * m
    ensures AllHex(s[..m]) && (k in Ones(s[..m]) <==> Bit(s, k))
  {
    assert k in Ones(s[..m]) <==> Bit(s[..m], k);
  }

  lemma {:induction false} HexText(s: string, n: nat)
    requires WritesHex(s, n)
    ensures AllHex(s)
    decreases |s|
  {
    if s != "" {
      HexText(s[..|s| - 1], n / 16);
      DigitLaw(s[|s| - 1], n % 16);
    }
  }

  /** Every text of hexadecimal digits writes a number. */
  lemma {:induction false} HexWritten(s: string) returns (n: nat)
    requires AllHex(s)
    ensures WritesHex(s, n)
    decreases |s|
  {
    if s == "" {
      n := 0;
    } else {
      var m := HexWritten(s[..|s| - 1]);
      var d := HexValue(s[|s| - 1]);
      DigitLaw(s[|s| - 1], d);
      n := 16 * m + d;
      assert n / 16 == m && n % 16 == d;
    }
  }

  /** The VLAN list of a text denotes exactly the places of the ones in the number the text writes. */
  lemma VlansTold(s: string, n: nat, x: nat)
    requires WritesHex(s, n) && 4 * |s| <= UINT64
    ensures InText(x, Matches(VlanText(s))) <==> x < 4 * |s| && BinaryDigit(n, 4 * |s| - 1 - x) == 1
  {
    hide InText, Matches, BinaryDigit, Bit;
    HexText(s, n);
    VlanTextMeans(s);
    if x < 4 * |s| { OnesBinary(s, n, x); }
  }

  /** The port list names port p exactly if the number has a one at place p, counted from one. */
  lemma PortsTold(s: string, n: nat, p: nat)
    requires WritesHex(s, n) && p > 0
    ensures Dec(p) in PortNames(s) <==> p <= 4 * |s| && BinaryDigit(n, 4 * |s| - p) == 1
  {
    hide BinaryDigit, Bit, Dec, PortNames;
    HexText(s, n);
    PortListed(s, p);
    if p <= 4 * |s| { OnesBinary(s, n, p - 1); }
  }

  /** What is no hexadecimal text has no VLANs and no ports. */
  lemma NoHexNothing(s: string, i: nat)
    requires i < |s| && forall d: nat :: !HexDigit(s[i], d)
    ensures VlanText(s) == "" && PortNames(s) == []
  {
    if Hex(s[i]) { DigitLaw(s[i], HexValue(s[i])); }
    assert !AllHex(s);
  }
}
