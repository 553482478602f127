/** Decimal numbers as text, as strconv writes and reads them. */
module Decimals {
  import opened Basics

  const UINT64 := 0x1_0000_0000_0000_0000
  const INT64 := 0x8000_0000_0000_0000

  predicate Digit(c: char) { '0' <= c <= '9' }

  predicate Digits(s: string) { forall i :: 0 <= i < |s| ==> Digit(s[i]) }

  function DigitOf(d: nat): (c: char)
    requires d < 10
    ensures Digit(c) && c as int - '0' as int == d
  {
    ('0' as int + d) as char
  }

  function Dec(n: nat): (s: string)
    ensures s != "" && Digits(s)
  {
    if n < 10 then [DigitOf(n)] else Dec(n / 10) + [DigitOf(n % 10)]
  }

  function DecInt(n: int): string { if n < 0 then "-" + Dec(-n) else Dec(n) }

  function Value(s: string): nat
    requires Digits(s)
  {
    if s == "" then 0 else 10 * Value(s[..|s| - 1]) + (s[|s| - 1] as int - '0' as int)
  }

  lemma {:induction false} ValueDec(n: nat)
    ensures Value(Dec(n)) == n
  {
    var s := Dec(n);
    if n < 10 {
      assert s == [DigitOf(n)] && Value(s[..0]) == 0;
    } else {
      ValueDec(n / 10);
      assert s[..|s| - 1] == Dec(n / 10);
    }
  }

  function ParseUint(s: string): Option<nat> {
    if s != "" && Digits(s) && Value(s) < UINT64 then Some(Value(s)) else None
  }

  function ParseInt(s: string): Option<int> {
    var signed := s != "" && (s[0] == '-' || s[0] == '+');
    var t := if signed then s[1..] else s;
    if t == "" || !Digits(t) then None
    else
      var v := if signed && s[0] == '-' then -(Value(t) as int) else Value(t);
      if -INT64 <= v < INT64 then Some(v) else None
  }

  /** What is written is read back, within the width. */
  lemma UintWritten(n: nat)
    ensures ParseUint(Dec(n)) == Some(n) <==> n < UINT64
  {
    ValueDec(n);
  }

  lemma IntWritten(n: int)
    ensures ParseInt(DecInt(n)) == Some(n) <==> -INT64 <= n < INT64
  {
    hide Dec, Value;
    var s := Dec(if n < 0 then -n else n);
    ValueDec(if n < 0 then -n else n);
    assert Digit(s[0]);
    assert ("-" + s)[1..] == s;
  }

  // ---------- which texts are read, and as what ----------

  ghost predicate Zeros(s: string) { forall i :: 0 <= i < |s| ==> s[i] == '0' }

  /** s is the number n, written with leading zeros or without. */
  ghost predicate Denotes(s: string, n: nat) {
    exists zeros :: Zeros(zeros) && s == zeros + Dec(n)
  }

  lemma {:induction false} DigitsDenote(s: string)
    requires s != "" && Digits(s)
    ensures Denotes(s, Value(s))
    decreases |s|
  {
    hide Dec, Value;
    var k := |s| - 1;
    assert s == s[..k] + [s[k]];
    ValueLast(s[..k], s[k]);
    if k == 0 {
      NoValue();
      assert s[..0] == "" && s == "" + Dec(Value(s)) && Zeros("");
    } else {
      DigitsDenote(s[..k]);
      var zeros :| Zeros(zeros) && s[..k] == zeros + Dec(Value(s[..k]));
      if Value(s[..k]) == 0 {
        DecZero();
        assert Zeros(s[..k]) && s == s[..k] + Dec(Value(s));
      } else {
        assert s == zeros + Dec(Value(s));
      }
    }
  }

  lemma NoValue()
    ensures Value("") == 0
  {
  }

  lemma DecZero()
    ensures Dec(0) == "0"
  {
  }

  /** The last digit of a written number, and what stands before it. */
  lemma DecText(n: nat)
    ensures Dec(n) == (if n < 10 then "" else Dec(n / 10)) + ["0123456789"[n % 10]]
  {
    hide Dec;
    DigitText(n % 10);
    DecStep(n / 10, n % 10);
  }

  lemma DigitText(d: nat)
    requires d < 10
    ensures DigitOf(d) == "0123456789"[d]
  {
    var digits := "0123456789";
    assert forall i :: 0 <= i < 10 ==> digits[i] as int == '0' as int + i;
  }

  /** How one more digit is written. */
  lemma DecStep(v: nat, d: nat)
    requires d < 10
    ensures Dec(10 * v + d) == if v == 0 then [DigitOf(d)] else Dec(v) + [DigitOf(d)]
  {
    assert (10 * v + d) / 10 == v && (10 * v + d) % 10 == d;
  }

  lemma ValueLast(t: string, c: char)
    requires Digits(t) && Digit(c)
    ensures Digits(t + [c])
    ensures Dec(Value(t + [c])) == if Value(t) == 0 then [c] else Dec(Value(t)) + [c]
  {
    hide Dec;
    var d := c as int - '0' as int;
    assert (t + [c])[..|t|] == t;
    DecStep(Value(t), d);
  }

  lemma {:induction false} ZerosValue(zeros: string, t: string)
    requires Zeros(zeros) && Digits(t)
    ensures Digits(zeros + t) && Value(zeros + t) == Value(t)
    decreases |t| + |zeros|
  {
    var s := zeros + t;
    if t != "" {
      assert s[..|s| - 1] == zeros + t[..|t| - 1];
      ZerosValue(zeros, t[..|t| - 1]);
    } else if zeros != "" {
      assert s == zeros && zeros[..|zeros| - 1] + t == zeros[..|zeros| - 1];
      ZerosValue(zeros[..|zeros| - 1], t);
    }
  }

  lemma DenotesValue(s: string, n: nat)
    ensures Denotes(s, n) <==> s != "" && Digits(s) && Value(s) == n
  {
    hide Dec, Value;
    if Denotes(s, n) {
      var zeros :| Zeros(zeros) && s == zeros + Dec(n);
      ZerosValue(zeros, Dec(n));
      ValueDec(n);
    }
    if s != "" && Digits(s) { DigitsDenote(s); }
  }

  /** Exactly the decimal numbers of 64 bits are read, with leading zeros or without. */
  lemma UintRead(s: string, n: nat)
    ensures ParseUint(s) == Some(n) <==> Denotes(s, n) && n < 0x1_0000_0000_0000_0000
  {
    hide Denotes, Value;
    DenotesValue(s, n);
  }

  /** Signed numbers may have either sign in front. */
  lemma IntRead(s: string, n: int)
    ensures ParseInt(s) == Some(n) <==>
            && -0x8000_0000_0000_0000 <= n < 0x8000_0000_0000_0000
            && ((n >= 0 && Denotes(s, n)) || (s != "" && s[0] == '+' && n >= 0 && Denotes(s[1..], n))
                || (s != "" && s[0] == '-' && n <= 0 && Denotes(s[1..], -n)))
  {
    hide Denotes, Value;
    if s != "" { DenotesValue(s[1..], if n >= 0 then n else -n); }
    DenotesValue(s, if n >= 0 then n else -n);
  }
}
