/** Java's `Integer.parseInt(String)` (radix 10) and its inverse
    `Integer.toString(int)`, restricted to ASCII digits.

    `ParseInt` states what the call accepts: an optional leading '+' or '-',
    then at least one decimal digit, denoting a value inside the 32-bit signed
    range. `ParseIntLoop` follows the JDK's own digit-accumulating loop, which
    accumulates the value negatively and rejects an overflow before it happens,
    and is proved to agree with `ParseInt`. */
module JavaInt {
  import opened Wrappers

  const IntMin: int := -0x8000_0000
  const IntMax: int := 0x7fff_ffff

  predicate InInt32(v: int) {
    IntMin <= v <= IntMax
  }

  predicate IsDigit(c: char) {
    '0' <= c <= '9'
  }

  function DigitValue(c: char): (d: nat)
    requires IsDigit(c)
    ensures d < 10
  {
    c as int - '0' as int
  }

  function DigitChar(d: nat): (c: char)
    requires d < 10
    ensures IsDigit(c) && DigitValue(c) == d
  {
    ('0' as int + d) as char
  }

  predicate AllDigits(ds: string) {
    forall i :: 0 <= i < |ds| ==> IsDigit(ds[i])
  }

  /** The number that a run of decimal digits denotes, most significant first. */
  function DigitsValue(ds: string): nat
    requires AllDigits(ds)
  {
    if ds == [] then 0
    else DigitsValue(ds[..|ds| - 1]) * 10 + DigitValue(ds[|ds| - 1])
  }

  predicate IsSign(c: char) {
    c == '-' || c == '+'
  }

  /** What follows the optional leading sign. */
  function Unsigned(s: string): string {
    if |s| > 0 && IsSign(s[0]) then s[1..] else s
  }

  predicate IsNegative(s: string) {
    |s| > 0 && s[0] == '-'
  }

  /** `Integer.parseInt(s)`: `None` stands for the NumberFormatException. */
  function ParseInt(s: string): (r: Option<int>)
    ensures r.Some? ==> InInt32(r.value)
    ensures r.Some? ==> Unsigned(s) != [] && AllDigits(Unsigned(s))
  {
    var body := Unsigned(s);
    if body == [] || !AllDigits(body) then None
    else
      var v := if IsNegative(s) then -(DigitsValue(body) as int) else DigitsValue(body);
      if InInt32(v) then Some(v) else None
  }

  /** The decimal digits of `n`, without leading zeros. */
  function Digits(n: nat): (ds: string)
    ensures ds != [] && AllDigits(ds)
  {
    if n < 10 then [DigitChar(n)] else Digits(n / 10) + [DigitChar(n % 10)]
  }

  /** `Integer.toString(v)`; defined for every integer so that the lemmas
      below can also speak of values outside the 32-bit range. */
  function FormatInt(v: int): (s: string)
    ensures s != []
  {
    if v < 0 then "-" + Digits(-v) else Digits(v)
  }

  lemma {:induction false} DigitsValueOfDigits(n: nat)
    ensures DigitsValue(Digits(n)) == n
  {
    var ds := Digits(n);
    if n >= 10 {
      assert ds[..|ds| - 1] == Digits(n / 10);
      DigitsValueOfDigits(n / 10);
    }
  }

  /** Parsing what `Integer.toString` prints gives the value back exactly
      when that value is a Java `int`; anything wider is rejected. */
  lemma ParseFormat(v: int)
    ensures ParseInt(FormatInt(v)) == if InInt32(v) then Some(v) else None
  {
    if v < 0 {
      assert Unsigned(FormatInt(v)) == Digits(-v);
      DigitsValueOfDigits(-v);
    } else {
      var ds := Digits(v);
      assert Unsigned(ds) == ds;
      DigitsValueOfDigits(v);
    }
  }

  lemma {:induction false} DigitsValueLeadingZero(ds: string)
    requires AllDigits(ds)
    ensures AllDigits("0" + ds) && DigitsValue("0" + ds) == DigitsValue(ds)
  {
    var zs := "0" + ds;
    assert AllDigits(zs) by {
      forall i | 0 <= i < |zs| ensures IsDigit(zs[i]) {
        if i > 0 { assert zs[i] == ds[i - 1]; }
      }
    }
    if ds != [] {
      assert zs[..|zs| - 1] == "0" + ds[..|ds| - 1];
      DigitsValueLeadingZero(ds[..|ds| - 1]);
    }
  }

  /** Leading zeros do not change what is parsed: "0120" is 120. */
  lemma ParseIntLeadingZero(s: string)
    requires s != [] && !IsSign(s[0])
    ensures ParseInt("0" + s) == ParseInt(s)
  {
    var zs := "0" + s;
    assert Unsigned(zs) == zs && Unsigned(s) == s;
    assert AllDigits(zs) ==> AllDigits(s) by {
      if AllDigits(zs) {
        forall i | 0 <= i < |s| ensures IsDigit(s[i]) {
          assert s[i] == zs[i + 1];
        }
      }
    }
    if AllDigits(s) {
      DigitsValueLeadingZero(s);
    }
  }

  /** A leading '+' is accepted and changes nothing; a leading '-' negates,
      and the negative range reaches one further than the positive one. */
  lemma ParseIntSigned(ds: string)
    requires ds != [] && AllDigits(ds)
    ensures ParseInt("+" + ds) == ParseInt(ds)
    ensures ParseInt("-" + ds) ==
      if DigitsValue(ds) <= 0x8000_0000 then Some(-(DigitsValue(ds) as int)) else None
  {
  }

  /** Every character after the optional sign must be a digit. */
  lemma ParseIntRejectsNonDigit(s: string, i: nat)
    requires i < |s| && !IsDigit(s[i]) && !(i == 0 && IsSign(s[0]))
    ensures ParseInt(s) == None
  {
  }

  /** A sign alone, or nothing at all, is not a number. */
  lemma ParseIntRejectsNoDigits(s: string)
    requires s == [] || (|s| == 1 && IsSign(s[0]))
    ensures ParseInt(s) == None
  {
  }

  /** "120" and "+120" read as 120 and "-5" as -5; "abc" is rejected. */
  lemma ParseIntExamples()
    ensures ParseInt("120") == Some(120) && ParseInt("+120") == Some(120)
    ensures ParseInt("-5") == Some(-5)
    ensures ParseInt("abc") == None
  {
    assert FormatInt(120) == "120";
    ParseFormat(120);
    ParseIntSigned("120");
    assert FormatInt(-5) == "-5";
    ParseFormat(-5);
    ParseIntRejectsNonDigit("abc", 0);
  }

  /** "-2147483648" reads as the least int; "2147483648", one past the
      greatest, is rejected. */
  lemma ParseIntLimits()
    ensures ParseInt("-2147483648") == Some(IntMin)
    ensures ParseInt("2147483648") == None
  {
    var ds := "2147483648";
    assert Digits(2147483648) == ds by {
      assert Digits(2) == ds[..1];
      assert Digits(21) == ds[..2];
      assert Digits(214) == ds[..3];
      assert Digits(2147) == ds[..4];
      assert Digits(21474) == ds[..5];
      assert Digits(214748) == ds[..6];
      assert Digits(2147483) == ds[..7];
      assert Digits(21474836) == ds[..8];
      assert Digits(214748364) == ds[..9];
    }
    ParseFormat(2147483648);
    ParseFormat(IntMin);
  }

  /** A longer prefix of a digit run never denotes less. */
  lemma {:induction false} DigitsValuePrefix(ds: string, k: nat)
    requires AllDigits(ds) && k < |ds|
    ensures AllDigits(ds[..k + 1])
    ensures DigitsValue(ds[..k + 1]) <= DigitsValue(ds)
  {
    var pre := ds[..k + 1];
    assert AllDigits(pre) by {
      forall i | 0 <= i < |pre| ensures IsDigit(pre[i]) {
        assert pre[i] == ds[i];
      }
    }
    if k + 1 < |ds| {
      var init := ds[..|ds| - 1];
      assert AllDigits(init) by {
        forall i | 0 <= i < |init| ensures IsDigit(init[i]) {
          assert init[i] == ds[i];
        }
      }
      DigitsValuePrefix(init, k);
      assert init[..k + 1] == ds[..k + 1];
    } else {
      assert ds[..k + 1] == ds;
    }
  }

  /** The JDK's algorithm for `Integer.parseInt(s, 10)`: the value is
      accumulated as a negative number so that `IntMin` is reachable, and
      `multmin`/`limit` reject an overflow before it can happen. */
  method ParseIntLoop(s: string) returns (r: Option<int>)
    ensures r == ParseInt(s)
  {
    if |s| == 0 {
      return None;
    }
    var negative := false;
    var limit := -IntMax;
    var i := 0;
    if s[0] < '0' {
      if s[0] == '-' {
        negative := true;
        limit := IntMin;
      } else if s[0] != '+' {
        ParseIntRejectsNonDigit(s, 0);
        return None;
      }
      if |s| == 1 {
        return None;
      }
      i := 1;
    }
    // Java's `limit / 10` truncates toward zero; `-limit` is positive here.
    var multmin := -((-limit) / 10);
    ghost var start := i;
    ghost var body := Unsigned(s);
    assert body == s[start..] && body != [];
    var result := 0;
    while i < |s|
      invariant start <= i <= |s|
      invariant AllDigits(body[..i - start])
      invariant result == -(DigitsValue(body[..i - start]) as int)
      invariant limit <= result <= 0
    {
      var k := i - start;
      assert body[k] == s[i];
      if !IsDigit(s[i]) {
        return None;
      }
      ghost var pre := body[..k + 1];
      assert AllDigits(pre) by {
        forall j | 0 <= j < |pre| ensures IsDigit(pre[j]) {
          if j < k { assert pre[j] == body[..k][j]; }
        }
      }
      assert pre[..k] == body[..k];
      var d := DigitValue(s[i]);
      if result < multmin {
        if AllDigits(body) { DigitsValuePrefix(body, k); }
        return None;
      }
      result := result * 10;
      if result < limit + d {
        if AllDigits(body) { DigitsValuePrefix(body, k); }
        return None;
      }
      result := result - d;
      i := i + 1;
    }
    assert body[..i - start] == body;
    r := Some(if negative then result else -result);
  }
}
