/** Decimal numerals without leading zeros, as file names and hunk headers carry them. */
module Decimal {

  predicate IsDigit(c: char) {
    '0' <= c <= '9'
  }

  predicate AllDigits(s: string) {
    forall k :: 0 <= k < |s| ==> IsDigit(s[k])
  }

  function Render(n: nat): (s: string)
    ensures s != [] && AllDigits(s)
  {
    if n < 10 then [('0' as int + n) as char]
    else Render(n / 10) + [('0' as int + n % 10) as char]
  }

  function Value(s: string): nat
    requires AllDigits(s)
  {
    if s == [] then 0
    else Value(s[..|s| - 1]) * 10 + (s[|s| - 1] as int - '0' as int)
  }

  lemma {:induction false} ValueOfRender(n: nat)
    ensures Value(Render(n)) == n
  {
    var s := Render(n);
    if n < 10 {
      assert s[..0] == [];
      assert Value(s[..0]) == 0;
    } else {
      ValueOfRender(n / 10);
      assert s[..|s| - 1] == Render(n / 10);
    }
  }

  lemma RenderInjective(m: nat, n: nat)
    requires Render(m) == Render(n)
    ensures m == n
  {
    ValueOfRender(m);
    ValueOfRender(n);
  }

  function Power10(k: nat): nat {
    if k == 0 then 1 else 10 * Power10(k - 1)
  }

  /** Places count by tens, the last one for the units. */
  lemma {:induction false} ValueByPlaces(s: string, t: string)
    requires AllDigits(s) && AllDigits(t)
    ensures AllDigits(s + t) && Value(s + t) == Value(s) * Power10(|t|) + Value(t)
    ensures |t| == 1 ==> Value(t) == t[0] as int - '0' as int
  {
    if t == "" {
      assert s + t == s;
    } else {
      var n := |t| - 1;
      assert (s + t)[..|s + t| - 1] == s + t[..n] && (s + t)[|s + t| - 1] == t[n];
      ValueByPlaces(s, t[..n]);
      TenTimes(Value(s), Power10(n));
    }
  }

  lemma TenTimes(a: nat, b: nat)
    ensures a * b * 10 == a * (10 * b)
  {
  }

  lemma {:induction false} LeadingDigitCounts(s: string)
    requires AllDigits(s) && s != "" && s[0] != '0'
    ensures Value(s) > 0
  {
    if |s| > 1 {
      LeadingDigitCounts(s[..|s| - 1]);
    }
  }

  /** A numeral is the one string of digits for its number that has no zero in front. */
  lemma {:induction false} RenderExactly(s: string, n: nat)
    ensures s == Render(n) <==> s != "" && AllDigits(s) && Value(s) == n && (s[0] != '0' || s == "0")
  {
    ValueOfRender(n);
    NoLeadingZero(n);
    if s != "" && AllDigits(s) && Value(s) == n && (s[0] != '0' || s == "0") {
      OnlyNumeral(s, n);
    }
  }

  lemma {:induction false} NoLeadingZero(n: nat)
    ensures Render(n)[0] != '0' || Render(n) == "0"
  {
    if n >= 10 {
      NoLeadingZero(n / 10);
      ValueOfRender(n / 10);
      assert Render(n)[0] == Render(n / 10)[0];
      assert Value("0") == 0;
    }
  }

  lemma {:induction false} OnlyNumeral(s: string, n: nat)
    requires s != "" && AllDigits(s) && Value(s) == n && (s[0] != '0' || s == "0")
    ensures s == Render(n)
  {
    var init, c := s[..|s| - 1], s[|s| - 1];
    assert s == init + [c];
    if init == "" {
      assert Value(init) == 0;
    } else {
      LeadingDigitCounts(init);
      assert n / 10 == Value(init) && n % 10 == c as int - '0' as int;
      OnlyNumeral(init, n / 10);
    }
  }
}
