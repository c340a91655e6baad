// Decimal amounts: `toBaseUnits` and `fromBaseUnits` of examples/vite/src/main.ts, and `formatUnits`
// of src/auditorReport.ts, which prints the same string as the second.
module Decimal {
  import opened Wrappers

  predicate IsDigit(c: char) {
    '0' <= c <= '9'
  }

  predicate AllDigits(s: string) {
    forall k :: 0 <= k < |s| ==> IsDigit(s[k])
  }

  function DigitValue(c: char): (v: nat)
    requires IsDigit(c)
    ensures v < 10
  {
    c as int - '0' as int
  }

  function DigitChar(v: nat): (c: char)
    requires v < 10
    ensures IsDigit(c) && DigitValue(c) == v
  {
    '0' + v as char
  }

  function Pow10(n: nat): (p: nat)
    ensures p > 0
  {
    if n == 0 then 1 else 10 * Pow10(n - 1)
  }

  // The number a string of digits stands for.
  function FromDigits(s: string): (n: nat)
    requires AllDigits(s)
    ensures n < Pow10(|s|)
  {
    if s == [] then 0 else 10 * FromDigits(s[..|s| - 1]) + DigitValue(s[|s| - 1])
  }

  // `n.toString()`
  function ToDigits(n: nat): (s: string)
    ensures |s| >= 1 && AllDigits(s)
  {
    if n < 10 then [DigitChar(n)] else ToDigits(n / 10) + [DigitChar(n % 10)]
  }

  function Zeros(n: nat): (s: string)
    ensures |s| == n && AllDigits(s)
  {
    seq(n, _ => '0')
  }

  function PadStart(s: string, n: nat): (r: string)
    ensures |r| == if |s| < n then n else |s|
  {
    if |s| < n then Zeros(n - |s|) + s else s
  }

  function PadEnd(s: string, n: nat): (r: string)
    ensures |r| == if |s| < n then n else |s|
  {
    if |s| < n then s + Zeros(n - |s|) else s
  }

  function FromBaseUnits(amount: nat, decimals: nat): string {
    if decimals == 0 then ToDigits(amount)
    else
      var s := PadStart(ToDigits(amount), decimals + 1);
      s[..|s| - decimals] + "." + s[|s| - decimals..]
  }

  // Position of the first dot, or the length.
  function Dot(text: string): (k: nat)
    ensures k <= |text|
    ensures forall j :: 0 <= j < k ==> text[j] != '.'
    ensures k < |text| ==> text[k] == '.'
  {
    if text == [] || text[0] == '.' then 0 else 1 + Dot(text[1..])
  }

  // The groups of /^(\d+)(?:\.(\d+))?$/; an absent second group is empty.
  function Match(text: string): Option<(string, string)> {
    var k := Dot(text);
    var whole, rest := text[..k], text[k..];
    if whole == [] || !AllDigits(whole) then None
    else if rest == [] then Some((whole, ""))
    else if |rest| == 1 || !AllDigits(rest[1..]) then None
    else Some((whole, rest[1..]))
  }

  datatype Fault = NotAnAmount | TooManyDecimals | NotPositive

  function ToBaseUnits(text: string, decimals: nat): Result<nat, Fault> {
    var groups := Match(text);
    if groups.None? then Err(NotAnAmount)
    else
      var (whole, fraction) := groups.value;
      if |fraction| > decimals then Err(TooManyDecimals)
      else
        var amount := FromDigits(whole + PadEnd(fraction, decimals));
        if amount == 0 then Err(NotPositive) else Ok(amount)
  }

  // ---- digits ----

  lemma {:induction false} FromToDigits(n: nat)
    ensures FromDigits(ToDigits(n)) == n
  {
    if n < 10 {
      assert [DigitChar(n)][..0] == [];
    } else {
      var s := ToDigits(n);
      assert s[..|s| - 1] == ToDigits(n / 10);
      FromToDigits(n / 10);
    }
  }

  lemma FromDigitsLast(s: string, c: char)
    requires AllDigits(s) && IsDigit(c)
    ensures AllDigits(s + [c]) && FromDigits(s + [c]) == 10 * FromDigits(s) + DigitValue(c)
  {
    assert (s + [c])[..|s|] == s;
  }

  lemma {:induction false} FromDigitsConcat(s: string, t: string)
    requires AllDigits(s) && AllDigits(t)
    ensures AllDigits(s + t) && FromDigits(s + t) == FromDigits(s) * Pow10(|t|) + FromDigits(t)
    decreases |t|
  {
    hide FromDigits, Pow10;
    if t == [] {
      assert s + t == s;
      Nothing();
      assert FromDigits(s) * Pow10(0) == FromDigits(s);
    } else {
      var u, c := t[..|t| - 1], t[|t| - 1];
      assert t == u + [c] && s + t == (s + u) + [c];
      FromDigitsConcat(s, u);
      FromDigitsLast(u, c);
      FromDigitsLast(s + u, c);
      PowStep(FromDigits(s), |u|);
    }
  }

  lemma Nothing()
    ensures FromDigits([]) == 0 && Pow10(0) == 1
  {
  }

  lemma PowStep(a: nat, n: nat)
    ensures a * Pow10(n + 1) == 10 * (a * Pow10(n))
  {
  }

  lemma {:induction false} ZerosValue(n: nat)
    ensures FromDigits(Zeros(n)) == 0
  {
    if n > 0 {
      assert Zeros(n)[..n - 1] == Zeros(n - 1);
      ZerosValue(n - 1);
    }
  }

  // ---- round trips ----

  // An accepted text is worth its digits before the dot in units and those after it in fractions.
  lemma AcceptedValue(text: string, decimals: nat)
    requires ToBaseUnits(text, decimals).Ok?
    ensures var (whole, fraction) := Match(text).value;
            && |fraction| <= decimals
            && ToBaseUnits(text, decimals).value
               == FromDigits(whole) * Pow10(decimals) + FromDigits(fraction) * Pow10(decimals - |fraction|)
  {
    hide FromDigits, Pow10, Zeros, Dot;
    var (whole, fraction) := Match(text).value;
    PaddedValue(whole, fraction, decimals);
  }

  // An amount as a user writes it: digits, and if there is a fraction, a dot and its digits.
  predicate Reads(text: string, whole: string, fraction: string) {
    && whole != [] && AllDigits(whole) && AllDigits(fraction)
    && text == if fraction == [] then whole else whole + "." + fraction
  }

  lemma MatchReads(text: string)
    requires Match(text).Some?
    ensures Reads(text, Match(text).value.0, Match(text).value.1)
  {
    hide Dot;
    var k := Dot(text);
    assert text == text[..k] + text[k..];
    if text[k..] != [] {
      assert text[k..] == "." + text[k..][1..];
      assert text == text[..k] + "." + text[k..][1..];
    }
  }

  lemma ReadsMatch(text: string, whole: string, fraction: string)
    requires Reads(text, whole, fraction)
    ensures Match(text) == Some((whole, fraction))
  {
    hide Dot;
    if fraction == [] {
      DotAfter(whole, "");
      assert whole + "" == whole;
    } else {
      MatchParts(whole, fraction);
    }
  }

  // Exactly these texts are accepted: a positive amount with no more than the mint's decimals. The
  // refusals tell the three ways to miss that.
  lemma AcceptedTexts(text: string, decimals: nat, whole: string, fraction: string)
    ensures Reads(text, whole, fraction) ==>
              ToBaseUnits(text, decimals)
                == if |fraction| > decimals then Err(TooManyDecimals)
                   else if FromDigits(whole) == 0 && FromDigits(fraction) == 0 then Err(NotPositive)
                   else Ok(FromDigits(whole) * Pow10(decimals) + FromDigits(fraction) * Pow10(decimals - |fraction|))
    ensures (forall w, f :: !Reads(text, w, f)) <==> ToBaseUnits(text, decimals) == Err(NotAnAmount)
  {
    hide Match, FromDigits, Pow10, Zeros;
    if Reads(text, whole, fraction) {
      ReadsMatch(text, whole, fraction);
      if |fraction| <= decimals {
        PaddedValue(whole, fraction, decimals);
      }
    }
    if Match(text).Some? {
      MatchReads(text);
    }
    if w, f :| Reads(text, w, f) {
      ReadsMatch(text, w, f);
    }
  }

  lemma PaddedValue(whole: string, fraction: string, decimals: nat)
    requires AllDigits(whole) && AllDigits(fraction) && |fraction| <= decimals
    ensures AllDigits(whole + PadEnd(fraction, decimals))
    ensures var amount := FromDigits(whole + PadEnd(fraction, decimals));
            && amount == FromDigits(whole) * Pow10(decimals) + FromDigits(fraction) * Pow10(decimals - |fraction|)
            && (amount == 0 <==> FromDigits(whole) == 0 && FromDigits(fraction) == 0)
  {
    hide FromDigits, Pow10, Zeros;
    var padded := PadEnd(fraction, decimals);
    FromDigitsConcat(whole, padded);
    if |fraction| < decimals {
      FromDigitsConcat(fraction, Zeros(decimals - |fraction|));
      ZerosValue(decimals - |fraction|);
    } else {
      Nothing();
    }
    PositiveProduct(FromDigits(whole), Pow10(decimals));
    PositiveProduct(FromDigits(fraction), Pow10(decimals - |fraction|));
  }

  lemma PositiveProduct(a: nat, p: nat)
    requires p > 0
    ensures a * p >= 0 && (a * p == 0 <==> a == 0)
  {
  }

  lemma PadStartValue(s: string, n: nat)
    requires AllDigits(s)
    ensures AllDigits(PadStart(s, n)) && FromDigits(PadStart(s, n)) == FromDigits(s)
  {
    if |s| < n {
      FromDigitsConcat(Zeros(n - |s|), s);
      ZerosValue(n - |s|);
    }
  }

  // What is printed has exactly `decimals` digits after the dot, and reads back as the same amount.
  lemma PrintedShape(amount: nat, decimals: nat)
    ensures var m := Match(FromBaseUnits(amount, decimals));
            && m.Some? && |m.value.1| == decimals
            && FromDigits(m.value.0 + m.value.1) == amount
  {
    hide FromDigits, ToDigits, Zeros, Dot;
    var digits := ToDigits(amount);
    FromToDigits(amount);
    if decimals == 0 {
      DotAfter(digits, "");
      assert digits + [] == digits;
    } else {
      var s := PadStart(digits, decimals + 1);
      PadStartValue(digits, decimals + 1);
      var whole, fraction := s[..|s| - decimals], s[|s| - decimals..];
      MatchParts(whole, fraction);
      assert whole + fraction == s;
    }
  }

  lemma MatchParts(whole: string, fraction: string)
    requires AllDigits(whole) && AllDigits(fraction) && whole != [] && fraction != []
    ensures Match(whole + "." + fraction) == Some((whole, fraction))
  {
    hide Dot;
    var rest := "." + fraction;
    DotAfter(whole, rest);
    assert whole + "." + fraction == whole + rest;
    assert (whole + rest)[..|whole|] == whole && (whole + rest)[|whole|..] == rest;
    assert rest[1..] == fraction;
  }

  lemma {:induction false} DotAfter(whole: string, rest: string)
    requires AllDigits(whole) && (rest == [] || rest[0] == '.')
    ensures Dot(whole + rest) == |whole|
    decreases |whole|
  {
    if whole == [] {
      assert whole + rest == rest;
    } else {
      assert IsDigit(whole[0]) && (whole + rest)[0] == whole[0];
      assert (whole + rest)[1..] == whole[1..] + rest;
      DotAfter(whole[1..], rest);
    }
  }

  lemma AmountRoundTrip(amount: nat, decimals: nat)
    requires amount > 0
    ensures ToBaseUnits(FromBaseUnits(amount, decimals), decimals) == Ok(amount)
  {
    hide FromDigits, FromBaseUnits, Match;
    PrintedShape(amount, decimals);
  }
}
