/** Two readers of a score in a language model's answer: the evaluator's, by regular expression, and the
    emitted program's, digit by digit. */
module Scores {
  import opened AiceLexer

  const NEUTRAL := 0.5

  function DigitOf(c: char): nat
    requires IsDigit(c)
  {
    c as nat - '0' as nat
  }

  predicate AllDigits(t: string) {
    forall k :: 0 <= k < |t| ==> IsDigit(t[k])
  }

  /** The number a row of digits stands for. */
  function Whole(t: string): nat
    requires AllDigits(t)
  {
    if t == "" then 0 else Whole(t[..|t| - 1]) * 10 + DigitOf(t[|t| - 1])
  }

  function Pow10(k: nat): (p: real)
    ensures p >= 1.0
  {
    if k == 0 then 1.0 else Pow10(k - 1) * 10.0
  }

  /** A row of digits behind the point, one decimal place at a time. */
  function Places(t: string): real
    requires AllDigits(t)
  {
    if t == "" then 0.0 else Places(t[..|t| - 1]) + DigitOf(t[|t| - 1]) as real / Pow10(|t|)
  }

  function Clip(v: real): real {
    if v < 0.0 then 0.0 else if v > 1.0 then 1.0 else v
  }

  lemma {:induction false} DigitsRun(s: string)
    ensures AllDigits(s[..DigitsLen(s)])
    ensures DigitsLen(s) < |s| ==> !IsDigit(s[DigitsLen(s)])
  {
    if s != "" && IsDigit(s[0]) {
      DigitsRun(s[1..]);
      assert s[..DigitsLen(s)] == [s[0]] + s[1..][..DigitsLen(s[1..])];
    }
  }

  // ----- the regular expression -----

  /** The text from the leftmost match on, or "" without one. */
  function Search(s: string): (t: string)
    ensures t == "" || StartsNumber(t)
    ensures |t| <= |s|
  {
    if s == "" || StartsNumber(s) then s else Search(s[1..])
  }

  /** The digits after the point, if the number has any. */
  function FractionOf(t: string): (f: string)
    ensures AllDigits(f)
  {
    var n := DigitsLen(t);
    if n + 1 < |t| && t[n] == '.' && IsDigit(t[n + 1]) then
      DigitsRun(t[n + 1..]);
      t[n + 1..][..DigitsLen(t[n + 1..])]
    else ""
  }

  function WholePart(t: string): (w: string)
    ensures AllDigits(w)
  {
    DigitsRun(t);
    t[..DigitsLen(t)]
  }

  lemma JoinDigits(a: string, b: string)
    requires AllDigits(a) && AllDigits(b)
    ensures AllDigits(a + b)
  {
  }

  /** The decimal number at the front of a text: all its digits over a power of ten. */
  function Decimal(t: string): real {
    var w, f := WholePart(t), FractionOf(t);
    JoinDigits(w, f);
    Whole(w + f) as real / Pow10(|f|)
  }

  function Unsigned(t: string): string
    requires t != ""
  {
    if t[0] == '-' then t[1..] else t
  }

  /** The evaluator's score: whole numbers up to 100 are percentages, the rest is cut to [0, 1]. */
  function RegexScore(s: string): (v: real)
    ensures 0.0 <= v <= 1.0
  {
    var t := Search(s);
    if t == "" then NEUTRAL
    else
      var u := Unsigned(t);
      var v := if t[0] == '-' then -Decimal(u) else Decimal(u);
      Clip(if FractionOf(u) == "" && 1.0 < v <= 100.0 then v / 100.0 else v)
  }

  // ----- digit by digit -----

  function FromDigit(s: string): string {
    if s == "" || IsDigit(s[0]) then s else FromDigit(s[1..])
  }

  /** The digits behind the whole part and its point, if there is a point. */
  function Behind(t: string): (f: string)
    ensures AllDigits(f)
  {
    var n := DigitsLen(t);
    if n < |t| && t[n] == '.' then
      DigitsRun(t[n + 1..]);
      t[n + 1..][..DigitsLen(t[n + 1..])]
    else ""
  }

  /** The emitted program's score: everything above 1 is a percentage. */
  function EmittedScore(s: string): (v: real)
    ensures 0.0 <= v <= 1.0
  {
    var t := FromDigit(s);
    if t == "" then NEUTRAL
    else
      var v := Whole(WholePart(t)) as real + Places(Behind(t));
      Clip(if v > 1.0 then v / 100.0 else v)
  }

  method Val(c: char) returns (d: int)
    ensures d == if IsDigit(c) then DigitOf(c) else -1
  {
    d := if IsDigit(c) then DigitOf(c) else -1;
  }

  // ----- both read the same decimal -----

  lemma PlacesStep(w: real, p: real, d: real)
    requires p > 0.0
    ensures (w * 10.0 + d) / (p * 10.0) == w / p + d / (p * 10.0)
  {
    assert w * 10.0 / (p * 10.0) == w / p;
    assert (w * 10.0 + d) / (p * 10.0) == w * 10.0 / (p * 10.0) + d / (p * 10.0);
  }

  /** Adding up decimal places gives all digits over a power of ten. */
  lemma {:induction false} PlacesAreDecimal(w: string, f: string)
    requires AllDigits(w) && AllDigits(f) && AllDigits(w + f)
    ensures Whole(w) as real + Places(f) == Whole(w + f) as real / Pow10(|f|)
  {
    if f == "" {
      assert w + f == w;
      assert Whole(w) as real / 1.0 == Whole(w) as real;
    } else {
      var n := |f| - 1;
      var all := w + f;
      assert all[..|all| - 1] == w + f[..n] && all[|all| - 1] == f[n];
      PlacesAreDecimal(w, f[..n]);
      PlacesStep(Whole(w + f[..n]) as real, Pow10(n), DigitOf(f[n]) as real);
    }
  }

  /** A point without digits behind it counts for nothing in both readers. */
  lemma SameFraction(t: string)
    ensures Behind(t) == FractionOf(t)
  {
    var n := DigitsLen(t);
    if n < |t| && t[n] == '.' && !(n + 1 < |t| && IsDigit(t[n + 1])) {
      assert DigitsLen(t[n + 1..]) == 0;
    }
  }

  lemma SameNumber(t: string)
    ensures Whole(WholePart(t)) as real + Places(Behind(t)) == Decimal(t)
  {
    SameFraction(t);
    JoinDigits(WholePart(t), FractionOf(t));
    PlacesAreDecimal(WholePart(t), FractionOf(t));
  }

  /** The first match starts at the first digit, or at the minus sign right before it. */
  lemma {:induction false} SamePlace(s: string)
    ensures FromDigit(s) == "" <==> Search(s) == ""
    ensures Search(s) != "" ==> FromDigit(s) == Unsigned(Search(s))
  {
    if s != "" && !IsDigit(s[0]) {
      if StartsNumber(s) {
        assert FromDigit(s) == s[1..];
      } else {
        SamePlace(s[1..]);
      }
    }
  }

  lemma DecimalPositive(t: string)
    ensures Decimal(t) >= 0.0
  {
    var w, f := WholePart(t), FractionOf(t);
    JoinDigits(w, f);
    assert Whole(w + f) as real / Pow10(|f|) >= 0.0;
  }

  /** A whole number, or none of the values between 1 and 100. */
  predicate Percentable(u: string) {
    FractionOf(u) == "" || Decimal(u) <= 1.0 || Decimal(u) >= 100.0
  }

  /** The two readers agree exactly on texts without a number, on texts whose first number has no
      minus sign and is whole, at most 1 or at least 100, and on minus zero. */
  lemma AgreeIff(s: string)
    ensures EmittedScore(s) == RegexScore(s) <==>
              || Search(s) == ""
              || (Search(s)[0] != '-' && Percentable(Search(s)))
              || (Search(s)[0] == '-' && Decimal(Search(s)[1..]) == 0.0)
  {
    SamePlace(s);
    if Search(s) != "" {
      var u := Unsigned(Search(s));
      SameNumber(u);
      DecimalPositive(u);
    }
  }

  /** Without a digit there is no number, and the score is one half in both. */
  lemma {:induction false} NoNumber(s: string)
    requires forall k :: 0 <= k < |s| ==> !('0' <= s[k] <= '9')
    ensures RegexScore(s) == 0.5 && EmittedScore(s) == 0.5
  {
    NothingFound(s);
  }

  lemma {:induction false} NothingFound(s: string)
    requires forall k :: 0 <= k < |s| ==> !('0' <= s[k] <= '9')
    ensures Search(s) == "" && FromDigit(s) == ""
  {
    if s != "" {
      NothingFound(s[1..]);
    }
  }

  /** How they disagree: a fraction above 1 is cut by one and a percentage to the other, and a minus
      sign counts for one only. */
  lemma Disagreement(s: string)
    requires Search(s) != ""
    ensures var u := Unsigned(Search(s));
            && (Search(s)[0] != '-' && FractionOf(u) != "" && 1.0 < Decimal(u) <= 100.0 ==>
                  RegexScore(s) == 1.0 && EmittedScore(s) == Decimal(u) / 100.0)
            && (Search(s)[0] == '-' && Decimal(u) > 0.0 ==> RegexScore(s) == 0.0 && EmittedScore(s) > 0.0)
  {
    SamePlace(s);
    SameNumber(Unsigned(Search(s)));
  }

  lemma {:induction false} DigitsOf(digits: string, rest: string)
    requires AllDigits(digits) && (rest != "" ==> !IsDigit(rest[0]))
    ensures DigitsLen(digits + rest) == |digits| && WholePart(digits + rest) == digits
  {
    assert digits == [] ==> digits + rest == rest;
    assert (digits + rest)[..|digits|] == digits;
    if digits != "" {
      assert (digits + rest)[1..] == digits[1..] + rest;
      DigitsOf(digits[1..], rest);
    }
  }

  lemma OneAndAHalf()
    ensures EmittedScore("1.5") == 0.015 && RegexScore("1.5") == 1.0
  {
    var t := "1.5";
    assert t == "1" + ".5" && t[2..] == "5" + "" && t[1] == '.' && t[2] == '5';
    DigitsOf("1", ".5");
    DigitsOf("5", "");
    assert StartsNumber(t) && Search(t) == t && Unsigned(t) == t;
    assert FractionOf(t) == "5" && WholePart(t) + FractionOf(t) == "15";
    assert "15"[..1] == "1" && "1"[..0] == "" && Whole("1") == 1 && Whole("15") == 15;
    assert Pow10(0) == 1.0 && Pow10(1) == 10.0 && Decimal(t) == 1.5;
    Disagreement(t);
  }

  lemma MinusThree()
    ensures EmittedScore("-3") == 0.03 && RegexScore("-3") == 0.0
  {
    var t := "-3";
    assert t[1..] == "3" + "" && t[0] == '-' && t[1] == '3';
    DigitsOf("3", "");
    assert StartsNumber(t) && Search(t) == t && Unsigned(t) == "3";
    assert FractionOf("3") == "" && WholePart("3") + "" == "3" && "3"[..0] == "" && Whole("3") == 3;
    assert Pow10(0) == 1.0 && Decimal("3") == 3.0;
    Disagreement(t);
    assert FromDigit(t) == "3";
    assert Behind("3") == "" && Places("") == 0.0;
  }

  // ----- the emitted loops -----

  lemma DigitsPast(s: string, i: nat, j: nat)
    requires i <= j <= |s| && AllDigits(s[i..j]) && (j < |s| ==> !IsDigit(s[j]))
    ensures DigitsLen(s[i..]) == j - i
    decreases j - i
  {
    if i < j {
      assert s[i..j][0] == s[i] && s[i..][1..] == s[i + 1..];
      assert s[i + 1..j] == s[i..j][1..];
      DigitsPast(s, i + 1, j);
    }
  }

  /** The whole part, from its first digit on. */
  method ReadWhole(s: string, first: nat) returns (n: nat, i: nat)
    requires first < |s| && IsDigit(s[first])
    ensures first <= i <= |s| && i - first == DigitsLen(s[first..]) && n == Whole(WholePart(s[first..]))
  {
    n, i := DigitOf(s[first]), first + 1;
    assert s[first..i] == [s[first]] && s[first..i][..0] == "";
    var done := false;
    while !done
      invariant first < i <= |s| && AllDigits(s[first..i]) && n == Whole(s[first..i])
      invariant done ==> i == |s| || !IsDigit(s[i])
      decreases !done, |s| - i
    {
      if i >= |s| {
        done := true;
      } else {
        var d := Val(s[i]);
        if d >= 0 {
          assert s[first..i + 1] == s[first..i] + [s[i]] && s[first..i + 1][..i - first] == s[first..i];
          n := n * 10 + d;
          i := i + 1;
        } else {
          done := true;
        }
      }
    }
    DigitsPast(s, first, i);
    assert s[first..][..i - first] == s[first..i];
  }

  /** The decimal places, from behind the point on. */
  method ReadPlaces(s: string, first: nat) returns (frac: real)
    requires first <= |s|
    ensures AllDigits(s[first..][..DigitsLen(s[first..])])
    ensures frac == Places(s[first..][..DigitsLen(s[first..])])
  {
    frac := 0.0;
    var div, i, done := 1.0, first, false;
    assert s[first..first] == "";
    while !done
      invariant first <= i <= |s| && AllDigits(s[first..i]) && frac == Places(s[first..i]) && div == Pow10(i - first)
      invariant done ==> i == |s| || !IsDigit(s[i])
      decreases !done, |s| - i
    {
      if i >= |s| {
        done := true;
      } else {
        var d := Val(s[i]);
        if d >= 0 {
          assert s[first..i + 1] == s[first..i] + [s[i]] && s[first..i + 1][..i - first] == s[first..i];
          div := div * 10.0;
          frac := frac + d as real / div;
          i := i + 1;
        } else {
          done := true;
        }
      }
    }
    DigitsPast(s, first, i);
    assert s[first..][..i - first] == s[first..i];
  }

  method FindDigit(s: string) returns (i: nat)
    ensures i <= |s| && s[i..] == FromDigit(s)
  {
    i := 0;
    var found := false;
    assert s[0..] == s;
    while !found
      invariant i <= |s| && FromDigit(s[i..]) == FromDigit(s)
      invariant found ==> i == |s| || IsDigit(s[i])
      decreases !found, |s| - i
    {
      if i >= |s| {
        found := true;
      } else {
        var d := Val(s[i]);
        if d >= 0 {
          found := true;
        } else {
          assert s[i..][1..] == s[i + 1..];
          i := i + 1;
        }
      }
    }
  }

  method ParseScore(s: string) returns (v: real)
    ensures v == EmittedScore(s)
  {
    var first := FindDigit(s);
    if first == |s| {
      return NEUTRAL;
    }
    var t := s[first..];
    assert t == FromDigit(s);
    FoundDigit(s);
    var n, i := ReadWhole(s, first);
    var frac := 0.0;
    if i < |s| {
      if s[i] == '.' {
        assert s[i + 1..] == t[i - first + 1..];
        frac := ReadPlaces(s, i + 1);
      }
    }
    v := n as real + frac;
    if v > 1.0 {
      v := v / 100.0;
    }
    if v < 0.0 {
      v := 0.0;
    }
    if v > 1.0 {
      v := 1.0;
    }
  }

  lemma {:induction false} FoundDigit(s: string)
    ensures FromDigit(s) != "" ==> IsDigit(FromDigit(s)[0])
  {
    if s != "" && !IsDigit(s[0]) {
      FoundDigit(s[1..]);
    }
  }
}
