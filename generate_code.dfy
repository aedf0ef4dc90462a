/** `GenerateCodeService`: six random decimal digits read as one number. */
module GenerateCodeService {
  import opened Common

  const CODE_DIGITS := 6

  /** `generateNumber(min, max)`: `Math.floor(Math.random() * (max - min + 1)) + min`
      for the draw `draw`. */
  function GenerateNumber(min: int, max: int, draw: real): (n: int)
    requires 0.0 <= draw < 1.0
    ensures min <= max ==> min <= n <= max
  {
    var width := max - min + 1;
    assert min <= max ==> 0 <= (draw * (width as real)).Floor < width by {
      if min <= max { ScaledBelow(draw, width); }
    }
    (draw * (width as real)).Floor + min
  }

  predicate IsDigits(ds: seq<int>) {
    forall k :: 0 <= k < |ds| ==> 0 <= ds[k] <= 9
  }

  function Pow10(n: nat): (p: nat)
    ensures p >= 1
  {
    if n == 0 then 1 else 10 * Pow10(n - 1)
  }

  /** `parseInt(ds.join(''))` for a non-empty list of digits: the decimal
      value, leading zeros included. */
  function DigitsValue(ds: seq<int>): int {
    if |ds| == 0 then 0 else ds[0] * Pow10(|ds| - 1) + DigitsValue(ds[1..])
  }

  lemma {:induction false} DigitsBound(ds: seq<int>)
    requires IsDigits(ds)
    ensures 0 <= DigitsValue(ds) < Pow10(|ds|)
  {
    if |ds| > 0 {
      DigitsBound(ds[1..]);
      var p := Pow10(|ds| - 1);
      assert ds[0] * p <= 9 * p;
    }
  }

  /** `x * p + r == y * p + s` with both remainders below `p` forces `x == y`. */
  lemma LeadingDigitUnique(x: int, y: int, p: int, r: int, s: int)
    requires p > 0 && 0 <= r < p && 0 <= s < p && x * p + r == y * p + s
    ensures x == y
  {
    if x != y {
      var d := if x < y then y - x else x - y;
      assert d * p == (if x < y then r - s else s - r) by {
        if x < y { assert y * p - x * p == (y - x) * p; } else { assert x * p - y * p == (x - y) * p; }
      }
      AtLeastOnce(d, p);
    }
  }

  lemma AtLeastOnce(d: int, p: int)
    requires d >= 1 && p > 0
    ensures d * p >= p
  {
    assert d * p == (d - 1) * p + p;
    assert (d - 1) * p >= 0;
  }

  /** Two digit lists of one length with the same value are the same list. */
  lemma {:induction false} DigitsValueInjective(a: seq<int>, b: seq<int>)
    requires |a| == |b| && IsDigits(a) && IsDigits(b) && DigitsValue(a) == DigitsValue(b)
    ensures a == b
  {
    if |a| > 0 {
      DigitsBound(a[1..]);
      DigitsBound(b[1..]);
      LeadingDigitUnique(a[0], b[0], Pow10(|a| - 1), DigitsValue(a[1..]), DigitsValue(b[1..]));
      DigitsValueInjective(a[1..], b[1..]);
      assert a == [a[0]] + a[1..] && b == [b[0]] + b[1..];
    }
  }

  /** The digit drawn from each draw. */
  function Digits(draws: seq<real>): (ds: seq<int>)
    requires forall k :: 0 <= k < |draws| ==> 0.0 <= draws[k] < 1.0
    ensures |ds| == |draws| && IsDigits(ds)
    ensures forall k :: 0 <= k < |ds| ==> ds[k] == GenerateNumber(0, 9, draws[k])
  {
    if |draws| == 0 then [] else [GenerateNumber(0, 9, draws[0])] + Digits(draws[1..])
  }

  predicate ValidDraws(draws: seq<real>) {
    |draws| == CODE_DIGITS && forall k :: 0 <= k < |draws| ==> 0.0 <= draws[k] < 1.0
  }

  /** The code `generateCode` returns for the six draws. */
  function CodeOf(draws: seq<real>): (c: int)
    requires ValidDraws(draws)
    ensures 0 <= c <= 999999
  {
    DigitsBound(Digits(draws));
    DigitsValue(Digits(draws))
  }

  /** Leading zeros vanish: a first digit 0 leaves at most five digits. */
  lemma LeadingZeroShortens(draws: seq<real>)
    requires ValidDraws(draws) && Digits(draws)[0] == 0
    ensures CodeOf(draws) < 100000
  {
    DigitsBound(Digits(draws)[1..]);
    assert Pow10(5) == 100000 by {
      assert Pow10(1) == 10;
      assert Pow10(2) == 100;
      assert Pow10(3) == 1000;
      assert Pow10(4) == 10000;
    }
  }

  /** Different digits give different codes: the code determines every
      digit drawn. */
  lemma CodeDeterminesDigits(draws1: seq<real>, draws2: seq<real>)
    requires ValidDraws(draws1) && ValidDraws(draws2) && CodeOf(draws1) == CodeOf(draws2)
    ensures Digits(draws1) == Digits(draws2)
  {
    DigitsValueInjective(Digits(draws1), Digits(draws2));
  }

  /** `generateCode`: the loop pushes one digit per draw, then the digits
      are joined and parsed. */
  method GenerateCode(draws: seq<real>) returns (code: int)
    requires ValidDraws(draws)
    ensures code == CodeOf(draws)
    ensures 0 <= code <= 999999
  {
    var ds: seq<int> := [];
    var i := 0;
    while i < CODE_DIGITS
      invariant 0 <= i <= CODE_DIGITS
      invariant |ds| == i && forall k :: 0 <= k < i ==> ds[k] == GenerateNumber(0, 9, draws[k])
    {
      ds := ds + [GenerateNumber(0, 9, draws[i])];
      i := i + 1;
    }
    assert ds == Digits(draws);
    code := DigitsValue(ds);
  }
}
