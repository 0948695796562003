/** The shortest decimal spelling of an exact fraction. */
module DecimalText {
  import opened Decimals

  type pos = n: nat | n > 0 witness 1

  function Power(b: pos, n: nat): pos {
    if n == 0 then 1 else Positive(b, Power(b, n - 1))
  }

  function Positive(a: pos, b: pos): (r: pos)
    ensures r == a * b
  {
    ProductIsPositive(a, b);
    a * b
  }

  lemma ProductIsPositive(a: pos, b: pos)
    ensures a * b > 0
  {
  }

  /** In lowest terms. */
  ghost predicate Reduced(numerator: int, denominator: nat) {
    forall d: nat :: d > 1 && numerator % d == 0 ==> denominator % d != 0
  }

  /** Some power of ten is a multiple of the denominator. */
  ghost predicate HasFiniteForm(denominator: pos) {
    exists k: nat, m: nat :: Multiple(denominator, m, k)
  }

  predicate Multiple(denominator: nat, m: nat, k: nat) {
    denominator * m == Power(10, k)
  }

  // ---------------------------------------------------------------- arithmetic

  lemma {:induction false} TenIsTwoTimesFive(n: nat)
    ensures Power(10, n) == Power(2, n) * Power(5, n)
  {
    if n > 0 {
      TenIsTwoTimesFive(n - 1);
      Regroup(Power(2, n - 1), Power(5, n - 1));
    }
  }

  lemma Regroup(a: nat, b: nat)
    ensures 10 * (a * b) == (2 * a) * (5 * b)
  {
    assert (2 * a) * (5 * b) == 2 * (a * (5 * b));
    assert a * (5 * b) == 5 * (a * b);
  }

  lemma {:induction false} PowerSplits(b: pos, m: nat, n: nat)
    requires m <= n
    ensures Power(b, n) == Power(b, m) * Power(b, n - m)
  {
    if m > 0 {
      PowerSplits(b, m - 1, n - 1);
      Associate(b, Power(b, m - 1), Power(b, n - m));
    }
  }

  lemma Associate(a: int, b: int, c: int)
    ensures a * (b * c) == (a * b) * c
  {
  }

  lemma Commute4(a: int, b: int, c: int, d: int)
    ensures (a * b) * (c * d) == (a * c) * (b * d)
  {
    Associate(a * b, c, d);
    Associate(a, b, c);
    Associate(a, c, b);
    Associate(a * c, b, d);
  }

  lemma EvenProduct(a: int, b: int)
    ensures (a * b) % 2 == 0 <==> a % 2 == 0 || b % 2 == 0
  {
    var h, r := a / 2, a % 2;
    assert a == 2 * h + r;
    assert a * b == 2 * (h * b) + r * b;
    ModTwo(h * b, r * b);
    assert r == 1 ==> r * b == b;
  }

  lemma FiveProduct(a: int, b: int)
    ensures (a * b) % 5 == 0 <==> a % 5 == 0 || b % 5 == 0
  {
    var h, r := a / 5, a % 5;
    assert a == 5 * h + r;
    RestTimes(h, r, b);
    SmallTimes(r, b);
    ModFive(h * b, r * b);
  }

  lemma RestTimes(h: int, r: int, b: int)
    ensures (5 * h + r) * b == 5 * (h * b) + r * b
  {
  }

  lemma SmallTimes(r: int, b: int)
    requires 0 <= r <= 4
    ensures (r * b) % 5 == 0 <==> r == 0 || b % 5 == 0
  {
    var k, s := b / 5, b % 5;
    assert b == 5 * k + s;
    if r == 0 {
      assert r * b == 0;
    } else if r == 1 {
      assert r * b == b;
    } else if r == 2 {
      assert r * b == 5 * (2 * k) + 2 * s;
    } else if r == 3 {
      assert r * b == 5 * (3 * k) + 3 * s;
    } else {
      assert r * b == 5 * (4 * k) + 4 * s;
    }
  }

  lemma {:induction false} FivesAreOdd(n: nat)
    ensures Power(5, n) % 2 != 0
  {
    if n > 0 {
      FivesAreOdd(n - 1);
      EvenProduct(5, Power(5, n - 1));
    }
  }

  lemma {:induction false} TwosAreFreeOfFive(n: nat)
    ensures Power(2, n) % 5 != 0
  {
    if n > 0 {
      TwosAreFreeOfFive(n - 1);
      FiveProduct(2, Power(2, n - 1));
    }
  }

  lemma TenTimesProduct(q: nat, h: nat)
    ensures q * (10 * h) == 10 * (q * h)
  {
  }

  lemma TenDivides(m: nat)
    ensures m % 10 == 0 <==> m % 2 == 0 && m % 5 == 0
  {
    TensAndLast(m / 10, m % 10);
  }

  lemma TensAndLast(h: nat, last: nat)
    ensures (10 * h + last) % 2 == last % 2 && (10 * h + last) % 5 == last % 5
  {
    ModTwo(5 * h, last);
    ModFive(2 * h, last);
  }

  lemma ModTwo(a: int, x: int)
    ensures (2 * a + x) % 2 == x % 2
  {
  }

  lemma ModFive(a: int, x: int)
    ensures (5 * a + x) % 5 == x % 5
  {
  }

  lemma TenthOf(q: nat, m: nat, product: nat, tenth: nat)
    requires q % 2 != 0 && q % 5 != 0 && product == q * m && product == 10 * tenth
    ensures q * (m / 10) == tenth
  {
    EvenProduct(q, m);
    FiveProduct(q, m);
    TenDivides(m);
    TenTimesProduct(q, m / 10);
  }

  lemma AtLeast(q: nat, m: pos)
    ensures q * m >= q
  {
  }

  lemma FactorOfOne(q: nat, m: nat)
    requires q * m == 1
    ensures q == 1
  {
    assert m > 0 && q > 0;
    AtLeast(q, m);
  }

  /** Only one divides a power of ten without a factor two or five. */
  lemma {:induction false} OnlyOneDivides(q: nat, m: nat, k: nat)
    requires q % 2 != 0 && q % 5 != 0 && q * m == Power(10, k)
    ensures q == 1
  {
    if k == 0 {
      FactorOfOne(q, m);
    } else {
      TenthOf(q, m, Power(10, k), Power(10, k - 1));
      OnlyOneDivides(q, m / 10, k - 1);
    }
  }

  // ---------------------------------------------------------------- the value of the result

  lemma {:induction false} ScaledDown(x: real, n: nat)
    ensures Scaled(x, 0 - n) * (Power(10, n) as real) == x
  {
    if n > 0 {
      ScaledDown(x, n - 1);
      var v, p := Scaled(x, 0 - (n - 1)), Power(10, n - 1) as real;
      assert Scaled(x, 0 - n) == v / 10.0;
      assert Power(10, n) as real == 10.0 * p;
      Cancel(v, p);
    }
  }

  lemma Cancel(v: real, p: real)
    ensures (v / 10.0) * (10.0 * p) == v * p
  {
    var w := v / 10.0;
    assert w * (10.0 * p) == (w * 10.0) * p;
  }

  lemma QuotientIs(v: real, n: real, d: real, p: real, s: real)
    requires d > 0.0 && p > 0.0 && v * p == s && s * d == n * p
    ensures v == n / d
  {
    assert v * p * d == n * p;
    assert (v * d - n) * p == v * p * d - n * p;
    assert (v * d - n) * p == 0.0;
    assert v * d - n == 0.0;
  }

  lemma ExactValue(c: nat, n: nat, denominator: pos, places: nat)
    requires c * denominator == n * Power(10, places)
    ensures Value(c, 0 - places) == n as real / denominator as real
  {
    ScaledDown(c as real, places);
    var p := Power(10, places);
    RealProduct(c, denominator);
    RealProduct(n, p);
    QuotientIs(Value(c, 0 - places), n as real, denominator as real, p as real, c as real);
  }

  lemma RealProduct(a: nat, b: nat)
    ensures (a * b) as real == a as real * b as real
  {
  }

  // ---------------------------------------------------------------- the conversion

  function Twos(n: pos): nat {
    if n % 2 == 0 then 1 + Twos(n / 2) else 0
  }

  function WithoutTwos(n: pos): (r: pos)
    ensures r % 2 != 0
  {
    if n % 2 == 0 then WithoutTwos(n / 2) else n
  }

  function Fives(n: pos): nat {
    if n % 5 == 0 then 1 + Fives(n / 5) else 0
  }

  function WithoutFives(n: pos): (r: pos)
    ensures r % 5 != 0
    ensures n % 2 != 0 ==> r % 2 != 0
  {
    if n % 5 == 0 then
      FifthIsSmaller(n);
      WithoutFives(n / 5)
    else n
  }

  lemma FifthIsSmaller(n: nat)
    requires n > 0 && n % 5 == 0
    ensures 0 < n / 5 < n
    ensures n % 2 != 0 ==> (n / 5) % 2 != 0
  {
    var q := n / 5;
    assert n == 5 * q;
    if q % 2 == 0 {
      assert n == 2 * (5 * (q / 2));
    }
  }

  lemma {:induction false} TwosTimesRest(n: pos)
    ensures n == WithoutTwos(n) * Power(2, Twos(n))
  {
    if n % 2 == 0 {
      TwosTimesRest(n / 2);
      Move(WithoutTwos(n / 2), 2, Power(2, Twos(n / 2)));
    }
  }

  lemma {:induction false} FivesTimesRest(n: pos)
    ensures n == WithoutFives(n) * Power(5, Fives(n))
  {
    if n % 5 == 0 {
      FivesTimesRest(n / 5);
      Move(WithoutFives(n / 5), 5, Power(5, Fives(n / 5)));
    }
  }

  lemma Move(rest: nat, b: nat, power: nat)
    ensures b * (rest * power) == rest * (b * power)
  {
  }

  /** The denominator's factors of two and five, and what is left. */
  predicate Factored(denominator: nat, rest: nat, twos: nat, fives: nat) {
    rest > 0 && rest % 2 != 0 && rest % 5 != 0 && denominator == rest * (Power(2, twos) * Power(5, fives))
  }

  lemma FactorsAreRight(denominator: pos)
    ensures var odd := WithoutTwos(denominator);
            Factored(denominator, WithoutFives(odd), Twos(denominator), Fives(odd))
  {
    var odd := WithoutTwos(denominator);
    TwosTimesRest(denominator);
    FivesTimesRest(odd);
    Triple(denominator, odd, WithoutFives(odd), Power(2, Twos(denominator)), Power(5, Fives(odd)));
  }

  lemma Triple(n: nat, odd: nat, rest: nat, two: nat, five: nat)
    requires n == odd * two && odd == rest * five
    ensures n == rest * (two * five)
  {
    Associate(rest, five, two);
    assert five * two == two * five;
  }

  function Larger(a: nat, b: nat): nat { if a > b then a else b }

  /** What is left of ten to the number of places. */
  function Cofactor(twos: nat, fives: nat): pos {
    Positive(Power(2, Larger(twos, fives) - twos), Power(5, Larger(twos, fives) - fives))
  }

  lemma Multiplied(ten: nat, two: nat, five: nat, a: nat, b: nat, c: nat, d: nat)
    requires ten == two * five && two == a * b && five == c * d
    ensures ten == (a * c) * (b * d)
  {
    Commute4(a, b, c, d);
  }

  lemma TenSplits(twos: nat, fives: nat, factor: nat)
    requires factor == Power(2, twos) * Power(5, fives)
    ensures Power(10, Larger(twos, fives)) == factor * Cofactor(twos, fives)
  {
    TenSplitsAt(Larger(twos, fives), twos, fives, factor, Cofactor(twos, fives));
  }

  lemma TenSplitsAt(p: nat, twos: nat, fives: nat, factor: nat, cofactor: nat)
    requires twos <= p && fives <= p
    requires factor == Power(2, twos) * Power(5, fives) && cofactor == Power(2, p - twos) * Power(5, p - fives)
    ensures Power(10, p) == factor * cofactor
  {
    TenIsTwoTimesFive(p);
    PowerSplits(2, twos, p);
    PowerSplits(5, fives, p);
    Multiplied(Power(10, p), Power(2, p), Power(5, p), Power(2, twos), Power(2, p - twos), Power(5, fives), Power(5, p - fives));
  }

  /** Dividing out all twos and fives leaves one exactly when a finite decimal exists. */
  lemma FiniteWhenOneIsLeft(denominator: pos, rest: nat, twos: nat, fives: nat)
    requires Factored(denominator, rest, twos, fives)
    ensures HasFiniteForm(denominator) <==> rest == 1
  {
    if rest == 1 {
      TenSplits(twos, fives, denominator);
      assert Multiple(denominator, Cofactor(twos, fives), Larger(twos, fives));
    }
    if HasFiniteForm(denominator) {
      var k: nat, m: nat :| Multiple(denominator, m, k);
      var factor := Power(2, twos) * Power(5, fives);
      Associate(rest, factor, m);
      OnlyOneDivides(rest, factor * m, k);
    }
  }

  lemma ExactQuotient(n: nat, power: nat, denominator: pos, cofactor: nat)
    requires power == denominator * cofactor
    ensures n * power / denominator == n * cofactor
    ensures (n * cofactor) * denominator == n * power
  {
    Associate(n, cofactor, denominator);
    assert denominator * cofactor == cofactor * denominator;
    DivideExactly(n * cofactor, denominator, n * power);
  }

  lemma LargeMultiple(x: int, d: pos)
    requires x != 0
    ensures x * d < 0 || x * d >= d
  {
    if x > 0 {
      AtLeast(d, x);
    } else {
      NegatedProduct(x, d);
      AtLeast(d, 0 - x);
    }
  }

  lemma NegatedProduct(x: int, d: int)
    ensures d * (0 - x) == 0 - x * d
  {
  }

  lemma Distribute(q: int, r: int, d: int)
    ensures (q - r) * d == q * d - r * d
  {
  }

  lemma DivideExactly(q: nat, d: pos, product: nat)
    requires product == q * d
    ensures product / d == q
  {
    var r := product / d;
    Division(product, d);
    Distribute(q, r, d);
    if q != r {
      LargeMultiple(q - r, d);
    }
  }

  lemma Division(n: nat, d: pos)
    ensures 0 <= n - (n / d) * d < d
  {
    assert n == d * (n / d) + n % d;
  }

  lemma FactorsOf(numerator: int, n: nat, denominator: nat, d: nat)
    requires Reduced(numerator, denominator) && n == (if numerator < 0 then -numerator else numerator)
    requires d > 1 && denominator % d == 0
    ensures d == 2 ==> n % 2 != 0
    ensures d == 5 ==> n % 5 != 0
  {
    assert numerator % d != 0;
  }

  lemma LastIsOdd(n: nat, twos: nat, fives: nat)
    requires twos >= fives && n % 2 != 0
    ensures (n * Cofactor(twos, fives)) % 2 != 0
  {
    FivesAreOdd(twos - fives);
    assert Power(2, 0) == 1;
    assert Cofactor(twos, fives) == Power(5, twos - fives);
    EvenProduct(n, Cofactor(twos, fives));
  }

  lemma LastIsNotFive(n: nat, twos: nat, fives: nat)
    requires twos < fives && n % 5 != 0
    ensures (n * Cofactor(twos, fives)) % 5 != 0
  {
    TwosAreFreeOfFive(fives - twos);
    assert Power(5, 0) == 1;
    assert Cofactor(twos, fives) == Power(2, fives - twos);
    FiveProduct(n, Cofactor(twos, fives));
  }

  /** In lowest terms the last digit after the point is not zero. */
  lemma LastDigit(numerator: int, n: nat, denominator: nat, twos: nat, fives: nat)
    requires Reduced(numerator, denominator) && n == (if numerator < 0 then -numerator else numerator)
    requires denominator == Power(2, twos) * Power(5, fives) && Larger(twos, fives) > 0
    ensures (n * Cofactor(twos, fives)) % 10 != 0
  {
    TenDivides(n * Cofactor(twos, fives));
    if twos >= fives {
      EvenWhenTwos(denominator, twos, Power(5, fives));
      FactorsOf(numerator, n, denominator, 2);
      LastIsOdd(n, twos, fives);
    } else {
      FiveWhenFives(denominator, fives, Power(2, twos));
      FactorsOf(numerator, n, denominator, 5);
      LastIsNotFive(n, twos, fives);
    }
  }

  lemma EvenWhenTwos(denominator: nat, twos: nat, others: nat)
    requires twos > 0 && denominator == Power(2, twos) * others
    ensures denominator % 2 == 0
  {
    assert Power(2, twos) == 2 * Power(2, twos - 1);
    Associate(2, Power(2, twos - 1), others);
  }

  lemma FiveWhenFives(denominator: nat, fives: nat, others: nat)
    requires fives > 0 && denominator == others * Power(5, fives)
    ensures denominator % 5 == 0
  {
    assert Power(5, fives) == 5 * Power(5, fives - 1);
    assert denominator == 5 * (others * Power(5, fives - 1));
  }

  /** A spelling with no zero left to strip. */
  predicate SpelledAs(text: string, negative: bool, c: nat, places: nat) {
    text == SpellSigned(negative, c, 0 - places) && (places > 0 ==> c % 10 != 0)
  }

  /** Such a spelling of exactly the fraction's value. */
  predicate Spells(text: string, numerator: int, denominator: pos, c: nat, places: nat) {
    SpelledAs(text, numerator < 0, c, places) &&
    Signed(numerator < 0, Value(c, 0 - places)) == numerator as real / denominator as real
  }

  function Padded(digits: string, width: nat): string {
    if |digits| < width then Zeros(width - |digits|) + digits else digits
  }

  /** The point goes before the last `places` digits. */
  function WithPoint(d: string, places: nat): string
    requires places <= |d|
  {
    d[..|d| - places] + "." + d[|d| - places..]
  }

  lemma PaddedIsPointed(digits: string, places: nat)
    ensures |Padded(digits, places + 1)| > places
    ensures WithPoint(Padded(digits, places + 1), places) == PointedAt(digits, |digits| - places)
  {
    if |digits| <= places {
      var zeros := Zeros(places - |digits|);
      PaddedSmall(digits, places, zeros);
      PointFirst(zeros + digits);
      PointRegroups(zeros, digits);
    }
  }

  lemma PaddedSmall(digits: string, places: nat, zeros: string)
    requires |digits| <= places && zeros == Zeros(places - |digits|)
    ensures Padded(digits, places + 1) == "0" + (zeros + digits)
  {
    ZerosCommute(places - |digits|);
    assert "0" + zeros + digits == "0" + (zeros + digits);
  }

  lemma PointRegroups(zeros: string, digits: string)
    ensures "0" + "." + (zeros + digits) == "0." + zeros + digits
  {
  }

  lemma PointFirst(tail: string)
    ensures WithPoint("0" + tail, |tail|) == "0" + "." + tail
  {
    assert ("0" + tail)[..1] == "0" && ("0" + tail)[1..] == tail;
  }

  function Magnitude(n: int): nat { if n < 0 then -n else n }

  predicate ExactAt(numerator: int, denominator: pos, places: nat) {
    var c := ScaledUp(Magnitude(numerator), places, denominator);
    Value(c, 0 - places) == Magnitude(numerator) as real / denominator as real && (places > 0 ==> c % 10 != 0)
  }

  lemma FiniteFormIs(numerator: int, denominator: pos)
    requires Reduced(numerator, denominator)
    ensures var odd := WithoutTwos(denominator);
            (HasFiniteForm(denominator) <==> WithoutFives(odd) == 1) &&
            (WithoutFives(odd) == 1 ==> ExactAt(numerator, denominator, Larger(Twos(denominator), Fives(odd))))
  {
    var odd := WithoutTwos(denominator);
    FactorsAreRight(denominator);
    FiniteWhenOneIsLeft(denominator, WithoutFives(odd), Twos(denominator), Fives(odd));
    if WithoutFives(odd) == 1 {
      ScaledIsExact(numerator, denominator, Twos(denominator), Fives(odd));
    }
  }

  function ScaledUp(n: nat, places: nat, denominator: pos): nat {
    n * Power(10, places) / denominator
  }

  /** The number of digits after the point. */
  function Places(denominator: pos): nat {
    Larger(Twos(denominator), Fives(WithoutTwos(denominator)))
  }

  /** The spelling for a fraction in lowest terms; none exactly when no finite decimal equals it. */
  method DecimalText(numerator: int, denominator: pos) returns (r: Option<string>)
    requires Reduced(numerator, denominator)
    ensures r.None? <==> !HasFiniteForm(denominator)
    ensures r.Some? ==>
              var c := ScaledUp(Magnitude(numerator), Places(denominator), denominator);
              Spells(r.value, numerator, denominator, c, Places(denominator))
  {
    var rest: pos, twos, fives := denominator, 0, 0;
    while rest % 2 == 0
      invariant twos >= 0
      invariant twos + Twos(rest) == Twos(denominator) && WithoutTwos(rest) == WithoutTwos(denominator)
      decreases rest
    {
      rest, twos := rest / 2, twos + 1;
    }
    ghost var odd := rest;
    while rest % 5 == 0
      invariant fives >= 0
      invariant fives + Fives(rest) == Fives(odd) && WithoutFives(rest) == WithoutFives(odd)
      decreases rest
    {
      rest, fives := rest / 5, fives + 1;
    }
    FiniteFormIs(numerator, denominator);
    if rest != 1 {
      return None;
    }
    var places := if twos > fives then twos else fives;
    var scaled := ScaledUp(Magnitude(numerator), places, denominator);
    var digits := Padded(Digits(scaled), places + 1);
    assert |digits| > places;
    var text := if places > 0 then WithPoint(digits, places) else digits;
    r := Some(if numerator < 0 && scaled > 0 then "-" + text else text);
    SpelledText(scaled, places, text);
    TextSpells(numerator, denominator, scaled, places, text);
  }

  lemma ScaledIsExact(numerator: int, denominator: pos, twos: nat, fives: nat)
    requires denominator == Power(2, twos) * Power(5, fives) && Reduced(numerator, denominator)
    ensures ExactAt(numerator, denominator, Larger(twos, fives))
  {
    var places, n := Larger(twos, fives), Magnitude(numerator);
    TenSplits(twos, fives, denominator);
    ExactQuotient(n, Power(10, places), denominator, Cofactor(twos, fives));
    ExactValue(n * Cofactor(twos, fives), n, denominator, places);
    if places > 0 {
      LastDigit(numerator, n, denominator, twos, fives);
    }
  }

  lemma SpelledText(c: nat, places: nat, text: string)
    requires places > 0 ==> c % 10 != 0
    requires var d := Padded(Digits(c), places + 1);
             |d| > places && text == if places > 0 then WithPoint(d, places) else d
    ensures text == Spell(c, 0 - places)
  {
    if places > 0 {
      SpelledPoint(c, places, Digits(c), text);
    } else {
      assert Digits(c) + Zeros(0) == Digits(c);
    }
  }

  lemma SpelledPoint(c: nat, places: nat, digits: string, text: string)
    requires places > 0 && c % 10 != 0 && digits == Digits(c)
    requires var d := Padded(digits, places + 1);
             |d| > places && text == WithPoint(d, places)
    ensures text == Spell(c, 0 - places)
  {
    PaddedIsPointed(digits, places);
    SpellPointed(c, 0 - places);
    PointedFrom(c, places, digits, |digits| - places);
  }

  lemma PointedFrom(c: nat, places: nat, digits: string, point: int)
    requires places > 0 && digits == Digits(c) && point == |digits| - places
    ensures Pointed(c, 0 - places) == PointedAt(digits, point)
  {
  }

  lemma ZeroSpelling()
    ensures Spell(0, 0) == "0"
  {
    assert Digits(0) + Zeros(0) == Digits(0);
  }

  lemma NegatedQuotient(n: int, d: pos)
    ensures -((0 - n) as real / d as real) == n as real / d as real
  {
  }

  lemma TextSpells(numerator: int, denominator: pos, c: nat, places: nat, text: string)
    requires ExactAt(numerator, denominator, places)
    requires c == ScaledUp(Magnitude(numerator), places, denominator)
    requires text == Spell(c, 0 - places)
    ensures Spells(if numerator < 0 && c > 0 then "-" + text else text, numerator, denominator, c, places)
  {
    NegatedQuotient(numerator, denominator);
    if c == 0 {
      ZeroSpelling();
    }
  }

  // ---------------------------------------------------------------- reading the spelling back

  /** The spelling is already canonical, and is accepted as such unless it is too long. */
  lemma SpellingIsCanonical(text: string, negative: bool, c: nat, places: nat)
    requires SpelledAs(text, negative, c, places)
    ensures Canonical(text) == if |text| <= MAX_TEXT then Ok(text) else TooLarge
  {
    var e := 0 - places;
    assert text == SpellSigned(negative, c, e);
    SpellingIsFixed(text, negative, c, e);
  }

  lemma {:induction false} SpelledDigits(s: string)
    requires s != "" && AllDigits(s) && s[0] != '0'
    ensures Number(s) > 0 && Digits(Number(s)) == s
  {
    if |s| > 1 {
      SpelledDigits(s[..|s| - 1]);
    } else {
      assert s[..0] == "";
    }
  }

  lemma {:induction false} LeadingZerosDoNotCount(s: Numeral)
    ensures WithoutLeadingZeros(s) == if Number(s) == 0 then "" else Digits(Number(s))
  {
    if s != "" {
      if s[0] == '0' {
        LeadingZeros(1, s[1..]);
        assert s == Zeros(1) + s[1..];
        LeadingZerosDoNotCount(s[1..]);
      } else {
        SpelledDigits(s);
      }
    }
  }

  lemma PlacesRead(c: nat, places: nat) returns (whole: string, fraction: string)
    requires c > 0 && (places > 0 ==> c % 10 != 0)
    ensures Reads(Spell(c, 0 - places), Value(c, 0 - places), whole, fraction) && |fraction| == places
  {
    if places == 0 {
      whole, fraction := Digits(c) + Zeros(0), "";
      DigitsSpell(c);
      assert whole == Digits(c) && whole + "" == whole;
    } else if |Digits(c)| > places {
      whole, fraction := SpellMixed(c, 0 - places);
    } else {
      whole, fraction := SpellSmall(c, 0 - places);
    }
  }

  lemma SameDigits(text: string, value: real, c: nat, places: nat, whole: string, fraction: string)
    requires Reads(text, value, whole, fraction) && |fraction| == places && value == Value(c, 0 - places)
    ensures Number(whole + fraction) == c
  {
    SameExponent(Number(whole + fraction), c, 0 - places);
  }

  lemma ParsesLiteral(text: string, sign: string, whole: string, fraction: string, value: real)
    requires (sign == "" || sign == "-") && whole != "" && AllDigits(whole) && AllDigits(fraction)
    requires text == Literal(sign, whole, fraction) && AllDigits(whole + fraction)
    requires value == Signed(sign == "-", Value(Number(whole + fraction), 0 - |fraction|))
    ensures ParseDecimal(text) ==
            if |WithoutLeadingZeros(whole + fraction)| <= MAX_MANTISSA_DIGITS && |fraction| <= MAX_EXPONENT
            then Ok(value) else TooLarge
  {
    ScanLiteral(sign, whole, fraction);
    PartsParse(Parts(sign, whole, fraction != "", fraction, NoExponent), value);
  }

  lemma PartsParse(p: Parts, value: real)
    requires p.exponent.NoExponent? && p.whole != "" && AllDigits(p.whole + p.fraction)
    requires value == Signed(p.sign == "-", Value(Number(p.whole + p.fraction), 0 - |p.fraction|))
    ensures ParsedOf(Some(p)) ==
            if |WithoutLeadingZeros(p.whole + p.fraction)| <= MAX_MANTISSA_DIGITS && |p.fraction| <= MAX_EXPONENT
            then Ok(value) else TooLarge
  {
  }

  lemma ParsingRead(text: string, negative: bool, c: nat, whole: Numeral, fraction: Numeral, value: real)
    requires c > 0 && whole != "" && AllDigits(whole + fraction) && Number(whole + fraction) == c
    requires text == Literal(if negative then "-" else "", whole, fraction) && value == Value(c, 0 - |fraction|)
    ensures ParseDecimal(text) ==
            if |Digits(c)| <= MAX_MANTISSA_DIGITS && |fraction| <= MAX_EXPONENT
            then Ok(Signed(negative, value)) else TooLarge
  {
    LeadingZerosDoNotCount(whole + fraction);
    ParsesLiteral(text, if negative then "-" else "", whole, fraction, Signed(negative, value));
  }

  lemma ParsingSpelled(text: string, negative: bool, c: nat, places: nat, value: real)
    requires SpelledAs(text, negative, c, places) && c > 0 && value == Value(c, 0 - places)
    ensures ParseDecimal(text) ==
            if |Digits(c)| <= MAX_MANTISSA_DIGITS && places <= MAX_EXPONENT then Ok(Signed(negative, value)) else TooLarge
  {
    var whole, fraction := PlacesRead(c, places);
    SameDigits(Spell(c, 0 - places), value, c, places, whole, fraction);
    SpellSignedIs(negative, c, 0 - places, whole, fraction);
    ParsingRead(text, negative, c, whole, fraction, value);
  }

  lemma ParsingZero()
    ensures ParseDecimal("0") == Ok(0.0)
  {
    var zero := "0";
    assert zero + "" == zero && zero[..0] == "" && zero[1..] == "";
    assert Number(zero) == 0;
    assert WithoutLeadingZeros(zero) == WithoutLeadingZeros("") == "";
    ZeroValue(0, 0);
    ParsesLiteral(zero, "", zero, "", 0.0);
  }

  /** Reading the spelling gives the fraction back, exactly when its digits and places are within bounds. */
  lemma ParsingInvertsSpelling(text: string, numerator: int, denominator: pos, c: nat, places: nat)
    requires Spells(text, numerator, denominator, c, places)
    ensures ParseDecimal(text) ==
            if |Digits(c)| <= MAX_MANTISSA_DIGITS && places <= MAX_EXPONENT
            then Ok(numerator as real / denominator as real) else TooLarge
  {
    if c == 0 {
      ParsingZero();
      ZeroValue(c, 0 - places);
    } else {
      ParsingSpelled(text, numerator < 0, c, places, Value(c, 0 - places));
    }
  }

  /**
    The round trip on the result itself: reading what was spelled gives the
    fraction back exactly when its digits and places are within the reader's
    bounds, and canonicalising it changes nothing.
   */
  method SpellThenRead(numerator: int, denominator: pos) returns (text: Option<string>, value: Outcome<real>)
    requires Reduced(numerator, denominator)
    ensures text.None? <==> !HasFiniteForm(denominator)
    ensures text.Some? ==> value == ParseDecimal(text.value)
    ensures text.Some? ==>
              var c := ScaledUp(Magnitude(numerator), Places(denominator), denominator);
              value == if |Digits(c)| <= MAX_MANTISSA_DIGITS && Places(denominator) <= MAX_EXPONENT
                       then Ok(numerator as real / denominator as real) else TooLarge
    ensures text.Some? && |text.value| <= MAX_TEXT ==> Canonical(text.value) == Ok(text.value)
  {
    text := DecimalText(numerator, denominator);
    value := Malformed;
    if text.Some? {
      var c := ScaledUp(Magnitude(numerator), Places(denominator), denominator);
      ParsingInvertsSpelling(text.value, numerator, denominator, c, Places(denominator));
      SpellingIsCanonical(text.value, numerator < 0, c, Places(denominator));
      value := ParseDecimal(text.value);
    }
  }
}
