/** Random helpers of utils.js. `Math.random()` is replaced by injected
    fractions in [0, 1), written as exact reals. */
module Utils {

  import opened Wrappers

  /** A source of random fractions: the k-th call of `Math.random()` returns `draws(k)`. */
  ghost predicate ValidDraws(draws: nat -> real)
  {
    forall k :: 0.0 <= draws(k) < 1.0
  }

  lemma ProductBelow(r: real, d: real)
    requires 0.0 <= r < 1.0 && 0.0 < d
    ensures 0.0 <= r * d < d
  {
    assert (1.0 - r) * d > 0.0;
  }

  /** `randomInt(min, max)`: the floor of the fraction scaled to the width
      `max - min` and shifted by `min`. The maximum is exclusive and the
      minimum inclusive. */
  function RandomInt(min: int, max: int, r: real): (n: int)
    requires 0.0 <= r < 1.0
    ensures min < max ==> min <= n < max
    ensures min == max ==> n == min
    ensures max < min ==> max <= n <= min
  {
    if min < max then
      ProductBelow(r, (max - min) as real);
      (r * (max - min) as real + min as real).Floor
    else if min == max then
      (r * (max - min) as real + min as real).Floor
    else
      ProductBelow(r, (min - max) as real);
      assert r * (max - min) as real == -(r * (min - max) as real);
      (r * (max - min) as real + min as real).Floor
  }

  /** Each value in [min, max) is returned for exactly the fractions of one
      interval of width 1 / (max - min): the draw is uniform over the range. */
  lemma RandomIntPreimage(min: int, max: int, r: real, j: int)
    requires min < max && 0.0 <= r < 1.0
    ensures RandomInt(min, max, r) == j <==>
              (j - min) as real <= r * (max - min) as real < (j - min + 1) as real
  {
  }

  /** The fraction `(j - min) / (max - min)` draws `j`. */
  lemma RandomIntHits(min: int, max: int, j: int)
    requires min <= j < max
    ensures var r := (j - min) as real / (max - min) as real;
            0.0 <= r < 1.0 && RandomInt(min, max, r) == j
  {
    var d := (max - min) as real;
    var r := (j - min) as real / d;
    assert r * d == (j - min) as real;
    RandomIntPreimage(min, max, r, j);
  }

  /** The length of a BigInt's decimal string: the number of decimal digits,
      plus one for the sign of a negative value. */
  function DecimalLength(n: int): (len: nat)
    decreases if n < 0 then 1 - n else n
  {
    if n < 0 then 1 + DecimalLength(-n)
    else if n < 10 then 1
    else 1 + DecimalLength(n / 10)
  }

  function Pow10(e: nat): (p: nat)
    ensures p >= 1
  {
    if e == 0 then 1 else 10 * Pow10(e - 1)
  }

  lemma {:induction false} Pow10Add(a: nat, b: nat)
    ensures Pow10(a + b) == Pow10(a) * Pow10(b)
  {
    if b > 0 {
      Pow10Add(a, b - 1);
      assert Pow10(a + b) == 10 * Pow10(a + b - 1);
    }
  }

  lemma {:induction false} Pow10Monotone(a: nat, b: nat)
    requires a <= b
    ensures Pow10(a) <= Pow10(b)
  {
    if a < b {
      Pow10Monotone(a, b - 1);
    }
  }

  /** The decimal string of a non-negative value has as many characters as the
      value has digits. */
  lemma {:induction false} DecimalLengthBounds(n: nat)
    ensures n < Pow10(DecimalLength(n))
    ensures n >= 1 ==> Pow10(DecimalLength(n) - 1) <= n
  {
    if n >= 10 {
      DecimalLengthBounds(n / 10);
    }
  }

  /** `digits` as utils.js computes it: the length of the range's decimal
      string divided by nine, plus two, truncated to an integer. */
  function DigitGroups(range: int): (digits: nat)
    ensures digits >= 2
  {
    DecimalLength(range) / 9 + 2
  }

  /** One nine-digit draw: the fraction scaled by 10^9 and truncated to an
      integer. */
  function NineDigits(r: real): (d: int)
    requires 0.0 <= r < 1.0
    ensures 0 <= d < 1000000000
  {
    (r * 1000000000.0).Floor
  }

  /** The value `rand` holds after `n` rounds of the loop of `randomBigInt`. */
  function Accumulated(draws: nat -> real, n: nat): (rand: int)
    requires ValidDraws(draws)
  {
    if n == 0 then 0 else Accumulated(draws, n - 1) * 1000000000 + NineDigits(draws(n - 1))
  }

  /** After `n` rounds, `rand` is a number of at most `9 * n` decimal digits. */
  lemma {:induction false} AccumulatedBounds(draws: nat -> real, n: nat)
    requires ValidDraws(draws)
    ensures 0 <= Accumulated(draws, n) < Pow10(9 * n)
  {
    if n > 0 {
      AccumulatedBounds(draws, n - 1);
      Pow10Add(9 * (n - 1), 9);
      assert Pow10(9) == 1000000000;
      var p := Pow10(9 * (n - 1));
      var a := Accumulated(draws, n - 1);
      assert a <= p - 1;
      assert a * 1000000000 <= p * 1000000000 - 1000000000;
    }
  }

  /** The draws span at least nine more decimal digits than the range has, so
      the number reduced modulo the range is over 10^9 times larger than it. */
  lemma DrawSpaceExceedsRange(range: nat)
    ensures range * 1000000000 < Pow10(9 * DigitGroups(range))
  {
    var len := DecimalLength(range);
    DecimalLengthBounds(range);
    Pow10Monotone(len, 9 * (len / 9 + 1));
    Pow10Add(9 * (len / 9 + 1), 9);
    assert 9 * DigitGroups(range) == 9 * (len / 9 + 1) + 9;
    assert Pow10(9) == 1000000000;
  }

  /** `randomBigInt(min, max)`; `draws` supplies the successive results of
      `Math.random()`. The result is `None` when `max == min`: the BigInt
      remainder by zero throws a RangeError. */
  method RandomBigInt(min: int, max: int, draws: nat -> real) returns (r: Option<int>, used: nat)
    requires ValidDraws(draws)
    ensures used == DigitGroups(max - min) && used >= 2
    ensures r.None? <==> max == min
    ensures r.Some? ==> r.value == min + Accumulated(draws, used) % (max - min)
    ensures max > min ==> r.Some? && min <= r.value < max
    ensures max < min ==> r.Some? && min <= r.value < min + (min - max)
  {
    var range := max - min;
    var rand := 0;
    var digits := DecimalLength(range) / 9 + 2;
    used := 0;
    while digits != 0
      invariant digits >= 0
      invariant used + digits == DigitGroups(range)
      invariant rand == Accumulated(draws, used)
    {
      digits := digits - 1;
      rand := rand * 1000000000;
      rand := rand + NineDigits(draws(used));
      used := used + 1;
    }
    AccumulatedBounds(draws, used);
    if range == 0 {
      r := None;
    } else {
      // JavaScript's `%` keeps the sign of the dividend; `rand` is non-negative,
      // so it agrees with Dafny's Euclidean remainder.
      r := Some(min + rand % range);
    }
  }
}
