/**
 * CryptoProvider.generate_uniform_random: four bytes of system entropy read
 * as a big-endian unsigned integer, reduced modulo maxValue + 1. The entropy
 * source itself is outside the model; the draw arrives as a parameter.
 */
module CryptoProvider {
  import opened Wrappers
  import opened Arithmetic

  /** The number of distinct four-byte draws. */
  const DrawRange: nat := 0x1_0000_0000

  /** A four-byte draw read as a big-endian unsigned integer. */
  type Draw = x: nat | x < DrawRange

  /**
   * A value in [0, maxValue] congruent to the draw modulo maxValue + 1, or
   * InvalidRange when the bound is negative.
   */
  function UniformRandom(maxValue: int, draw: Draw): (r: Result<nat>)
    ensures r.Err? <==> maxValue < 0
    ensures r.Err? ==> r.error == InvalidRange
    ensures r.Ok? ==> r.value <= maxValue && (draw - r.value) % (maxValue + 1) == 0
  {
    if maxValue < 0 then Err(InvalidRange)
    else
      var k := maxValue + 1;
      DivModUnique(draw - draw % k, k, draw / k, 0);
      Ok(draw % k)
  }

  /** A draw already in [0, maxValue] comes back unchanged. */
  lemma UniformRandomSmallDraw(maxValue: nat, draw: Draw)
    requires draw <= maxValue
    ensures UniformRandom(maxValue, draw) == Ok(draw)
  {
    DivModUnique(draw, maxValue + 1, 0, draw);
  }

  /** The number of draws in [0, n) that UniformRandom(maxValue, _) maps to v. */
  function Hits(maxValue: nat, n: nat, v: nat): nat
    requires n <= DrawRange
  {
    if n == 0 then 0
    else Hits(maxValue, n - 1, v) + Hit(maxValue, n - 1, v)
  }

  /** One when the draw reduces to v, else zero: a draw hits v exactly when it is v modulo maxValue + 1. */
  function Hit(maxValue: nat, draw: Draw, v: nat): (h: nat)
    ensures h == if draw % (maxValue + 1) == v then 1 else 0
  {
    if UniformRandom(maxValue, draw) == Ok(v) then 1 else 0
  }

  /**
   * Each value in [0, maxValue] is hit by floor(n / (maxValue + 1)) draws, plus
   * one when it lies below the remainder: the modulo reduction is uniform up to
   * one draw.
   */
  lemma {:induction false} HitsCount(maxValue: nat, n: nat, v: nat)
    requires n <= DrawRange && v <= maxValue
    ensures Hits(maxValue, n, v) == n / (maxValue + 1) + (if v < n % (maxValue + 1) then 1 else 0)
  {
    if n == 0 {
    } else {
      HitsCount(maxValue, n - 1, v);
      HitsStep(maxValue, n, v);
    }
  }

  /** The count for n draws follows from the count for n - 1 draws. */
  lemma HitsStep(maxValue: nat, n: nat, v: nat)
    requires 0 < n <= DrawRange && v <= maxValue
    requires Hits(maxValue, n - 1, v) == (n - 1) / (maxValue + 1) + (if v < (n - 1) % (maxValue + 1) then 1 else 0)
    ensures Hits(maxValue, n, v) == n / (maxValue + 1) + (if v < n % (maxValue + 1) then 1 else 0)
  {
    var k := maxValue + 1;
    assert Hits(maxValue, n, v) == Hits(maxValue, n - 1, v) + Hit(maxValue, n - 1, v);
    CountStep(n, k, v);
  }

  /** One more draw adds a hit to v exactly when it reduces to v. */
  lemma CountStep(n: nat, k: nat, v: nat)
    requires 0 < n && v < k
    ensures (n - 1) / k + (if v < (n - 1) % k then 1 else 0) + (if (n - 1) % k == v then 1 else 0)
            == n / k + (if v < n % k then 1 else 0)
  {
    DivModStep(n - 1, k);
  }

  /** Over all four-byte draws, no two results differ in frequency by more than one. */
  lemma UniformRandomNearlyUniform(maxValue: nat, v: nat, w: nat)
    requires v <= maxValue && w <= maxValue
    ensures Hits(maxValue, DrawRange, v) <= Hits(maxValue, DrawRange, w) + 1
  {
    HitsCount(maxValue, DrawRange, v);
    HitsCount(maxValue, DrawRange, w);
  }

  /** When maxValue + 1 divides the number of draws, every result is equally likely. */
  lemma UniformRandomExactWhenDividing(maxValue: nat, v: nat)
    requires v <= maxValue && DrawRange % (maxValue + 1) == 0
    ensures Hits(maxValue, DrawRange, v) * (maxValue + 1) == DrawRange
  {
    HitsCount(maxValue, DrawRange, v);
  }
}
