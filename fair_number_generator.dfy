/**
 * FairNumberGenerator.generate_fair_number: a commitment to a uniformly drawn
 * number, made by keying a hash of the number's decimal text with a fresh
 * 16-byte key. The keyed hash (HMAC-SHA256) is a parameter of the model; the
 * hex encoding of the digest for display is not modelled.
 */
module FairNumberGenerator {
  import opened Wrappers
  import opened Text
  import opened CryptoProvider

  /** Sixteen bytes of system entropy. */
  type Key = k: seq<byte> | |k| == 16 witness [0, 0, 0, 0, 0, 0, 0, 0, 0, 0, 0, 0, 0, 0, 0, 0]

  /** A keyed hash: key and message to digest. */
  type Mac = (seq<byte>, seq<byte>) -> seq<byte>

  /** The number, the key that hides it and the digest shown before the reveal. */
  datatype Commitment = Commitment(number: nat, key: Key, digest: seq<byte>)

  /** The bytes that get hashed: str(number).encode(). */
  function Message(number: nat): (m: seq<byte>)
    ensures |m| == |NatToDecimal(number)|
  {
    Encode(NatToDecimal(number))
  }

  /** What a counterpart checks after the reveal: the digest recomputes from key and number. */
  predicate Verifies(c: Commitment, hmac: Mac) {
    hmac(c.key, Message(c.number)) == c.digest
  }

  /**
   * A number drawn in [0, maxValue] and committed to under the key; a negative
   * bound is the draw's InvalidRange error. Every commitment made here passes
   * the counterpart's check.
   */
  function GenerateFairNumber(maxValue: int, key: Key, draw: Draw, hmac: Mac): (r: Result<Commitment>)
    ensures r.Err? <==> maxValue < 0
    ensures r.Err? ==> r.error == InvalidRange
    ensures r.Ok? ==> r.value.number <= maxValue && r.value.key == key && Verifies(r.value, hmac)
    ensures r.Ok? ==> UniformRandom(maxValue, draw) == Ok(r.value.number)
  {
    match UniformRandom(maxValue, draw)
    case Err(e) => Err(e)
    case Ok(number) => Ok(Commitment(number, key, hmac(key, Message(number))))
  }

  /** The hash gives different digests to different messages under this key. */
  ghost predicate CollisionFree(hmac: Mac, key: Key) {
    forall m1, m2 :: hmac(key, m1) == hmac(key, m2) ==> m1 == m2
  }

  lemma MessageInjective(m: nat, n: nat)
    requires Message(m) == Message(n)
    ensures m == n
  {
    EncodeInjective(NatToDecimal(m), NatToDecimal(n));
    NatToDecimalInjective(m, n);
  }

  /**
   * Binding: once the digest is shown, the only number that can be revealed
   * with the same key and pass the check is the committed one, as long as the
   * hash has no collisions under that key.
   */
  lemma RevealIsBinding(c: Commitment, number: nat, hmac: Mac)
    requires CollisionFree(hmac, c.key)
    requires Verifies(c, hmac)
    requires Verifies(Commitment(number, c.key, c.digest), hmac)
    ensures number == c.number
  {
    assert hmac(c.key, Message(number)) == hmac(c.key, Message(c.number));
    MessageInjective(number, c.number);
  }
}
