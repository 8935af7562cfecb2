/** Machine words: the 64-bit counters of the ring, wrapping arithmetic on them,
    and indexing by a power-of-two mask. */
module Words {

  const WORD: nat := 0x1_0000_0000_0000_0000

  type Word = x: nat | x < WORD

  /** `wrapping_add` of the machine, on words. */
  function WrappingAdd(a: nat, b: nat): (r: nat)
    ensures a < WORD && b < WORD ==> r == (a + b) % WORD
  {
    if a + b < WORD then a + b else a + b - WORD
  }

  /** `wrapping_sub` of the machine, on words. */
  function WrappingSub(a: nat, b: nat): (r: int)
    ensures a < WORD && b < WORD ==> r == (a - b) % WORD
  {
    if a >= b then a - b else a - b + WORD
  }

  function Pow2(k: nat): (p: nat)
    ensures p > 0
  {
    if k == 0 then 1 else 2 * Pow2(k - 1)
  }

  /** Bitwise conjunction of two naturals, one binary digit at a time. */
  function BitAnd(a: nat, b: nat): nat {
    if a == 0 || b == 0 then 0 else 2 * BitAnd(a / 2, b / 2) + (a % 2) * (b % 2)
  }

  /** Masking with 2^k - 1 is the remainder modulo 2^k. */
  lemma {:induction false} MaskIsRemainder(a: nat, k: nat)
    ensures BitAnd(a, Pow2(k) - 1) == a % Pow2(k)
  {
    var p := Pow2(k);
    var half := p / 2;
    if k == 0 {
    } else if a == 0 {
      RemainderIsUnique(0, p, 0, 0);
    } else {
      BitAndUnfold(a, half);
      MaskIsRemainder(a / 2, k - 1);
      RemainderByDoubling(a, half);
    }
  }

  lemma BitAndUnfold(a: nat, half: nat)
    requires half > 0
    ensures BitAnd(a, 2 * half - 1) == 2 * BitAnd(a / 2, half - 1) + a % 2
  {
    assert (2 * half - 1) / 2 == half - 1 && (2 * half - 1) % 2 == 1;
  }

  lemma RemainderByDoubling(a: nat, half: nat)
    requires half > 0
    ensures a % (2 * half) == 2 * ((a / 2) % half) + a % 2
  {
    var q, r := (a / 2) / half, (a / 2) % half;
    assert a == 2 * (half * q + r) + a % 2;
    RemainderIsUnique(a, 2 * half, q, 2 * r + a % 2) by {
      assert (2 * half) * q == 2 * (half * q);
    }
  }

  lemma RemainderIsUnique(a: nat, d: nat, q: nat, r: nat)
    requires 0 <= r < d
    requires a == d * q + r
    ensures a % d == r
    ensures a / d == q
  {
    var q', r' := a / d, a % d;
    assert d * (q - q') == d * q - d * q' == r' - r;
    assert d * (q' - q) == d * q' - d * q == r - r';
    if q > q' {
      ProductAtLeast(d, q - q');
    } else if q < q' {
      ProductAtLeast(d, q' - q);
    }
  }

  lemma ProductAtLeast(d: nat, n: nat)
    requires n >= 1
    ensures d * n >= d
  {
  }
}
