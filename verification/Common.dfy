/** What several modules share. */
module Common {

  datatype Option<T> = None | Some(value: T)

  lemma Assoc<T>(a: seq<T>, b: seq<T>, c: seq<T>)
    ensures (a + b) + c == a + (b + c)
  {
  }

  /** How many values `k` bytes have. */
  function Pow256(k: nat): (p: nat)
    ensures p > 0
  {
    if k == 0 then 1 else 256 * Pow256(k - 1)
  }

  /** `digit` is the `i`-th digit of `n` to the base of 256. */
  ghost predicate IsDigit(n: nat, i: nat, digit: nat) {
    digit < 256 && exists hi: nat, lo: nat :: Splits(n, i, hi, digit, lo)
  }

  predicate Splits(n: nat, i: nat, hi: nat, digit: nat, lo: nat) {
    n == hi * Pow256(i + 1) + digit * Pow256(i) + lo && lo < Pow256(i)
  }

  lemma Scaled(hi: nat, p: nat, digit: nat, q: nat, lo: nat)
    ensures 256 * (hi * p + digit * q + lo) == hi * (256 * p) + digit * (256 * q) + 256 * lo
  {
    assert 256 * (hi * p) == hi * (256 * p) && 256 * (digit * q) == digit * (256 * q);
  }

  /** A digit of `n / 256` is the next one of `n`. */
  lemma NextDigit(n: nat, i: nat, digit: nat)
    requires IsDigit(n / 256, i, digit)
    ensures IsDigit(n, i + 1, digit)
  {
    var hi: nat, lo: nat :| Splits(n / 256, i, hi, digit, lo);
    Scaled(hi, Pow256(i + 1), digit, Pow256(i), lo);
    assert Splits(n, i + 1, hi, digit, 256 * lo + n % 256);
  }

  lemma FirstDigit(n: nat)
    ensures IsDigit(n, 0, n % 256)
  {
    assert Splits(n, 0, n / 256, n % 256, 0);
  }
}
