/** Facts about counting modulo a positive period, shared by the looping counters. */
module Modular {

  /** Counting starts at 0 modulo any period. */
  lemma ZeroMod(p: nat)
    requires p > 0
    ensures 0 % p == 0
  {
  }

  /** A multiple of `p` strictly between `-p` and `p` is zero. */
  lemma SmallMultipleIsZero(p: int, k: int)
    requires p > 0 && -p < p * k < p
    ensures k == 0
  {
  }

  /** The remainder is the unique `r` in `[0, p)` with `a == q * p + r`. */
  lemma ModUnique(a: int, p: int, q: int, r: int)
    requires p > 0 && 0 <= r < p && a == q * p + r
    ensures a % p == r
  {
    var q', r' := a / p, a % p;
    assert a == q' * p + r';
    assert p * (q - q') == r' - r by {
      assert p * (q - q') == q * p - q' * p;
    }
    SmallMultipleIsZero(p, q - q');
  }

  /** Counting modulo `p` steps up by one and wraps from `p - 1` to 0. */
  lemma ModSuccessor(n: nat, p: nat)
    requires p > 0
    ensures (n + 1) % p == if n % p == p - 1 then 0 else n % p + 1
  {
    var q, r := n / p, n % p;
    assert n == q * p + r;
    if r == p - 1 {
      assert n + 1 == (q + 1) * p + 0 by {
        assert (q + 1) * p == q * p + p;
      }
      ModUnique(n + 1, p, q + 1, 0);
    } else {
      ModUnique(n + 1, p, q, r + 1);
    }
  }
}
