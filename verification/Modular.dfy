/** Remainders with a symbolic modulus. */
module Modular {

  lemma Split(n: int, w: nat)
    requires w > 0
    ensures n == n / w * w + n % w && 0 <= n % w < w
  {
  }

  lemma Multiple(k: int, w: nat)
    requires w > 0
    ensures k >= 1 ==> k * w >= w
    ensures k >= 2 ==> k * w >= 2 * w
    ensures k <= 0 ==> k * w <= 0
    ensures k <= -1 ==> k * w <= 0 - w
    ensures k == 1 ==> k * w == w
  {
  }

  /** Quotient and remainder are the only way to write a number as a multiple plus a small rest. */
  lemma Unique(n: int, w: nat, q: int, r: nat)
    requires r < w && n == q * w + r
    ensures n / w == q && n % w == r
  {
    Split(n, w);
    var k := n / w - q;
    assert k * w == n / w * w - q * w;
    Multiple(k, w);
  }

  lemma RemainderAtMost(n: nat, w: nat)
    requires w > 0
    ensures n % w <= n
  {
    Split(n, w);
    Multiple(n / w, w);
    Multiple(0 - n / w, w);
    assert (0 - n / w) * w == 0 - n / w * w;
  }

  lemma AddMultiple(n: int, k: int, w: nat)
    requires w > 0
    ensures (n + k * w) % w == n % w
  {
    Split(n, w);
    assert n + k * w == (n / w + k) * w + n % w;
    Unique(n + k * w, w, n / w + k, n % w);
  }

  lemma AddRemainder(a: int, b: int, w: nat)
    requires w > 0
    ensures (a % w + b) % w == (a + b) % w
  {
    Split(a, w);
    AddMultiple(a % w + b, a / w, w);
  }

  /** Two numbers have the same remainder exactly when the modulus divides their difference. */
  lemma SameRemainder(a: int, b: int, w: nat)
    requires w > 0
    ensures a % w == b % w <==> (b - a) % w == 0
  {
    Split(a, w);
    Split(b, w);
    Split(b - a, w);
    if a % w == b % w {
      assert b - a == (b / w - a / w) * w + 0;
      Unique(b - a, w, b / w - a / w, 0);
    } else if (b - a) % w == 0 {
      assert b == a + (b - a) / w * w;
      AddMultiple(a, (b - a) / w, w);
      assert false;
    }
  }
}
