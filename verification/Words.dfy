/** Unsigned arithmetic that rolls over. */
module Words {

  /** Counts that differ by at most one are equal if they are equal after rolling over. */
  lemma RolloverExact(a: nat, b: nat, m: nat)
    requires m >= 2 && a <= b + 1 && b <= a + 1
    ensures a % m == b % m <==> a == b
  {
    if a == b + 1 { NextDiffers(b, m); }
    if b == a + 1 { NextDiffers(a, m); }
  }

  predicate Near(a: nat, b: nat) {
    a <= b + 1 && b <= a + 1
  }

  /** Two values per cycle are enough, and fewer are not. */
  lemma RolloverNeedsTwo(m: nat)
    requires m > 0
    ensures (forall a: nat, b: nat :: Near(a, b) ==> (a % m == b % m <==> a == b)) <==> m >= 2
  {
    if m >= 2 {
      forall a: nat, b: nat | Near(a, b) ensures a % m == b % m <==> a == b { RolloverExact(a, b, m); }
    } else {
      assert Near(0, 1) && 0 % m == 1 % m;
    }
  }

  lemma NextDiffers(a: nat, m: nat)
    requires m >= 2
    ensures (a + 1) % m != a % m
  {
    var q, r := a / m, a % m;
    assert a == q * m + r;
    if r + 1 < m {
      ModUnique(a + 1, q, r + 1, m);
    } else {
      assert a + 1 == (q + 1) * m;
      ModUnique(a + 1, q + 1, 0, m);
    }
  }

  lemma ModUnique(a: nat, q: nat, r: nat, m: nat)
    requires 0 <= r < m && a == q * m + r
    ensures a % m == r
  {
    var q', r' := a / m, a % m;
    assert a == q' * m + r';
    MultipleBelow(q' - q, m, r - r') by { assert (q' - q) * m == q' * m - q * m; }
  }

  lemma MultipleBelow(x: int, m: int, y: int)
    requires m > 0 && x * m == y && -m < y < m
    ensures y == 0
  {
  }

  lemma SuccessorWraps(a: nat, m: nat)
    requires m > 0
    ensures (a % m + 1) % m == (a + 1) % m
  {
    var q, r := a / m, a % m;
    assert a == q * m + r;
    if r + 1 < m {
      ModUnique(a + 1, q, r + 1, m);
      ModUnique(r + 1, 0, r + 1, m);
    } else {
      assert a + 1 == (q + 1) * m;
      ModUnique(a + 1, q + 1, 0, m);
      ModUnique(r + 1, 1, 0, m);
    }
  }
}
