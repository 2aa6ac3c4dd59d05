/** Comparing identifiers without leaking, through timing, where they differ. */
module ConstantTime {
  import opened Wire

  /** The low k bits of the exclusive or. */
  function Xor(x: nat, y: nat, k: nat): (r: nat)
    ensures r < TwoTo(k)
  {
    if k == 0 then 0 else 2 * Xor(x / 2, y / 2, k - 1) + if x % 2 != y % 2 then 1 else 0
  }

  /** The low k bits of the inclusive or. */
  function Or(x: nat, y: nat, k: nat): (r: nat)
    ensures r < TwoTo(k)
  {
    if k == 0 then 0 else 2 * Or(x / 2, y / 2, k - 1) + if x % 2 + y % 2 > 0 then 1 else 0
  }

  lemma {:induction false} XorIsZero(x: nat, y: nat, k: nat)
    requires x < TwoTo(k) && y < TwoTo(k)
    ensures Xor(x, y, k) == 0 <==> x == y
  {
    if k > 0 {
      XorIsZero(x / 2, y / 2, k - 1);
    }
  }

  lemma {:induction false} OrIsZero(x: nat, y: nat, k: nat)
    requires x < TwoTo(k) && y < TwoTo(k)
    ensures Or(x, y, k) == 0 <==> x == 0 && y == 0
  {
    if k > 0 {
      OrIsZero(x / 2, y / 2, k - 1);
    }
  }

  lemma EightBits()
    ensures TwoTo(8) == 256
  {
    assert TwoTo(3) == 8;
    assert TwoTo(6) == 64;
  }

  /** Accumulates every difference instead of stopping at the first. */
  method Eq(a: Bytes, b: Bytes) returns (eq: bool)
    ensures eq <==> a == b
  {
    hide Xor, Or, TwoTo;
    if |a| != |b| {
      return false;
    }
    EightBits();
    var difference := 0;
    for i := 0 to |a|
      invariant 0 <= difference < 256
      invariant difference == 0 <==> a[..i] == b[..i]
    {
      assert a[..i + 1] == a[..i] + [a[i]] && b[..i + 1] == b[..i] + [b[i]];
      XorIsZero(a[i], b[i], 8);
      OrIsZero(difference, Xor(a[i], b[i], 8), 8);
      difference := Or(difference, Xor(a[i], b[i], 8), 8);
    }
    assert a[..|a|] == a && b[..|b|] == b;
    eq := difference == 0;
  }
}
