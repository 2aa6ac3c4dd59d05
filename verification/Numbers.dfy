/**
 Real arithmetic, counting and summing shared by the other modules.
 The daemon's f64 quantities are modelled as `real`.
 */
module Numbers {

  datatype Option<+T> = None | Some(value: T)

  datatype Result<+T, +E> = Ok(value: T) | Err(error: E)

  /** A quantity the daemon only ever produces non-negative: delays, dispersions, jitters. */
  type Span = r: real | r >= 0.0

  function Max(a: real, b: real): real {
    if a >= b then a else b
  }

  function Min(a: real, b: real): real {
    if a <= b then a else b
  }

  function Abs(a: real): real {
    if a >= 0.0 then a else -a
  }

  function Clamp(x: real, low: real, high: real): real {
    if x < low then low else if x > high then high else x
  }

  /** What the square-root primitive promises. Members that need no more than its type do not ask for this. */
  ghost predicate IsRoot(root: real -> real) {
    forall x: real :: x >= 0.0 ==> root(x) >= 0.0 && root(x) * root(x) == x
  }

  function Pow2(n: nat): (p: real)
    ensures p >= 1.0
  {
    if n == 0 then 1.0 else 2.0 * Pow2(n - 1)
  }

  // ----- counting -----

  function CountIf<T>(s: seq<T>, p: T -> bool): nat {
    if s == [] then 0
    else CountIf(s[..|s| - 1], p) + if p(s[|s| - 1]) then 1 else 0
  }

  lemma {:induction false} CountAppend<T>(a: seq<T>, b: seq<T>, p: T -> bool)
    ensures CountIf(a + b, p) == CountIf(a, p) + CountIf(b, p)
    decreases |b|
  {
    if b == [] {
      assert a + b == a;
    } else {
      assert (a + b)[..|a + b| - 1] == a + b[..|b| - 1];
      CountAppend(a, b[..|b| - 1], p);
    }
  }

  lemma {:induction false} CountAgree<T>(s: seq<T>, p: T -> bool, q: T -> bool)
    requires forall i :: 0 <= i < |s| ==> (p(s[i]) <==> q(s[i]))
    ensures CountIf(s, p) == CountIf(s, q)
  {
    if s != [] {
      CountAgree(s[..|s| - 1], p, q);
    }
  }

  lemma {:induction false} CountNone<T>(s: seq<T>, p: T -> bool)
    requires forall i :: 0 <= i < |s| ==> !p(s[i])
    ensures CountIf(s, p) == 0
  {
    if s != [] {
      CountNone(s[..|s| - 1], p);
    }
  }

  lemma {:induction false} CountImplies<T>(s: seq<T>, p: T -> bool, q: T -> bool)
    requires forall i :: 0 <= i < |s| && p(s[i]) ==> q(s[i])
    ensures CountIf(s, p) <= CountIf(s, q) <= |s|
  {
    if s != [] {
      CountImplies(s[..|s| - 1], p, q);
    }
  }

  /** Two groups that together outnumber the sequence share a member. */
  lemma {:induction false} Pigeonhole<T>(s: seq<T>, p: T -> bool, q: T -> bool) returns (i: nat)
    requires CountIf(s, p) + CountIf(s, q) > |s|
    ensures i < |s| && p(s[i]) && q(s[i])
  {
    var n := |s| - 1;
    if p(s[n]) && q(s[n]) {
      i := n;
    } else {
      i := Pigeonhole(s[..n], p, q);
    }
  }

  /** When `p` holds only inside the first `k` elements, and agrees with `q` there. */
  lemma CountPrefix<T>(s: seq<T>, k: nat, p: T -> bool, q: T -> bool)
    requires k <= |s|
    requires forall i :: 0 <= i < k ==> (p(s[i]) <==> q(s[i]))
    requires forall i :: k <= i < |s| ==> !p(s[i])
    ensures CountIf(s, p) == CountIf(s[..k], q)
  {
    assert s == s[..k] + s[k..];
    CountAppend(s[..k], s[k..], p);
    CountNone(s[k..], p);
    CountAgree(s[..k], p, q);
  }
}
