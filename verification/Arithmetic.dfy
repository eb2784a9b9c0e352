/** Division with remainder, in steps the verifier takes at once. */
module Arithmetic {
  lemma MultipleGrows(t: int, d: int)
    requires t > 0
    ensures d >= 1 ==> t * d >= t
    ensures d >= 2 ==> t * d >= 2 * t
    ensures d <= -1 ==> t * d <= -t
  {
    if d >= 1 {
      assert t * (d - 1) >= 0;
    }
    if d >= 2 {
      assert t * (d - 2) >= 0;
    }
    if d <= -1 {
      assert t * (-1 - d) >= 0;
    }
  }

  lemma DivideIs(m: nat, t: nat, q: nat, rem: nat)
    requires t > 0 && rem < t && m == t * q + rem
    ensures m / t == q && m % t == rem
  {
    var d := m / t - q;
    assert t * d == rem - m % t;
    MultipleGrows(t, d);
  }

  predicate Divides(d: int, n: int) {
    d > 0 && n % d == 0
  }

  lemma Multiple(d: int, k: int)
    requires d > 0
    ensures Divides(d, d * k)
  {
    var m := d * k;
    var e := m / d - k;
    assert d * e == -(m % d);
    MultipleGrows(d, e);
  }

  lemma DividesTrans(d: int, e: int, n: int)
    requires Divides(d, e) && Divides(e, n)
    ensures Divides(d, n)
  {
    var a, b := e / d, n / e;
    assert n == (d * a) * b;
    assert (d * a) * b == d * (a * b);
    Multiple(d, a * b);
  }

  lemma DividesSum(d: int, m: int, n: int)
    requires Divides(d, m)
    ensures Divides(d, m + n) <==> Divides(d, n)
  {
    var a := m / d;
    if Divides(d, n) {
      var b := n / d;
      assert m + n == d * (a + b);
      Multiple(d, a + b);
    }
    if Divides(d, m + n) {
      var b := (m + n) / d;
      assert n == d * (b - a);
      Multiple(d, b - a);
    }
  }
}
