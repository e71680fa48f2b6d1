/** Real arithmetic of the flow kernel: powers, products over a vector, and the
    positive roots that the kernel obtains from the C library. */
module Numeric {

  /** `b` to the power `n`. */
  function Pow(b: real, n: nat): real {
    if n == 0 then 1.0 else b * Pow(b, n - 1)
  }

  /** The C library's pow(x, 1.0/n), and sqrt as the case n == 2, are known only
      by this: for a positive x, the positive real whose n-th power is x. */
  type RootFunction = (real, nat) -> real

  ghost predicate IsRoot(root: RootFunction) {
    forall x: real, n: nat {:trigger root(x, n)} ::
      x > 0.0 && n >= 1 ==> root(x, n) > 0.0 && Pow(root(x, n), n) == x
  }

  /** The product of a vector, accumulated from its first element. */
  function Prod(s: seq<real>): real {
    if |s| == 0 then 1.0 else Prod(s[..|s| - 1]) * s[|s| - 1]
  }

  lemma {:induction false} PowPos(b: real, n: nat)
    requires b > 0.0
    ensures Pow(b, n) > 0.0
  {
    if n > 0 { PowPos(b, n - 1); MulPos(b, Pow(b, n - 1)); }
  }

  lemma MulPos(a: real, b: real)
    requires a > 0.0 && b > 0.0
    ensures a * b > 0.0
  {}

  lemma MulMono(a: real, b: real, c: real, d: real)
    requires 0.0 <= a <= b && 0.0 <= c <= d
    ensures a * c <= b * d
  {
    assert a * c <= b * c;
    assert b * c <= b * d;
  }

  lemma {:induction false} PowMono(a: real, b: real, n: nat)
    requires 0.0 < a <= b
    ensures 0.0 < Pow(a, n) <= Pow(b, n)
  {
    if n > 0 {
      PowMono(a, b, n - 1);
      MulPos(a, Pow(a, n - 1));
      MulMono(a, b, Pow(a, n - 1), Pow(b, n - 1));
    }
  }

  lemma {:induction false} PowStrict(a: real, b: real, n: nat)
    requires 0.0 < a < b && n >= 1
    ensures Pow(a, n) < Pow(b, n)
  {
    PowMono(a, b, n - 1);
    var p, q := Pow(a, n - 1), Pow(b, n - 1);
    assert a * p < b * p;
    MulMono(b, b, p, q);
  }

  lemma {:induction false} PowOfOne(n: nat)
    ensures Pow(1.0, n) == 1.0
  {
    if n > 0 { PowOfOne(n - 1); }
  }

  /** Positive roots are ordered like their arguments. */
  lemma RootMono(root: RootFunction, x: real, y: real, n: nat)
    requires IsRoot(root) && 0.0 < x && 0.0 < y && n >= 1
    ensures x <= y <==> root(x, n) <= root(y, n)
    ensures x < y <==> root(x, n) < root(y, n)
  {
    var a, b := root(x, n), root(y, n);
    if a < b { PowStrict(a, b, n); }
    if b < a { PowStrict(b, a, n); }
  }

  lemma RootOfOne(root: RootFunction, n: nat)
    requires IsRoot(root) && n >= 1
    ensures root(1.0, n) == 1.0
  {
    var r := root(1.0, n);
    PowOfOne(n);
    if r < 1.0 { PowStrict(r, 1.0, n); }
    if r > 1.0 { PowStrict(1.0, r, n); }
  }

  lemma RootAtLeastOne(root: RootFunction, x: real, n: nat)
    requires IsRoot(root) && x >= 1.0 && n >= 1
    ensures root(x, n) >= 1.0
  {
    RootOfOne(root, n);
    RootMono(root, 1.0, x, n);
  }

  ghost predicate Positive(s: seq<real>) {
    forall i :: 0 <= i < |s| ==> s[i] > 0.0
  }

  lemma {:induction false} ProdPos(s: seq<real>)
    requires Positive(s)
    ensures Prod(s) > 0.0
  {
    if |s| > 0 { ProdPos(s[..|s| - 1]); MulPos(Prod(s[..|s| - 1]), s[|s| - 1]); }
  }

  lemma ProdSnoc(s: seq<real>, a: real)
    ensures Prod(s + [a]) == Prod(s) * a
  {
    assert (s + [a])[..|s|] == s;
  }

  lemma ProdTake(s: seq<real>, n: nat)
    requires n < |s|
    ensures Prod(s[..n + 1]) == Prod(s[..n]) * s[n]
  {
    assert s[..n + 1] == s[..n] + [s[n]];
    ProdSnoc(s[..n], s[n]);
  }

  lemma {:induction false} ProdCons(a: real, s: seq<real>)
    ensures Prod([a] + s) == a * Prod(s)
  {
    if |s| == 0 {
      assert [a] + s == [] + [a];
      ProdSnoc([], a);
    } else {
      var t, b := s[..|s| - 1], s[|s| - 1];
      assert [a] + s == ([a] + t) + [b];
      ProdSnoc([a] + t, b);
      ProdCons(a, t);
      assert a * Prod(t) * b == a * (Prod(t) * b);
    }
  }

  /** The product of a pointwise product. */
  lemma {:induction false} ProdMul(a: seq<real>, b: seq<real>, c: seq<real>)
    requires |a| == |b| == |c|
    requires forall i :: 0 <= i < |a| ==> c[i] == a[i] * b[i]
    ensures Prod(c) == Prod(a) * Prod(b)
  {
    if |a| > 0 {
      var n := |a| - 1;
      ProdMul(a[..n], b[..n], c[..n]);
      var p, q := Prod(a[..n]), Prod(b[..n]);
      assert (p * q) * (a[n] * b[n]) == (p * a[n]) * (q * b[n]);
    }
  }

  lemma {:induction false} ProdMono(a: seq<real>, b: seq<real>)
    requires |a| == |b| && Positive(a)
    requires forall i :: 0 <= i < |a| ==> a[i] <= b[i]
    ensures 0.0 < Prod(a) <= Prod(b)
  {
    if |a| > 0 {
      var n := |a| - 1;
      ProdMono(a[..n], b[..n]);
      MulPos(Prod(a[..n]), a[n]);
      MulMono(Prod(a[..n]), Prod(b[..n]), a[n], b[n]);
    }
  }

  /** A product in which one factor is multiplied by `k` is multiplied by `k`. */
  lemma {:induction false} ProdScaleOne(s: seq<real>, t: seq<real>, c: nat, k: real)
    requires c < |s| == |t|
    requires t[c] == s[c] * k
    requires forall i :: 0 <= i < |s| && i != c ==> t[i] == s[i]
    ensures Prod(t) == Prod(s) * k
  {
    var n := |s| - 1;
    if c == n {
      assert s[..n] == t[..n];
      assert Prod(s[..n]) * (s[n] * k) == Prod(s[..n]) * s[n] * k;
    } else {
      ProdScaleOne(s[..n], t[..n], c, k);
      assert Prod(s[..n]) * k * s[n] == Prod(s[..n]) * s[n] * k;
    }
  }

  lemma {:induction false} ProdConstant(s: seq<real>, g: real)
    requires forall i :: 0 <= i < |s| ==> s[i] == g
    ensures Prod(s) == Pow(g, |s|)
  {
    if |s| > 0 { ProdConstant(s[..|s| - 1], g); }
  }

  /** a/b <= c/d as the cross product, for positive b and d. */
  lemma RatioCross(a: real, b: real, c: real, d: real)
    requires b > 0.0 && d > 0.0
    ensures a / b <= c / d <==> a * d <= c * b
  {
    var p, q := a / b, c / d;
    assert a == p * b && c == q * d;
    MulPos(b, d);
    assert a * d == p * (b * d);
    assert c * b == q * (b * d);
    if p <= q { assert p * (b * d) <= q * (b * d); }
    if p > q { assert p * (b * d) > q * (b * d); }
  }

  function Quotient(a: real, b: real): (q: real)
    requires a > 0.0 && b > 0.0
    ensures q > 0.0 && a == q * b
  {
    a / b
  }
}
