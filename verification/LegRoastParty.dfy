/** What one party of a LegRoast round computes from its shares, in 128-bit words. */
module LegRoastParty {
  import opened LegRoastField
  import opened LegRoastShares

  // The order of a party's shares in memory.
  const SHARE_K := 0
  const SHARES_TRIPLE := 1
  const SHARES_R := 4

  /** The words w hold the shares s modulo p. */
  ghost predicate Holds(w: seq<U128>, s: Shares) {
    |w| == SHARES_R + |s.r| &&
    Cong(w[SHARE_K], s.k) && Cong(w[SHARES_TRIPLE], s.a) && Cong(w[SHARES_TRIPLE + 1], s.b) &&
    Cong(w[SHARES_TRIPLE + 2], s.c) &&
    forall j :: 0 <= j < |s.r| ==> Cong(w[SHARES_R + j], s.r[j])
  }

  lemma {:induction false} MulAddStep(out: int, out0: int, x: int, a: int, a': int, b: int, b': int)
    requires Cong(out, out0 + a * b) && Cong(out0, x) && Cong(a, a') && Cong(b, b')
    ensures Cong(out, x + a' * b')
  {
    hide Cong;
    CongMul(a, a', b, b');
    CongAdd(out0, x, a * b, a' * b');
    CongTrans(out, out0 + a * b, x + a' * b');
  }

  /** mul_add_mod_p on words standing for other numbers. */
  method MulAdd(out0: U128, a: U128, b: U128, ghost x: int, ghost a': int, ghost b': int) returns (out: U128)
    requires Cong(out0, x) && Cong(a, a') && Cong(b, b')
    ensures Cong(out, x + a' * b')
  {
    hide Cong;
    var a1, b1;
    out, a1, b1 := MulAddModP(out0, a, b);
    MulAddStep(out, out0, x, a, a', b, b');
  }

  /** The negative of a word modulo p: m127 - reduced. */
  method Negate(a: U128, ghost x: int) returns (r: U128)
    requires Cong(a, x)
    ensures Cong(r, -x)
  {
    r := ReduceModP(a);
    r := P - r;
    CongAdd(0, 0, a % P, x);
    CongShift(P - a % P, 0 - a % P, 1);
  }

  lemma {:induction false} DotPrefix(w: seq<int>, r: seq<int>, j: nat)
    requires |w| == |r| && j < |w|
    ensures Dot(w[..j + 1], r[..j + 1]) == Dot(w[..j], r[..j]) + w[j] * r[j]
  {
    assert w[..j + 1][..j] == w[..j] && r[..j + 1][..j] == r[..j];
  }

  lemma {:induction false} DotWhole(w: seq<int>, r: seq<int>)
    requires |w| == |r|
    ensures Dot(w[..|w|], r[..|w|]) == Dot(w, r)
  {
    assert w[..|w|] == w && r[..|w|] == r;
  }

  /** The share of beta after j masks. */
  ghost function BetaAt(q: Query, s: Shares, j: nat): int
    requires Fits(q, |s.r|) && j <= |s.r|
  {
    s.b + Dot(q.lambda[..j], s.r[..j])
  }

  /** The share of z after j masks. */
  ghost function ZAt(q: Query, s: Shares, first: bool, j: nat): int
    requires Fits(q, |s.r|) && j <= |s.r|
  {
    (if first then Dot(q.lambda[..j], q.out[..j]) else 0) - Dot(Weights(q)[..j], s.r[..j])
  }

  lemma {:induction false} MaskStep(q: Query, s: Shares, first: bool, j: nat)
    requires Fits(q, |s.r|) && j < |s.r|
    ensures BetaAt(q, s, j + 1) == BetaAt(q, s, j) + s.r[j] * q.lambda[j]
    ensures ZAt(q, s, first, j + 1) ==
            ZAt(q, s, first, j) + -(s.r[j] * q.lambda[j]) * q.index[j] + if first then q.lambda[j] * q.out[j] else 0
  {
    DotPrefix(q.lambda, s.r, j);
    DotPrefix(q.lambda, q.out, j);
    DotPrefix(Weights(q), s.r, j);
    hide Dot;
    SignedWeight(s.r[j], q.lambda[j], q.index[j]);
  }

  lemma {:induction false} SignedWeight(r: int, l: int, i: int)
    ensures -(r * l) * i == -((l * i) * r)
  {
    assert (r * l) * i == (l * i) * r;
  }

  /** One mask: the share of beta gains r_j * lambda_j, the share of z loses that times the
      queried index, and party 0 adds lambda_j * out_j to its share of z. */
  method Mask(beta: U128, z: U128, r: U128, lambda: U128, index: U128, out: U128, first: bool, eager: bool,
          ghost b: int, ghost y: int, ghost x: int)
    returns (beta': U128, z': U128)
    requires Cong(beta, b) && Cong(z, y) && Cong(r, x)
    ensures Cong(beta', b + x * lambda)
    ensures Cong(z', y + -(x * lambda) * index + if first then lambda * out else 0)
  {
    hide Cong;
    CongRefl(lambda);
    CongRefl(index);
    CongRefl(out);
    CongRefl(0);
    beta' := MulAdd(beta, r, lambda, b, x, lambda);
    if eager {
      var reduced := ReduceModP(beta');
      CongTrans(reduced, beta', b + x * lambda);
      beta' := reduced;
    }
    var temp := MulAdd(0, r, lambda, 0, x, lambda);
    temp := Negate(temp, x * lambda);
    z' := MulAdd(z, temp, index, y, -(x * lambda), index);
    if first {
      z' := MulAdd(z', lambda, out, y + -(x * lambda) * index, lambda, out);
    }
  }

  /** The shares of beta and of z. */
  method Masks(lambda: seq<U128>, index: seq<U128>, out: seq<U128>, w: seq<U128>, first: bool, eager: bool,
          ghost q: Query, ghost s: Shares)
    returns (beta: U128, z: U128)
    requires Fits(q, |s.r|) && q.lambda == lambda && q.index == index && q.out == out
    requires Holds(w, s)
    ensures Cong(beta, BetaOf(q, s))
    ensures Cong(z, ZAt(q, s, first, |s.r|))
  {
    hide Cong, Dot, BetaAt, ZAt;
    beta, z := w[SHARES_TRIPLE + 1], 0;
    MasksStart(q, s, first);
    for j := 0 to |lambda|
      invariant Cong(beta, BetaAt(q, s, j)) && Cong(z, ZAt(q, s, first, j))
    {
      MaskStep(q, s, first, j);
      beta, z := Mask(beta, z, w[SHARES_R + j], lambda[j], index[j], out[j], first, eager,
                      BetaAt(q, s, j), ZAt(q, s, first, j), s.r[j]);
    }
    MasksEnd(q, s);
  }

  lemma {:induction false} MasksStart(q: Query, s: Shares, first: bool)
    requires Fits(q, |s.r|)
    ensures BetaAt(q, s, 0) == s.b
    ensures ZAt(q, s, first, 0) == 0
    ensures Cong(0, 0)
  {
  }

  lemma {:induction false} MasksEnd(q: Query, s: Shares)
    requires Fits(q, |s.r|)
    ensures BetaAt(q, s, |s.r|) == BetaOf(q, s)
  {
    DotWhole(q.lambda, s.r);
  }

  /** The share of v in the order the code computes it. */
  lemma {:induction false} VInOrder(q: Query, s: Shares, first: bool)
    requires Fits(q, |s.r|)
    ensures -(s.c + if first then q.alpha * q.beta else 0) + q.alpha * s.b + q.beta * s.a +
      q.eps * ZAt(q, s, first, |s.r|)
            == VOf(q, s, first)
  {
    DotWhole(q.lambda, q.out);
    DotWhole(Weights(q), s.r);
    hide Dot;
    var d, w := Dot(q.lambda, q.out), Dot(Weights(q), s.r);
    assert q.eps * (d - w) == q.eps * d - q.eps * w;
    assert q.eps * (0 - w) == -(q.eps * w);
  }

  /** One party's share of v. */
  method ShareOfV(eps: U128, alpha: U128, beta: U128, z: U128, w: seq<U128>, first: bool, ghost q: Query,
          ghost s: Shares)
    returns (v: U128)
    requires Fits(q, |s.r|) && q.eps == eps && q.alpha == alpha && q.beta == beta
    requires Holds(w, s) && Cong(z, ZAt(q, s, first, |s.r|))
    ensures v == VOf(q, s, first) % P
  {
    hide Cong, VOf, ZAt;
    CongRefl(eps);
    CongRefl(alpha);
    CongRefl(beta);
    v := w[SHARES_TRIPLE + 2];
    ghost var x := s.c;
    if first {
      v := MulAdd(v, alpha, beta, x, alpha, beta);
      x := x + q.alpha * q.beta;
    }
    v := Negate(v, x);
    x := -x;
    v := MulAdd(v, alpha, w[SHARES_TRIPLE + 1], x, alpha, s.b);
    x := x + q.alpha * s.b;
    v := MulAdd(v, beta, w[SHARES_TRIPLE], x, beta, s.a);
    x := x + q.beta * s.a;
    v := MulAdd(v, eps, z, x, eps, ZAt(q, s, first, |s.r|));
    VInOrder(q, s, first);
    CongMod(v, VOf(q, s, first));
    v := ReduceModP(v);
  }

  /** One party's share of alpha. */
  method ShareOfAlpha(eps: U128, k: U128, a: U128, ghost x: int, ghost y: int) returns (r: U128)
    requires Cong(k, x) && Cong(a, y)
    ensures r == (eps * x + y) % P
  {
    hide Cong;
    CongRefl(0);
    CongRefl(eps);
    var p0 := MulAdd(0, eps, k, 0, eps, x);
    r := AddModP(p0, a);
    CongAdd(p0, eps * x, a, y);
    CongTrans(r, p0 as int + a as int, eps * x + y);
    CongMod(r, eps * x + y);
    r := ReduceModP(r);
  }

  /** The three values a party opens, as respond2 computes them for every party and check for
      every party but the unopened one. Only whether the share of beta is reduced after every
      mask (eager) or once at the end differs. */
  method OpenParty(eps: U128, lambda: seq<U128>, index: seq<U128>, out: seq<U128>, alpha: U128, beta: U128,
          w: seq<U128>, first: bool, eager: bool, ghost s: Shares)
    returns (o: Opening)
    requires |lambda| == |index| == |out| == |s.r|
    requires Holds(w, s)
    ensures o == Open(Query(eps, lambda, index, out, alpha, beta), s, first)
  {
    ghost var q := Query(eps, lambda, index, out, alpha, beta);
    hide Cong, VOf, ZAt, BetaOf;
    var p0 := ShareOfAlpha(eps, w[SHARE_K], w[SHARES_TRIPLE], s.k, s.a);
    var p1, z := Masks(lambda, index, out, w, first, eager, q, s);
    CongMod(p1, BetaOf(q, s));
    p1 := ReduceModP(p1);
    var p2 := ShareOfV(eps, alpha, beta, z, w, first, q, s);
    o := Opening(p0, p1, p2);
  }
}
