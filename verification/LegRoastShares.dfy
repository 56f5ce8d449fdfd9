/** The multiparty computation inside a LegRoast signature: additive shares of the key, of a
    multiplication triple and of the masks, and what each party opens about them. */
module LegRoastShares {
  import opened LegRoastField

  /** One party's shares: of the key k, of a triple (a, b, c) and of the masks r. */
  datatype Shares = Shares(k: int, a: int, b: int, c: int, r: seq<int>)

  /** What is public when a round is opened: the challenge epsilon and lambda, the queried
      indices, the prover's outputs, and alpha and beta. */
  datatype Query = Query(eps: int, lambda: seq<int>, index: seq<int>, out: seq<int>, alpha: int, beta: int)

  /** The values one party opens, as canonical residues. */
  datatype Opening = Opening(alpha: U128, beta: U128, v: U128)

  ghost function Dot(w: seq<int>, r: seq<int>): int
    requires |w| == |r|
  {
    if w == [] then 0 else Dot(w[..|w| - 1], r[..|r| - 1]) + w[|w| - 1] * r[|r| - 1]
  }

  ghost function AddAll(x: seq<int>, y: seq<int>): seq<int>
    requires |x| == |y|
  {
    seq(|x|, i requires 0 <= i < |x| => x[i] + y[i])
  }

  /** lambda_j * index_j */
  ghost function Weights(q: Query): seq<int>
    requires |q.lambda| == |q.index|
  {
    seq(|q.lambda|, j requires 0 <= j < |q.lambda| => q.lambda[j] * q.index[j])
  }

  ghost predicate Fits(q: Query, n: nat) {
    |q.lambda| == |q.index| == |q.out| == n
  }

  ghost function AlphaOf(q: Query, s: Shares): int {
    q.eps * s.k + s.a
  }

  ghost function BetaOf(q: Query, s: Shares): int
    requires |q.lambda| == |s.r|
  {
    s.b + Dot(q.lambda, s.r)
  }

  /** The part of the share of v that is linear in the shares. */
  ghost function LinearV(q: Query, s: Shares): int
    requires Fits(q, |s.r|)
  {
    q.alpha * s.b + q.beta * s.a - s.c - q.eps * Dot(Weights(q), s.r)
  }

  /** What party 0 alone adds to its share of v. */
  ghost function ConstantV(q: Query): int
    requires |q.lambda| == |q.out|
  {
    q.eps * Dot(q.lambda, q.out) - q.alpha * q.beta
  }

  ghost function VOf(q: Query, s: Shares, first: bool): int
    requires Fits(q, |s.r|)
  {
    LinearV(q, s) + if first then ConstantV(q) else 0
  }

  ghost function Open(q: Query, s: Shares, first: bool): Opening
    requires Fits(q, |s.r|)
  {
    Opening(AlphaOf(q, s) % P, BetaOf(q, s) % P, VOf(q, s, first) % P)
  }

  // --------------------------------------------------------------- linearity

  ghost function Plus(s: Shares, t: Shares): Shares
    requires |s.r| == |t.r|
  {
    Shares(s.k + t.k, s.a + t.a, s.b + t.b, s.c + t.c, AddAll(s.r, t.r))
  }

  lemma {:induction false} DotPlus(w: seq<int>, x: seq<int>, y: seq<int>)
    requires |w| == |x| == |y|
    ensures Dot(w, AddAll(x, y)) == Dot(w, x) + Dot(w, y)
  {
    if w != [] {
      var n := |w| - 1;
      DotPlus(w[..n], x[..n], y[..n]);
      assert AddAll(x, y)[..n] == AddAll(x[..n], y[..n]);
      assert w[n] * (x[n] + y[n]) == w[n] * x[n] + w[n] * y[n];
    }
  }

  lemma {:induction false} LinearPlus(q: Query, s: Shares, t: Shares)
    requires |s.r| == |t.r| && Fits(q, |s.r|)
    ensures AlphaOf(q, Plus(s, t)) == AlphaOf(q, s) + AlphaOf(q, t)
    ensures BetaOf(q, Plus(s, t)) == BetaOf(q, s) + BetaOf(q, t)
    ensures LinearV(q, Plus(s, t)) == LinearV(q, s) + LinearV(q, t)
  {
    DotPlus(q.lambda, s.r, t.r);
    DotPlus(Weights(q), s.r, t.r);
    Distribute(q.eps, s.k, t.k);
    Distribute(q.alpha, s.b, t.b);
    Distribute(q.beta, s.a, t.a);
    Distribute(q.eps, Dot(Weights(q), s.r), Dot(Weights(q), t.r));
  }

  lemma {:induction false} Distribute(x: int, y: int, z: int)
    ensures x * (y + z) == x * y + x * z
  {
  }

  /** The shares of all parties added up. */
  ghost function Total(parties: seq<Shares>, n: nat): (t: Shares)
    requires forall s :: s in parties ==> |s.r| == n
    ensures |t.r| == n
  {
    if parties == [] then Shares(0, 0, 0, 0, seq(n, i => 0))
    else Plus(Total(parties[..|parties| - 1], n), parties[|parties| - 1])
  }

  ghost predicate AllFit(parties: seq<Shares>, n: nat) {
    forall s :: s in parties ==> |s.r| == n
  }

  /** The sums of what the parties open. */
  ghost function SumAlpha(q: Query, parties: seq<Shares>): int {
    if parties == [] then 0
    else SumAlpha(q, parties[..|parties| - 1]) + AlphaOf(q, parties[|parties| - 1])
  }

  ghost function SumBeta(q: Query, parties: seq<Shares>): int
    requires AllFit(parties, |q.lambda|)
  {
    if parties == [] then 0
    else SumBeta(q, parties[..|parties| - 1]) + BetaOf(q, parties[|parties| - 1])
  }

  ghost function SumV(q: Query, parties: seq<Shares>): int
    requires Fits(q, |q.lambda|) && AllFit(parties, |q.lambda|)
  {
    if parties == [] then 0
    else SumV(q, parties[..|parties| - 1]) + VOf(q, parties[|parties| - 1], |parties| == 1)
  }

  lemma {:induction false} DotZero(w: seq<int>, n: nat)
    requires |w| == n
    ensures Dot(w, seq(n, i => 0)) == 0
  {
    if n > 0 {
      DotZero(w[..n - 1], n - 1);
      assert seq(n, i => 0)[..n - 1] == seq(n - 1, i => 0);
    }
  }

  /** Summing what the parties open is opening the sum of their shares. */
  lemma {:induction false} SumsAreLinear(q: Query, parties: seq<Shares>)
    requires Fits(q, |q.lambda|) && AllFit(parties, |q.lambda|)
    ensures SumAlpha(q, parties) == AlphaOf(q, Total(parties, |q.lambda|))
    ensures SumBeta(q, parties) == BetaOf(q, Total(parties, |q.lambda|))
    ensures SumV(q, parties) == LinearV(q, Total(parties, |q.lambda|)) + if parties == [] then 0 else ConstantV(q)
  {
    var n := |q.lambda|;
    if parties == [] {
      DotZero(q.lambda, n);
      DotZero(Weights(q), n);
    } else {
      var rest, last := parties[..|parties| - 1], parties[|parties| - 1];
      SumsAreLinear(q, rest);
      LinearPlus(q, Total(rest, n), last);
    }
  }

  // ------------------------------------------------------------- cancellation

  /** What an honest prover's shares t (added up) and public values satisfy. */
  ghost predicate Honest(q: Query, t: Shares, key: int) {
    Fits(q, |t.r|) && Cong(t.k, key) && Cong(t.c, t.a * t.b) &&
    Cong(q.alpha, q.eps * key + t.a) && Cong(q.beta, t.b + Dot(q.lambda, t.r)) &&
    forall j :: 0 <= j < |q.out| ==> Cong(q.out[j], (q.index[j] + key) * t.r[j])
  }

  lemma {:induction false} DotStep(w: seq<int>, r: seq<int>)
    requires |w| == |r| > 0
    ensures Dot(w, r) == Dot(w[..|w| - 1], r[..|w| - 1]) + w[|w| - 1] * r[|w| - 1]
  {
  }

  lemma {:induction false} DotEmpty(w: seq<int>, r: seq<int>)
    requires |w| == |r| == 0
    ensures Dot(w, r) == 0
  {
  }

  /** lambda . out is (lambda * index) . r + key * (lambda . r). */
  lemma {:induction false} DotOutputs(lambda: seq<int>, weights: seq<int>, index: seq<int>, out: seq<int>, r: seq<int>,
          key: int)
    requires |lambda| == |weights| == |index| == |out| == |r|
    requires forall j :: 0 <= j < |lambda| ==> weights[j] == lambda[j] * index[j]
    requires forall j :: 0 <= j < |lambda| ==> Cong(out[j], (index[j] + key) * r[j])
    ensures Cong(Dot(lambda, out), Dot(weights, r) + key * Dot(lambda, r))
  {
    hide Cong, Dot;
    if lambda == [] {
      DotEmpty(lambda, out);
      DotEmpty(weights, r);
      DotEmpty(lambda, r);
      CongRefl(0);
    } else {
      var n := |lambda| - 1;
      DotStep(lambda, out);
      DotStep(weights, r);
      DotStep(lambda, r);
      DotOutputs(lambda[..n], weights[..n], index[..n], out[..n], r[..n], key);
      OutputStep(Dot(lambda[..n], out[..n]), Dot(weights[..n], r[..n]), Dot(lambda[..n], r[..n]),
                 lambda[n], index[n], weights[n], out[n], r[n], key);
    }
  }

  lemma {:induction false} OutputStep(sum: int, w: int, d: int, l: int, i: int, li: int, o: int, r: int, key: int)
    requires Cong(sum, w + key * d) && Cong(o, (i + key) * r) && li == l * i
    ensures Cong(sum + l * o, w + li * r + key * (d + l * r))
  {
    hide Cong;
    CongRefl(l);
    CongMul(l, l, o, (i + key) * r);
    CongAdd(sum, w + key * d, l * o, l * ((i + key) * r));
    OutputTerm(l, i, key, r);
    Distribute(key, d, l * r);
  }

  lemma {:induction false} OutputTerm(l: int, i: int, key: int, r: int)
    ensures l * ((i + key) * r) == (l * i) * r + key * (l * r)
  {
    assert (i + key) * r == i * r + key * r;
    assert l * (i * r) == (l * i) * r;
    assert l * (key * r) == key * (l * r);
  }

  /** With alpha = eps * key + a and beta = b + d, the shares of v cancel. */
  lemma {:induction false} ExactCancellation(eps: int, key: int, a: int, b: int, d: int, w: int)
    ensures (eps * key + a) * b + (b + d) * a - a * b - eps * w + eps * (w + key * d) - (eps * key + a) * (b + d) == 0
  {
    var e := eps * key;
    Distribute(eps, w, key * d);
    assert eps * (key * d) == e * d;
    assert (e + a) * b == e * b + a * b;
    assert (b + d) * a == a * b + a * d;
    assert (e + a) * (b + d) == (e + a) * b + (e + a) * d;
    assert (e + a) * d == e * d + a * d;
  }

  /** For honest shares the opened values add up to alpha, beta and zero. */
  lemma {:induction false} Cancellation(q: Query, t: Shares, key: int)
    requires Honest(q, t, key)
    ensures Cong(AlphaOf(q, t), q.alpha)
    ensures Cong(BetaOf(q, t), q.beta)
    ensures Cong(LinearV(q, t) + ConstantV(q), 0)
  {
    AlphaAddsUp(q.eps, t.k, key, t.a, q.alpha);
    CongSym(q.beta, BetaOf(q, t));
    CancelV(q, t, key);
  }

  lemma {:induction false} CancelV(q: Query, t: Shares, key: int)
    requires Honest(q, t, key)
    ensures Cong(LinearV(q, t) + ConstantV(q), 0)
  {
    hide Cong, Dot;
    WeightsAt(q);
    hide Weights;
    DotOutputs(q.lambda, Weights(q), q.index, q.out, t.r, key);
    VAddsUp(q, t, Dot(q.lambda, t.r), Dot(Weights(q), t.r), Dot(q.lambda, q.out), key);
  }

  lemma {:induction false} WeightsAt(q: Query)
    requires |q.lambda| == |q.index|
    ensures |Weights(q)| == |q.lambda|
    ensures forall j :: 0 <= j < |q.lambda| ==> Weights(q)[j] == q.lambda[j] * q.index[j]
  {
  }

  lemma {:induction false} AlphaAddsUp(eps: int, k: int, key: int, a: int, alpha: int)
    requires Cong(k, key) && Cong(alpha, eps * key + a)
    ensures Cong(eps * k + a, alpha)
  {
    hide Cong;
    CongRefl(eps);
    CongRefl(a);
    CongMul(eps, eps, k, key);
    CongAdd(eps * k, eps * key, a, a);
    CongSym(alpha, eps * key + a);
    CongTrans(eps * k + a, eps * key + a, alpha);
  }

  lemma {:induction false} VAddsUp(q: Query, t: Shares, d: int, w: int, o: int, key: int)
    requires Cong(q.alpha, q.eps * key + t.a) && Cong(q.beta, t.b + d) && Cong(t.c, t.a * t.b) && Cong(o, w + key * d)
    ensures Cong(q.alpha * t.b + q.beta * t.a - t.c - q.eps * w + (q.eps * o - q.alpha * q.beta), 0)
  {
    hide Cong;
    var alpha, beta := q.eps * key + t.a, t.b + d;
    ExactCancellation(q.eps, key, t.a, t.b, d, w);
    SumOfCongruences(q, t, alpha, beta, d, w, o, key);
  }

  lemma {:induction false} CongSym(x: int, y: int)
    requires Cong(x, y)
    ensures Cong(y, x)
  {
  }

  lemma {:induction false} SumOfCongruences(q: Query, t: Shares, alpha: int, beta: int, d: int, w: int, o: int,
          key: int)
    requires Cong(q.alpha, alpha) && Cong(q.beta, beta) && Cong(t.c, t.a * t.b) && Cong(o, w + key * d)
    ensures Cong(q.alpha * t.b + q.beta * t.a - t.c - q.eps * w + (q.eps * o - q.alpha * q.beta),
                 alpha * t.b + beta * t.a - t.a * t.b - q.eps * w + (q.eps * (w + key * d) - alpha * beta))
  {
    hide Cong;
    CongRefl(q.eps);
    CongRefl(t.a);
    CongRefl(t.b);
    CongRefl(q.eps * w);
    CongMul(q.alpha, alpha, t.b, t.b);
    CongMul(q.beta, beta, t.a, t.a);
    CongMul(q.eps, q.eps, o, w + key * d);
    CongMul(q.alpha, alpha, q.beta, beta);
    CongAdd(q.alpha * t.b, alpha * t.b, q.beta * t.a, beta * t.a);
    CongAdd(q.alpha * t.b + q.beta * t.a, alpha * t.b + beta * t.a, t.c, t.a * t.b);
    CongAdd(q.alpha * t.b + q.beta * t.a - t.c, alpha * t.b + beta * t.a - t.a * t.b, q.eps * w, q.eps * w);
    CongAdd(q.eps * o, q.eps * (w + key * d), q.alpha * q.beta, alpha * beta);
    CongAdd(q.alpha * t.b + q.beta * t.a - t.c - q.eps * w, alpha * t.b + beta * t.a - t.a * t.b - q.eps * w,
            q.eps * o - q.alpha * q.beta, q.eps * (w + key * d) - alpha * beta);
  }

  // ---------------------------------------------------- the unopened party

  ghost function SumSeq(xs: seq<int>): int {
    if xs == [] then 0 else SumSeq(xs[..|xs| - 1]) + xs[|xs| - 1]
  }

  /** The sum of all entries but the one at u. */
  ghost function SumSkip(xs: seq<int>, u: nat): int {
    if xs == [] then 0 else SumSkip(xs[..|xs| - 1], u) + if |xs| - 1 == u then 0 else xs[|xs| - 1]
  }

  lemma {:induction false} SkipIsRest(xs: seq<int>, u: nat)
    ensures SumSkip(xs, u) + (if u < |xs| then xs[u] else 0) == SumSeq(xs)
  {
    if xs != [] {
      SkipIsRest(xs[..|xs| - 1], u);
    }
  }

  lemma {:induction false} SkipIgnores(xs: seq<int>, ys: seq<int>, u: nat)
    requires |xs| == |ys| && forall i :: 0 <= i < |xs| && i != u ==> xs[i] == ys[i]
    ensures SumSkip(xs, u) == SumSkip(ys, u)
  {
    if xs != [] {
      SkipIgnores(xs[..|xs| - 1], ys[..|xs| - 1], u);
    }
  }

  /** The missing summand of a known total, as check computes it. */
  ghost function Missing(xs: seq<int>, u: nat, total: int): U128 {
    (P - SumSkip(xs, u) % P + total) % P
  }

  lemma {:induction false} MissingIsRight(xs: seq<int>, u: nat, total: int)
    requires u < |xs| && 0 <= xs[u] < P && Cong(SumSeq(xs), total)
    ensures Missing(xs, u, total) == xs[u]
  {
    SkipIsRest(xs, u);
    CongRefl(SumSkip(xs, u));
    CongAdd(total, SumSeq(xs), SumSkip(xs, u) % P, SumSkip(xs, u));
    CongShift(P - SumSkip(xs, u) % P + total, total - SumSkip(xs, u) % P, 1);
  }

  /** What all parties open. */
  ghost function AllOpen(q: Query, parties: seq<Shares>): seq<Opening>
    requires Fits(q, |q.lambda|) && AllFit(parties, |q.lambda|)
  {
    seq(|parties|, i requires 0 <= i < |parties| => Open(q, parties[i], i == 0))
  }

  ghost function Alphas(os: seq<Opening>): seq<int> {
    seq(|os|, i requires 0 <= i < |os| => os[i].alpha)
  }

  ghost function Betas(os: seq<Opening>): seq<int> {
    seq(|os|, i requires 0 <= i < |os| => os[i].beta)
  }

  ghost function Vs(os: seq<Opening>): seq<int> {
    seq(|os|, i requires 0 <= i < |os| => os[i].v)
  }

  lemma {:induction false} AddResidue(s: int, s': int, x: int)
    requires Cong(s, s')
    ensures Cong(s + x % P, s' + x)
  {
    CongRefl(x);
    CongAdd(s, s', x % P, x);
  }

  lemma {:induction false} OpenLast(q: Query, parties: seq<Shares>)
    requires Fits(q, |q.lambda|) && AllFit(parties, |q.lambda|) && parties != []
    ensures
      var n := |parties| - 1;
      var os := AllOpen(q, parties[..n]);
      && Alphas(AllOpen(q, parties)) == Alphas(os) + [AlphaOf(q, parties[n]) % P]
      && Betas(AllOpen(q, parties)) == Betas(os) + [BetaOf(q, parties[n]) % P]
      && Vs(AllOpen(q, parties)) == Vs(os) + [VOf(q, parties[n], n == 0) % P]
  {
    hide AlphaOf, BetaOf, VOf;
  }

  lemma {:induction false} SumAppend(xs: seq<int>, s: int, x: int)
    requires Cong(SumSeq(xs), s)
    ensures Cong(SumSeq(xs + [x % P]), s + x)
  {
    hide Cong;
    assert (xs + [x % P])[..|xs|] == xs;
    AddResidue(SumSeq(xs), s, x);
  }

  lemma {:induction false} NothingOpened(q: Query, parties: seq<Shares>)
    requires Fits(q, |q.lambda|) && parties == []
    ensures SumSeq(Alphas(AllOpen(q, parties))) == SumSeq(Betas(AllOpen(q, parties))) ==
      SumSeq(Vs(AllOpen(q, parties))) == 0
  {
  }

  lemma {:induction false} ResiduesAddUp(q: Query, parties: seq<Shares>)
    requires Fits(q, |q.lambda|) && AllFit(parties, |q.lambda|)
    ensures Cong(SumSeq(Alphas(AllOpen(q, parties))), SumAlpha(q, parties))
    ensures Cong(SumSeq(Betas(AllOpen(q, parties))), SumBeta(q, parties))
    ensures Cong(SumSeq(Vs(AllOpen(q, parties))), SumV(q, parties))
  {
    hide Cong, AlphaOf, BetaOf, VOf, AllOpen, Alphas, Betas, Vs, SumSeq;
    if parties == [] {
      NothingOpened(q, parties);
      CongRefl(0);
    } else {
      var n := |parties| - 1;
      var os := AllOpen(q, parties[..n]);
      ResiduesAddUp(q, parties[..n]);
      OpenLast(q, parties);
      SumAppend(Alphas(os), SumAlpha(q, parties[..n]), AlphaOf(q, parties[n]));
      SumAppend(Betas(os), SumBeta(q, parties[..n]), BetaOf(q, parties[n]));
      SumAppend(Vs(os), SumV(q, parties[..n]), VOf(q, parties[n], n == 0));
    }
  }

  /** The opening of party u recovered from the others' openings and the public values. */
  ghost function Recover(q: Query, os: seq<Opening>, u: nat): Opening {
    Opening(Missing(Alphas(os), u, q.alpha), Missing(Betas(os), u, q.beta), Missing(Vs(os), u, 0))
  }

  /** The verifier recovers exactly what the unopened party would have opened. */
  lemma {:induction false} UnopenedRecovered(q: Query, parties: seq<Shares>, key: int, u: nat)
    requires Fits(q, |q.lambda|) && AllFit(parties, |q.lambda|) && u < |parties|
    requires Honest(q, Total(parties, |q.lambda|), key)
    ensures Recover(q, AllOpen(q, parties), u) == Open(q, parties[u], u == 0)
  {
    var os := AllOpen(q, parties);
    hide Cong, Honest, SumSeq, Missing, AlphaOf, BetaOf, LinearV, ConstantV, SumAlpha, SumBeta, SumV, Total, VOf;
    SumsAreLinear(q, parties);
    Cancellation(q, Total(parties, |q.lambda|), key);
    ResiduesAddUp(q, parties);
    CongTrans(SumSeq(Alphas(os)), SumAlpha(q, parties), q.alpha);
    CongTrans(SumSeq(Betas(os)), SumBeta(q, parties), q.beta);
    CongTrans(SumSeq(Vs(os)), SumV(q, parties), 0);
    MissingIsRight(Alphas(os), u, q.alpha);
    MissingIsRight(Betas(os), u, q.beta);
    MissingIsRight(Vs(os), u, 0);
  }
}
