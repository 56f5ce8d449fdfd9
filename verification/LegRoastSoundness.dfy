/** What an accepted LegRoast round says about who signed: the share of v the parties open is zero
    exactly for right outputs, but for one unlucky challenge; and whoever answers two openings of a
    round has given all shares away, among them a key that fits the public key. */
module LegRoastSoundness {
  import opened Numbers
  import opened MersennePrime
  import opened LegRoastField
  import opened LegRoastXof
  import opened LegRoastSeedTree
  import opened LegRoastShares
  import opened LegRoastSymbol
  import opened LegRoastScheme
  import opened LegRoastExactness
  import opened LegRoastBinding

  // ------------------------------------------------------------ what v checks

  /** By how much the outputs miss (index + key) * mask. */
  ghost function Errors(q: Query, t: Shares): (e: seq<int>)
    requires Fits(q, |t.r|)
    ensures |e| == |q.lambda|
  {
    seq(|q.lambda|, j requires 0 <= j < |q.lambda| => q.out[j] - (q.index[j] + t.k) * t.r[j])
  }

  lemma {:induction false} ErrorSum(l: seq<int>, w: seq<int>, i: seq<int>, o: seq<int>, r: seq<int>, e: seq<int>,
          k: int)
    requires |l| == |w| == |i| == |o| == |r| == |e|
    requires forall j :: 0 <= j < |l| ==> w[j] == l[j] * i[j] && e[j] == o[j] - (i[j] + k) * r[j]
    ensures Dot(l, e) == Dot(l, o) - Dot(w, r) - k * Dot(l, r)
  {
    hide Dot;
    if l == [] {
      DotEmpty(l, e);
      DotEmpty(l, o);
      DotEmpty(w, r);
      DotEmpty(l, r);
    } else {
      var n := |l| - 1;
      DotStep(l, e);
      DotStep(l, o);
      DotStep(w, r);
      DotStep(l, r);
      ErrorSum(l[..n], w[..n], i[..n], o[..n], r[..n], e[..n], k);
      ErrorTerm(l[n], i[n], o[n], r[n], k);
      Distribute(k, Dot(l[..n], r[..n]), l[n] * r[n]);
    }
  }

  lemma {:induction false} ErrorTerm(l: int, i: int, o: int, r: int, k: int)
    ensures l * (o - (i + k) * r) == l * o - (l * i) * r - k * (l * r)
  {
    OutputTerm(l, i, k, r);
    var x := (i + k) * r;
    assert l * (o - x) == l * o - l * x;
  }

  /** The public alpha and beta are those of the shares. */
  ghost predicate Consistent(q: Query, t: Shares) {
    Fits(q, |t.r|) && Cong(q.alpha, AlphaOf(q, t)) && Cong(q.beta, BetaOf(q, t))
  }

  /** The shares of v add up to how far the triple is from a product, plus the errors of the outputs
      weighted with the challenge. */
  lemma {:induction false} VIsError(q: Query, t: Shares)
    requires Consistent(q, t)
    ensures Cong(LinearV(q, t) + ConstantV(q), t.a * t.b - t.c + q.eps * Dot(q.lambda, Errors(q, t)))
  {
    hide Cong, Dot;
    var d, w, o := Dot(q.lambda, t.r), Dot(Weights(q), t.r), Dot(q.lambda, q.out);
    WeightsAt(q);
    ErrorSum(q.lambda, Weights(q), q.index, q.out, t.r, Errors(q, t), t.k);
    VInParts(q, t, d, w, o);
    Algebra(q.eps, t.k, t.a, t.b, t.c, d, w, o);
  }

  lemma {:induction false} Algebra(eps: int, k: int, a: int, b: int, c: int, d: int, w: int, o: int)
    ensures (eps * k + a) * b + (b + d) * a - c - eps * w + (eps * o - (eps * k + a) * (b + d)) ==
            a * b - c + eps * (o - w - k * d)
  {
    ExactCancellation(eps, k, a, b, d, w);
    Distribute(eps, w, k * d);
    Distribute(eps, o - w - k * d, w + k * d);
  }

  lemma {:induction false} VInParts(q: Query, t: Shares, d: int, w: int, o: int)
    requires Cong(q.alpha, q.eps * t.k + t.a) && Cong(q.beta, t.b + d)
    ensures Cong(q.alpha * t.b + q.beta * t.a - t.c - q.eps * w + (q.eps * o - q.alpha * q.beta),
                 (q.eps * t.k + t.a) * t.b + (t.b + d) * t.a - t.c - q.eps * w +
                 (q.eps * o - (q.eps * t.k + t.a) * (t.b + d)))
  {
    hide Cong;
    var alpha, beta := q.eps * t.k + t.a, t.b + d;
    CongRefl(t.a);
    CongRefl(t.b);
    CongRefl(t.c);
    CongRefl(q.eps * w);
    CongRefl(q.eps * o);
    CongMul(q.alpha, alpha, t.b, t.b);
    CongMul(q.beta, beta, t.a, t.a);
    CongMul(q.alpha, alpha, q.beta, beta);
    CongAdd(q.alpha * t.b, alpha * t.b, q.beta * t.a, beta * t.a);
    CongAdd(q.alpha * t.b + q.beta * t.a, alpha * t.b + beta * t.a, t.c, t.c);
    CongAdd(q.alpha * t.b + q.beta * t.a - t.c, alpha * t.b + beta * t.a - t.c, q.eps * w, q.eps * w);
    CongAdd(q.eps * o, q.eps * o, q.alpha * q.beta, alpha * beta);
    CongAdd(q.alpha * t.b + q.beta * t.a - t.c - q.eps * w, alpha * t.b + beta * t.a - t.c - q.eps * w,
            q.eps * o - q.alpha * q.beta, q.eps * o - alpha * beta);
  }

  /** A round passes its check with these shares. */
  ghost predicate Passing(q: Query, t: Shares) {
    Consistent(q, t) && Cong(LinearV(q, t) + ConstantV(q), 0)
  }

  lemma {:induction false} PassingExactly(q: Query, t: Shares)
    requires Consistent(q, t)
    ensures Passing(q, t) <==> Cong(t.a * t.b - t.c + q.eps * Dot(q.lambda, Errors(q, t)), 0)
  {
    hide Dot;
    VIsError(q, t);
  }

  // ------------------------------------------------- at most one challenge is passed by luck

  lemma {:induction false} ZeroProduct(x: int, y: int)
    requires Cong(x * y, 0)
    ensures Cong(x, 0) || Cong(y, 0)
  {
    var u := x % P;
    if u != 0 {
      MersenneIsPrime();
      CongRefl(x);
      CongRefl(y);
      CongMul(u, x, y, y);
      DividesModP(u * y);
      Euclid(P, u, y);
      DividesModP(y);
    }
  }

  lemma {:induction false} DotUpdate(l: seq<int>, e: seq<int>, j: nat, x: int)
    requires |l| == |e| && j < |l|
    ensures Dot(l[j := x], e) == Dot(l, e) + (x - l[j]) * e[j]
  {
    hide Dot;
    var n := |l| - 1;
    var m := l[j := x];
    DotStep(l, e);
    DotStep(m, e);
    if j == n {
      assert m[..n] == l[..n];
      assert (x - l[j]) * e[j] == x * e[j] - l[j] * e[j];
    } else {
      DotUpdate(l[..n], e[..n], j, x);
      assert m[..n] == l[..n][j := x];
    }
  }

  /** With a wrong output, of all values of one lambda at most one passes. */
  lemma {:induction false} OneLambda(q: Query, q': Query, t: Shares, j: nat)
    requires Passing(q, t) && Passing(q', t) && j < |t.r|
    requires q'.index == q.index && q'.out == q.out && q'.eps == q.eps && q'.lambda == q.lambda[j := q'.lambda[j]]
    requires !Cong(q.eps, 0) && !Cong(q.out[j], (q.index[j] + t.k) * t.r[j])
    ensures Cong(q.lambda[j], q'.lambda[j])
  {
    hide Dot, Cong, Errors, Passing;
    SameErrors(q, q', t);
    var e := Errors(q, t);
    ErrorAt(q, t, j);
    PassingSays(q, t);
    PassingSays(q', t);
    DotUpdate(q.lambda, e, j, q'.lambda[j]);
    if Cong(e[j], 0) {
      CongBack(q.out[j], (q.index[j] + t.k) * t.r[j]);
    } else {
      OnePasses(t.a * t.b - t.c, q.eps, Dot(q.lambda, e), q.lambda[j], q'.lambda[j], e[j]);
    }
  }

  lemma {:induction false} OnePasses(c: int, eps: int, d: int, l: int, l': int, e: int)
    requires Cong(c + eps * d, 0) && Cong(c + eps * (d + (l' - l) * e), 0) && !Cong(eps, 0) && !Cong(e, 0)
    ensures Cong(l, l')
  {
    hide Cong;
    TwoPass(c, eps, d, (l' - l) * e);
    ZeroProduct(eps, (l' - l) * e);
    ZeroProduct(l' - l, e);
    CongBack(l', l);
    CongSym(l', l);
  }

  lemma {:induction false} SameErrors(q: Query, q': Query, t: Shares)
    requires Passing(q, t) && Passing(q', t) && q'.index == q.index && q'.out == q.out
    ensures Fits(q, |t.r|) && Fits(q', |t.r|) && Errors(q', t) == Errors(q, t)
  {
    hide Cong, LinearV, ConstantV, AlphaOf, BetaOf;
  }

  lemma {:induction false} ErrorAt(q: Query, t: Shares, j: nat)
    requires Fits(q, |t.r|) && j < |t.r|
    ensures Errors(q, t)[j] == q.out[j] - (q.index[j] + t.k) * t.r[j]
  {
  }

  lemma {:induction false} PassingSays(q: Query, t: Shares)
    requires Passing(q, t)
    ensures Fits(q, |t.r|) && Cong(t.a * t.b - t.c + q.eps * Dot(q.lambda, Errors(q, t)), 0)
  {
    hide Dot, Cong, Errors, LinearV, ConstantV, AlphaOf, BetaOf;
    PassingExactly(q, t);
  }

  lemma {:induction false} CongBack(x: int, y: int)
    requires Cong(x - y, 0)
    ensures Cong(x, y)
  {
    CongRefl(y);
    CongAdd(x - y, 0, y, y);
  }

  lemma {:induction false} TwoPass(c: int, eps: int, d: int, x: int)
    requires Cong(c + eps * d, 0) && Cong(c + eps * (d + x), 0)
    ensures Cong(eps * x, 0)
  {
    hide Cong;
    Distribute(eps, d, x);
    CongAdd(c + eps * (d + x), 0, c + eps * d, 0);
  }

  /** With a triple that is not a product, or errors that do not cancel, at most one epsilon passes. */
  lemma {:induction false} OneEpsilon(q: Query, q': Query, t: Shares)
    requires Passing(q, t) && Passing(q', t) && q'.index == q.index && q'.out == q.out && q'.lambda == q.lambda
    requires !Cong(t.c, t.a * t.b) || !Cong(Dot(q.lambda, Errors(q, t)), 0)
    ensures Cong(q.eps, q'.eps)
  {
    hide Dot, Cong, Errors, Passing;
    SameErrors(q, q', t);
    PassingSays(q, t);
    PassingSays(q', t);
    if Cong(t.a * t.b - t.c, 0) {
      CongBack(t.a * t.b, t.c);
      CongSym(t.a * t.b, t.c);
    }
    OneSlope(t.a * t.b - t.c, Dot(q.lambda, Errors(q, t)), q.eps, q'.eps);
  }

  lemma {:induction false} OneSlope(c: int, d: int, eps: int, eps': int)
    requires Cong(c + eps * d, 0) && Cong(c + eps' * d, 0) && (!Cong(c, 0) || !Cong(d, 0))
    ensures Cong(eps, eps')
  {
    hide Cong;
    SlopeTerm(eps, eps', d);
    CongAdd(c + eps' * d, 0, c + eps * d, 0);
    ZeroProduct(eps' - eps, d);
    if Cong(d, 0) {
      CongRefl(eps);
      CongMul(eps, eps, d, 0);
      CongAdd(c + eps * d, 0, eps * d, eps * 0);
    } else {
      CongBack(eps', eps);
      CongSym(eps', eps);
    }
  }

  lemma {:induction false} SlopeTerm(eps: int, eps': int, d: int)
    ensures eps' * d - eps * d == (eps' - eps) * d && eps * 0 == 0
  {
  }

  // --------------------------------------------------------------- the key that signs

  /** A right output tells the symbol of the key it was made with. */
  lemma {:induction false} OutputTells(out: int, index: int, key: int, r: int)
    requires Cong(out, (index + key) * r) && !Cong(out, 0)
    ensures Sym(index + key) == Xor(Sym(out), Sym(r))
  {
    hide Sym, Pow, Ones;
    var x := index + key;
    if x % P == 0 {
      CongRefl(r);
      CongMul(x, 0, r, r);
      assert false;
    }
    if r % P == 0 {
      CongRefl(x);
      CongMul(x, x, r, 0);
      assert false;
    }
    SymOfProduct(x, r);
    SymCong(out, x * r);
    SymIsBit(x);
    SymIsBit(r);
  }

  lemma {:induction false} SymbolAt(pk: seq<bv8>, queried: seq<nat>, out: seq<U128>, j: nat)
    requires |queried| == |out| && j < |out|
    ensures |SymbolsOfOutputs(pk, queried, out)| == |out|
    ensures SymbolsOfOutputs(pk, queried, out)[j] == Xor(Sym(out[j]), GetBit(pk, queried[j]))
    ensures GetBit(pk, queried[j]) == 0 || GetBit(pk, queried[j]) == 1
  {
    hide Sym;
  }

  /** The shared key has the symbol the public key says exactly if the signer committed to the true
      symbol of the mask. */
  lemma {:induction false} KeySymbolTold(pk: seq<bv8>, queried: seq<nat>, q: Query, t: Shares, out: seq<U128>, j: nat)
    requires Fits(q, |t.r|) && |queried| == |out| == |t.r| && q.out == out && j < |out|
    requires Cong(q.out[j], (q.index[j] + t.k) * t.r[j]) && !Cong(q.out[j], 0)
    ensures Sym(q.index[j] + t.k) == GetBit(pk, queried[j]) <==> SymbolsOfOutputs(pk, queried, out)[j] == Sym(t.r[j])
  {
    hide Sym, GetBit, Cong, SymbolsOfOutputs;
    SymbolAt(pk, queried, out, j);
    OutputTells(q.out[j], q.index[j], t.k, t.r[j]);
    SymIsBit(q.out[j]);
    SymIsBit(t.r[j]);
    SymIsBit(q.index[j] + t.k);
  }

  // ------------------------------------------------------- two openings of one round

  /** What verify checks, for given challenges. */
  ghost predicate Passes(pr: Params, xof: Xof, pk: seq<bv8>, s: Signature, d2: Bytes, d3: Bytes, d4: Bytes)
    requires SizeOk(pr, s)
  {
    s.m1.digest == xof.Hash(FirstBuffer(pr, xof, pk, s, d2, d4)) &&
    s.m3.digest == xof.Hash(OpeningRows(CheckedOpeningRows(pr, xof, s, d2, d3, d4, pr.rounds)))
  }

  ghost function FirstBuffer(pr: Params, xof: Xof, pk: seq<bv8>, s: Signature, d2: Bytes, d4: Bytes): Bytes
    requires SizeOk(pr, s)
  {
    Rows(CheckedCommitmentRows(pr, xof, s, d4, pr.rounds)) +
      SymbolRows(CheckedSymbolRows(pr, xof, pk, s, d2, pr.rounds))
  }

  /** That is what verify accepts. */
  lemma {:induction false} AcceptsPasses(pr: Params, xof: Xof, pk: seq<bv8>, msg: Bytes, s: Signature)
    requires SizeOk(pr, s)
    ensures Accepts(pr, xof, pk, msg, s) <==>
            Passes(pr, xof, pk, s, Digest2(xof, msg, s.m1), Digest3(xof, msg, s.m1, s.m2),
                   Digest4(xof, msg, s.m1, s.m2, s.m3))
  {
    hide Rows, SymbolRows, CheckedCommitmentRows, CheckedSymbolRows, OpeningRows, CheckedOpeningRows, Digest2,
         Digest3, Digest4;
  }

  function Triple(o: Opening): seq<U128> {
    [o.alpha, o.beta, o.v]
  }

  lemma {:induction false} TripleTells(o: Opening, o': Opening)
    requires Triple(o) == Triple(o')
    ensures o == o'
  {
    assert Triple(o)[0] == Triple(o')[0] && Triple(o)[1] == Triple(o')[1] && Triple(o)[2] == Triple(o')[2];
  }

  lemma {:induction false} OpeningHead(a: seq<Opening>, x: Bytes)
    requires a != []
    ensures OpeningBytes(a) + x == WordsBytes(Triple(a[0])) + (OpeningBytes(a[1..]) + x)
  {
    hide WordsBytes;
  }

  lemma {:induction false} OpeningPeel(a: seq<Opening>, b: seq<Opening>, x: Bytes, y: Bytes)
    requires |a| == |b| && OpeningBytes(a) + x == OpeningBytes(b) + y
    ensures a == b && x == y
  {
    if a == [] {
      assert [] + x == x && [] + y == y;
    } else {
      hide WordsBytes, OpeningBytes, Triple;
      OpeningHead(a, x);
      OpeningHead(b, y);
      assert |Triple(a[0])| == |Triple(b[0])| by {
        TripleSize(a[0]);
        TripleSize(b[0]);
      }
      WordsPeel(Triple(a[0]), Triple(b[0]), OpeningBytes(a[1..]) + x, OpeningBytes(b[1..]) + y);
      TripleTells(a[0], b[0]);
      OpeningPeel(a[1..], b[1..], x, y);
      assert a == [a[0]] + a[1..] && b == [b[0]] + b[1..];
    }
  }

  lemma {:induction false} TripleSize(o: Opening)
    ensures |Triple(o)| == 3
  {
  }

  lemma {:induction false} OpeningRowsPeel(a: seq<seq<Opening>>, b: seq<seq<Opening>>)
    requires |a| == |b| && (forall r :: 0 <= r < |a| ==> |a[r]| == |b[r]|) && OpeningRows(a) == OpeningRows(b)
    ensures a == b
  {
    if a != [] {
      hide OpeningBytes;
      OpeningPeel(a[0], b[0], OpeningRows(a[1..]), OpeningRows(b[1..]));
      OpeningRowsPeel(a[1..], b[1..]);
      assert a == [a[0]] + a[1..] && b == [b[0]] + b[1..];
    }
  }

  /** Putting in what is missing makes the total right. */
  lemma {:induction false} MissingCompletes(xs: seq<int>, u: nat, total: int)
    requires u < |xs| && xs[u] == Missing(xs, u, total)
    ensures Cong(SumSeq(xs), total)
  {
    SkipIsRest(xs, u);
    var s := SumSkip(xs, u);
    CongRefl(s);
    CongRefl(P - s % P + total);
    CongAdd(s, s % P, xs[u], P - s % P + total);
    CongShift(s % P + (P - s % P + total), total, 1);
    CongTrans(SumSeq(xs), s % P + (P - s % P + total), total);
  }

  lemma {:induction false} OpeningRowAt(pr: Params, xof: Xof, s: Signature, d2: Bytes, d3: Bytes, d4: Bytes, k: nat,
          r: nat)
    requires SizeOk(pr, s) && r < k <= pr.rounds
    ensures |CheckedOpeningRows(pr, xof, s, d2, d3, d4, k)| == k
    ensures CheckedOpeningRows(pr, xof, s, d2, d3, d4, k)[r] == CheckedOpenings(pr, xof, s, d2, d3, d4, r)
  {
    hide CheckedOpenings;
    if k > 1 {
      OpeningRowAt(pr, xof, s, d2, d3, d4, k - 1, if r < k - 1 then r else 0);
    }
  }

  /** Two answers to the same first three messages, each given as many commitments of full size. */
  ghost predicate Answers(pr: Params, s: Signature, s': Signature) {
    SizeOk(pr, s) && SizeOk(pr, s') && s'.m1 == s.m1 && s'.m2 == s.m2 && s'.m3 == s.m3 &&
    forall r :: 0 <= r < pr.rounds ==> |s.m4.commitments[r]| == |s'.m4.commitments[r]| == HASH_BYTES
  }

  /** The hash tells apart the buffers the two answers lead the verifier to. */
  ghost predicate Told(pr: Params, xof: Xof, pk: seq<bv8>, s: Signature, s': Signature, d2: Bytes, d3: Bytes,
          d4: Bytes, d4': Bytes)
    requires SizeOk(pr, s) && SizeOk(pr, s')
  {
    Separates(xof, FirstBuffer(pr, xof, pk, s, d2, d4), FirstBuffer(pr, xof, pk, s', d2, d4')) &&
    Separates(xof, OpeningRows(CheckedOpeningRows(pr, xof, s, d2, d3, d4, pr.rounds)),
              OpeningRows(CheckedOpeningRows(pr, xof, s', d2, d3, d4', pr.rounds)))
  }

  lemma {:induction false} CommitmentSizes(pr: Params, xof: Xof, s: Signature, d4: Bytes, r: nat)
    requires SizeOk(pr, s) && r < pr.rounds && |s.m4.commitments[r]| == HASH_BYTES
    ensures |CheckedCommitments(pr, xof, s, d4, r)| == Exp2(pr.depth)
    ensures forall i :: 0 <= i < Exp2(pr.depth) ==> |CheckedCommitments(pr, xof, s, d4, r)[i]| == HASH_BYTES
  {
    hide Exp2, Unopened, VerifierLeaf, CommitmentsBut;
    var u := Unopened(pr, xof, d4, r);
    forall i | 0 <= i < Exp2(pr.depth)
      ensures |CheckedCommitments(pr, xof, s, d4, r)| == Exp2(pr.depth)
      ensures |CheckedCommitments(pr, xof, s, d4, r)[i]| == HASH_BYTES
    {
      CommitmentButAt(xof, VerifierLeaf(pr, xof, s.m4.seeds[r], u), Exp2(pr.depth), u, s.m4.commitments[r], i);
    }
    CommitmentButAt(xof, VerifierLeaf(pr, xof, s.m4.seeds[r], u), Exp2(pr.depth), u, s.m4.commitments[r], 0);
  }

  lemma {:induction false} SameCommitments(pr: Params, xof: Xof, pk: seq<bv8>, s: Signature, s': Signature, d2: Bytes,
          d4: Bytes, d4': Bytes, r: nat)
    requires Answers(pr, s, s') && r < pr.rounds
    requires FirstBuffer(pr, xof, pk, s, d2, d4) == FirstBuffer(pr, xof, pk, s', d2, d4')
    ensures CheckedCommitments(pr, xof, s, d4, r) == CheckedCommitments(pr, xof, s', d4', r)
  {
    hide Rows, SymbolRows, CheckedCommitmentRows, CheckedSymbolRows, CheckedCommitments, SymbolsOfOutputs, Queried;
    var k := pr.rounds;
    var a, b := CheckedCommitmentRows(pr, xof, s, d4, k), CheckedCommitmentRows(pr, xof, s', d4', k);
    forall i | 0 <= i < k
      ensures |a| == |b| == k && SameSizes(a[i], b[i])
    {
      CheckedRowAt(pr, xof, pk, s, d2, d4, k, i);
      CheckedRowAt(pr, xof, pk, s', d2, d4', k, i);
      CommitmentSizes(pr, xof, s, d4, i);
      CommitmentSizes(pr, xof, s', d4', i);
    }
    CheckedRowAt(pr, xof, pk, s, d2, d4, k, r);
    CheckedRowAt(pr, xof, pk, s', d2, d4', k, r);
    RowsPeel(a, b, SymbolRows(CheckedSymbolRows(pr, xof, pk, s, d2, k)),
             SymbolRows(CheckedSymbolRows(pr, xof, pk, s', d2, k)));
  }

  lemma {:induction false} SameOpenings(pr: Params, xof: Xof, s: Signature, s': Signature, d2: Bytes, d3: Bytes,
          d4: Bytes, d4': Bytes, r: nat)
    requires Answers(pr, s, s') && r < pr.rounds
    requires OpeningRows(CheckedOpeningRows(pr, xof, s, d2, d3, d4, pr.rounds)) ==
             OpeningRows(CheckedOpeningRows(pr, xof, s', d2, d3, d4', pr.rounds))
    ensures CheckedOpenings(pr, xof, s, d2, d3, d4, r) == CheckedOpenings(pr, xof, s', d2, d3, d4', r)
  {
    hide OpeningRows, CheckedOpeningRows, CheckedOpenings;
    var k := pr.rounds;
    var a, b := CheckedOpeningRows(pr, xof, s, d2, d3, d4, k), CheckedOpeningRows(pr, xof, s', d2, d3, d4', k);
    forall i | 0 <= i < k
      ensures |a| == |b| == k && |a[i]| == |b[i]|
    {
      OpeningRowAt(pr, xof, s, d2, d3, d4, k, i);
      OpeningRowAt(pr, xof, s', d2, d3, d4', k, i);
      OpeningSize(pr, xof, s, d2, d3, d4, i);
      OpeningSize(pr, xof, s', d2, d3, d4', i);
    }
    OpeningRowAt(pr, xof, s, d2, d3, d4, k, r);
    OpeningRowAt(pr, xof, s', d2, d3, d4', k, r);
    OpeningRowsPeel(a, b);
  }

  lemma {:induction false} OpeningSize(pr: Params, xof: Xof, s: Signature, d2: Bytes, d3: Bytes, d4: Bytes, r: nat)
    requires SizeOk(pr, s) && r < pr.rounds
    ensures |CheckedOpenings(pr, xof, s, d2, d3, d4, r)| == Exp2(pr.depth)
  {
    hide Exp2, Unopened, CheckedParties, Recover, Open, Fits, AllFit;
  }

  /** The seeds of all parties, from both answers. */
  ghost function BothLeaves(pr: Params, xof: Xof, s: Signature, s': Signature, d4: Bytes, d4': Bytes,
          r: nat): nat -> Seed
    requires SizeOk(pr, s) && SizeOk(pr, s') && r < pr.rounds
  {
    var u := Unopened(pr, xof, d4, r);
    (i: nat) => if i == u then VerifierLeaf(pr, xof, s'.m4.seeds[r], Unopened(pr, xof, d4', r))(i)
                else VerifierLeaf(pr, xof, s.m4.seeds[r], u)(i)
  }

  /** The shares of all parties, from both answers. */
  ghost function BothShares(pr: Params, xof: Xof, s: Signature, s': Signature, d4: Bytes, d4': Bytes,
          r: nat): (ps: seq<Shares>)
    requires SizeOk(pr, s) && SizeOk(pr, s') && r < pr.rounds
    ensures |ps| == Exp2(pr.depth) && AllFit(ps, pr.symbols)
  {
    Parties(xof, pr.symbols, BothLeaves(pr, xof, s, s', d4, d4', r), Deltas(s.m1.deltaK[r], s.m1.deltaC[r]),
            Exp2(pr.depth))
  }

  /** What either answer opens of a party is what the party with these shares opens. */
  lemma {:induction false} OpenedBoth(pr: Params, xof: Xof, s: Signature, s': Signature, d2: Bytes, d3: Bytes,
          d4: Bytes, d4': Bytes, r: nat)
    requires Answers(pr, s, s') && r < pr.rounds && Unopened(pr, xof, d4, r) != Unopened(pr, xof, d4', r)
    requires CheckedOpenings(pr, xof, s, d2, d3, d4, r) == CheckedOpenings(pr, xof, s', d2, d3, d4', r)
    ensures CheckedOpenings(pr, xof, s, d2, d3, d4, r) ==
            AllOpen(CheckedQuery(pr, xof, s, d2, d3, r), BothShares(pr, xof, s, s', d4, d4', r))
  {
    hide Exp2, Unopened, VerifierLeaf, Recover, Open, PartyShares, Parties, Queried, Epsilon, Lambda, Indices;
    var u := Unopened(pr, xof, d4, r);
    var q, ps := CheckedQuery(pr, xof, s, d2, d3, r), BothShares(pr, xof, s, s', d4, d4', r);
    var os, os' := CheckedOpenings(pr, xof, s, d2, d3, d4, r), CheckedOpenings(pr, xof, s', d2, d3, d4', r);
    assert CheckedQuery(pr, xof, s', d2, d3, r) == q;
    assert |os| == Exp2(pr.depth);
    forall i | 0 <= i < Exp2(pr.depth)
      ensures os[i] == AllOpen(q, ps)[i]
    {
      if i == u {
        assert os[i] == os'[i] == Open(q, CheckedParties(pr, xof, s', d4', r)[i], i == 0);
      } else {
        assert os[i] == Open(q, CheckedParties(pr, xof, s, d4, r)[i], i == 0);
      }
    }
  }

  /** What is opened adds up to alpha, beta and zero, the missing opening being what it lacks. */
  lemma {:induction false} OpenedAddUp(q: Query, ps: seq<Shares>, others: seq<Opening>, u: nat)
    requires Fits(q, |q.lambda|) && AllFit(ps, |q.lambda|) && u < |ps| == |others|
    requires AllOpen(q, ps) == others[u := Recover(q, others, u)]
    ensures Passing(q, Total(ps, |q.lambda|))
  {
    hide Cong, SumSeq, SumSkip, Missing, AlphaOf, BetaOf, LinearV, ConstantV, SumAlpha, SumBeta, SumV, Total, VOf,
         AllOpen;
    var os := AllOpen(q, ps);
    RecoverIgnores(q, others, os, u);
    MissingCompletes(Alphas(os), u, q.alpha);
    MissingCompletes(Betas(os), u, q.beta);
    MissingCompletes(Vs(os), u, 0);
    SumsAreLinear(q, ps);
    ResiduesAddUp(q, ps);
    Turn(SumSeq(Alphas(os)), SumAlpha(q, ps), q.alpha);
    Turn(SumSeq(Betas(os)), SumBeta(q, ps), q.beta);
    Turn(SumSeq(Vs(os)), SumV(q, ps), 0);
    CongSym(0, SumV(q, ps));
  }

  lemma {:induction false} Turn(x: int, y: int, z: int)
    requires Cong(x, y) && Cong(x, z)
    ensures Cong(z, y)
  {
  }

  lemma {:induction false} RecoverIgnores(q: Query, others: seq<Opening>, os: seq<Opening>, u: nat)
    requires u < |others| && os == others[u := Recover(q, others, u)]
    ensures Alphas(os)[u] == Missing(Alphas(os), u, q.alpha)
    ensures Betas(os)[u] == Missing(Betas(os), u, q.beta)
    ensures Vs(os)[u] == Missing(Vs(os), u, 0)
  {
    hide SumSkip;
    SkipIgnores(Alphas(others), Alphas(os), u);
    SkipIgnores(Betas(others), Betas(os), u);
    SkipIgnores(Vs(others), Vs(os), u);
  }

  /** Whoever answers two challenges that leave different parties of a round unopened has given away
      shares that pass the check of that round, and the seeds committed to. */
  lemma {:induction false} Reopened(pr: Params, xof: Xof, pk: seq<bv8>, s: Signature, s': Signature, d2: Bytes,
          d3: Bytes, d4: Bytes, d4': Bytes, r: nat)
    requires Answers(pr, s, s') && r < pr.rounds && Unopened(pr, xof, d4, r) != Unopened(pr, xof, d4', r)
    requires Passes(pr, xof, pk, s, d2, d3, d4) && Passes(pr, xof, pk, s', d2, d3, d4')
    requires Told(pr, xof, pk, s, s', d2, d3, d4, d4')
    ensures Passing(CheckedQuery(pr, xof, s, d2, d3, r), Total(BothShares(pr, xof, s, s', d4, d4', r), pr.symbols))
    ensures CheckedCommitments(pr, xof, s, d4, r) ==
            Commitments(xof, BothLeaves(pr, xof, s, s', d4, d4', r), Exp2(pr.depth))
  {
    hide Rows, SymbolRows, OpeningRows, FirstBuffer, CheckedOpeningRows, CheckedOpenings, CheckedCommitments, Exp2,
         Unopened, Total, CheckedQuery, BothShares, BothLeaves, Passing, VerifierLeaf;
    SameBuffers(pr, xof, pk, s, s', d2, d3, d4, d4');
    SameOpenings(pr, xof, s, s', d2, d3, d4, d4', r);
    OpenedBoth(pr, xof, s, s', d2, d3, d4, d4', r);
    RoundPassing(pr, xof, s, s', d2, d3, d4, d4', r);
    SameCommitments(pr, xof, pk, s, s', d2, d4, d4', r);
    CommittedBoth(pr, xof, s, s', d4, d4', r);
  }

  lemma {:induction false} SameBuffers(pr: Params, xof: Xof, pk: seq<bv8>, s: Signature, s': Signature, d2: Bytes,
          d3: Bytes, d4: Bytes, d4': Bytes)
    requires Answers(pr, s, s')
    requires Passes(pr, xof, pk, s, d2, d3, d4) && Passes(pr, xof, pk, s', d2, d3, d4')
    requires Told(pr, xof, pk, s, s', d2, d3, d4, d4')
    ensures FirstBuffer(pr, xof, pk, s, d2, d4) == FirstBuffer(pr, xof, pk, s', d2, d4')
    ensures OpeningRows(CheckedOpeningRows(pr, xof, s, d2, d3, d4, pr.rounds)) ==
            OpeningRows(CheckedOpeningRows(pr, xof, s', d2, d3, d4', pr.rounds))
  {
    hide FirstBuffer, OpeningRows, CheckedOpeningRows;
  }

  lemma {:induction false} RoundPassing(pr: Params, xof: Xof, s: Signature, s': Signature, d2: Bytes, d3: Bytes,
          d4: Bytes, d4': Bytes, r: nat)
    requires Answers(pr, s, s') && r < pr.rounds
    requires CheckedOpenings(pr, xof, s, d2, d3, d4, r) ==
             AllOpen(CheckedQuery(pr, xof, s, d2, d3, r), BothShares(pr, xof, s, s', d4, d4', r))
    ensures Passing(CheckedQuery(pr, xof, s, d2, d3, r), Total(BothShares(pr, xof, s, s', d4, d4', r), pr.symbols))
  {
    hide Exp2, Unopened, BothShares, CheckedParties, AllOpen, Recover, Total, Passing, Queried, Epsilon, Lambda,
         Indices;
    var q := CheckedQuery(pr, xof, s, d2, d3, r);
    var others := AllOpen(q, CheckedParties(pr, xof, s, d4, r));
    AllSize(q, CheckedParties(pr, xof, s, d4, r));
    OpenedAddUp(q, BothShares(pr, xof, s, s', d4, d4', r), others, Unopened(pr, xof, d4, r));
  }

  lemma {:induction false} AllSize(q: Query, ps: seq<Shares>)
    requires Fits(q, |q.lambda|) && AllFit(ps, |q.lambda|)
    ensures |AllOpen(q, ps)| == |ps|
  {
    hide Open;
  }

  lemma {:induction false} CommittedBoth(pr: Params, xof: Xof, s: Signature, s': Signature, d4: Bytes, d4': Bytes,
          r: nat)
    requires Answers(pr, s, s') && r < pr.rounds && Unopened(pr, xof, d4, r) != Unopened(pr, xof, d4', r)
    requires CheckedCommitments(pr, xof, s, d4, r) == CheckedCommitments(pr, xof, s', d4', r)
    ensures CheckedCommitments(pr, xof, s, d4, r) ==
            Commitments(xof, BothLeaves(pr, xof, s, s', d4, d4', r), Exp2(pr.depth))
  {
    hide Exp2, Unopened, VerifierLeaf, Commitments, CommitmentsBut;
    var m, u, u' := Exp2(pr.depth), Unopened(pr, xof, d4, r), Unopened(pr, xof, d4', r);
    var leaf := BothLeaves(pr, xof, s, s', d4, d4', r);
    var a, b := CheckedCommitments(pr, xof, s, d4, r), Commitments(xof, leaf, m);
    forall i | 0 <= i < m
      ensures |a| == |b| == m && a[i] == b[i]
    {
      CommitmentAt(xof, leaf, m, i);
      CommitmentButAt(xof, VerifierLeaf(pr, xof, s.m4.seeds[r], u), m, u, s.m4.commitments[r], i);
      CommitmentButAt(xof, VerifierLeaf(pr, xof, s'.m4.seeds[r], u'), m, u', s'.m4.commitments[r], i);
    }
    CommitmentAt(xof, leaf, m, 0);
    CommitmentButAt(xof, VerifierLeaf(pr, xof, s.m4.seeds[r], u), m, u, s.m4.commitments[r], 0);
  }
}
