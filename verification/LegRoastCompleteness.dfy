/** Completeness of LegRoast: what an honest signer writes, a verifier accepts. */
module LegRoastCompleteness {
  import opened Numbers
  import opened LegRoastField
  import opened LegRoastXof
  import opened LegRoastSeedTree
  import opened LegRoastShares
  import opened LegRoastSymbol
  import opened LegRoastScheme

  /** The leaf index of party u. */
  ghost function Index(pr: Params, u: nat): nat {
    Exp2(pr.depth) - 1 + u
  }

  /** No zero seed keeps fill_down from the seed of party i, or that seed is zero itself. */
  ghost predicate LeafKept(pr: Params, xof: Xof, root: Seed, u: nat, i: nat) {
    Reached(xof, root, Index(pr, u), Index(pr, i)) || ProverLeaf(pr, xof, root)(i) == ZERO
  }

  /** An opened party's seed is rebuilt if and only if no zero seed above it is taken for an unknown one. */
  lemma {:induction false} LeafRebuilt(pr: Params, xof: Xof, root: Seed, u: nat, seeds: seq<Seed>, i: nat)
    requires u < Exp2(pr.depth) && i < Exp2(pr.depth) && i != u
    requires SeedsOf(xof, root, Index(pr, u), pr.depth, seeds)
    ensures VerifierLeaf(pr, xof, seeds, u)(i) == ProverLeaf(pr, xof, root)(i) <==> LeafKept(pr, xof, root, u, i)
  {
    hide Exp2, Node, Filled, OnPath, SeedsOf, Reached;
    LeavesOffPath(Index(pr, i), Index(pr, u), pr.depth);
    FilledExactly(xof, root, Index(pr, u), pr.depth, seeds, Index(pr, i));
  }

  ghost predicate LeavesKept(pr: Params, xof: Xof, root: Seed, u: nat) {
    forall i :: 0 <= i < Exp2(pr.depth) && i != u ==> LeafKept(pr, xof, root, u, i)
  }

  /** If no seed fill_down has to expand is zero, every opened party's seed is kept. */
  lemma {:induction false} NonzeroSeedsKeep(pr: Params, xof: Xof, root: Seed, u: nat)
    requires u < Exp2(pr.depth)
    requires forall n :: 0 <= n && !OnPath(n, Index(pr, u)) && 2 * n + 1 < 2 * Exp2(pr.depth) - 1 ==>
      Node(xof, root, n) != ZERO
    ensures LeavesKept(pr, xof, root, u)
  {
    hide Exp2, Node, OnPath, Reached;
    forall i | 0 <= i < Exp2(pr.depth) && i != u
      ensures LeafKept(pr, xof, root, u, i)
    {
      LeavesOffPath(Index(pr, i), Index(pr, u), pr.depth);
      NonzeroReached(xof, root, Index(pr, u), 2 * Exp2(pr.depth) - 1, Index(pr, i));
    }
  }

  lemma {:induction false} CommitmentsAgree(xof: Xof, leaf: nat -> Seed, leaf': nat -> Seed, m: nat, u: nat,
          given: Bytes)
    requires forall i :: 0 <= i < m && i != u ==> leaf'(i) == leaf(i)
    requires given == xof.Hash(leaf(u).bytes)
    ensures CommitmentsBut(xof, leaf', m, u, given) == Commitments(xof, leaf, m)
  {
    if m > 0 {
      CommitmentsAgree(xof, leaf, leaf', m - 1, u, given);
    }
  }

  /** The public key lists the symbols of key plus index. */
  ghost predicate IsPublicKey(xof: Xof, key: int, pk: seq<bv8>) {
    |pk| == PK_BYTES && forall n :: 0 <= n < 8 * PK_BYTES ==> GetBit(pk, n) == Sym(IndexOf(xof, n) + key)
  }

  /** The symbols a verifier finds for a round are the committed ones if and only if no queried
      key + index and no mask vanishes modulo p next to a non-residue. */
  lemma {:induction false} SymbolsAgree(xof: Xof, key: int, pk: seq<bv8>, t: Shares, queried: seq<nat>)
    requires IsPublicKey(xof, key, pk) && |t.r| == |queried|
    requires forall j :: 0 <= j < |queried| ==> queried[j] < 8 * PK_BYTES
    ensures SymbolsOfOutputs(pk, queried, Outputs(t, key, Indices(xof, queried))) == Symbols(t.r) <==>
            forall j :: 0 <= j < |queried| ==> SymbolOk(IndexOf(xof, queried[j]) + key, t.r[j])
  {
    var found, sent := SymbolsOfOutputs(pk, queried, Outputs(t, key, Indices(xof, queried))), Symbols(t.r);
    hide SymbolsOfOutputs, Symbols, Outputs, Indices, SymbolOk, IndexOf, IsPublicKey;
    forall j | 0 <= j < |queried|
      ensures |found| == |sent| == |queried|
      ensures found[j] == sent[j] <==> SymbolOk(IndexOf(xof, queried[j]) + key, t.r[j])
    {
      SymbolAt(xof, key, pk, t, queried, j);
    }
    SymbolLengths(xof, key, pk, t, queried);
    if found == sent {
      forall j | 0 <= j < |queried|
        ensures SymbolOk(IndexOf(xof, queried[j]) + key, t.r[j])
      {
        assert found[j] == sent[j];
      }
    }
  }

  lemma {:induction false} SymbolLengths(xof: Xof, key: int, pk: seq<bv8>, t: Shares, queried: seq<nat>)
    requires |t.r| == |queried|
    ensures |SymbolsOfOutputs(pk, queried, Outputs(t, key, Indices(xof, queried)))| == |Symbols(t.r)| == |queried|
  {
    hide Sym, GetBit, IndexOf;
  }

  lemma {:induction false} SymbolAt(xof: Xof, key: int, pk: seq<bv8>, t: Shares, queried: seq<nat>, j: nat)
    requires IsPublicKey(xof, key, pk) && |t.r| == |queried| && j < |queried| && queried[j] < 8 * PK_BYTES
    ensures
      var found, sent := SymbolsOfOutputs(pk, queried, Outputs(t, key, Indices(xof, queried))), Symbols(t.r);
      && |found| == |sent| == |queried|
      && (found[j] == sent[j] <==> SymbolOk(IndexOf(xof, queried[j]) + key, t.r[j]))
  {
    hide Sym, GetBit, IndexOf, SymbolOk;
    var x := IndexOf(xof, queried[j]) + key;
    CongRefl(x * t.r[j]);
    SymCong(x * t.r[j] % P, x * t.r[j]);
    VerifierSymbol(x, t.r[j]);
    assert GetBit(pk, queried[j]) == Sym(x);
  }

  /** The openings a verifier computes are those of all parties. */
  lemma {:induction false} OpeningsAgree(q: Query, ps: seq<Shares>, ps': seq<Shares>, key: int, u: nat)
    requires Fits(q, |q.lambda|) && AllFit(ps, |q.lambda|) && AllFit(ps', |q.lambda|)
    requires |ps| == |ps'| && u < |ps| && forall i :: 0 <= i < |ps| && i != u ==> ps'[i] == ps[i]
    requires Honest(q, Total(ps, |q.lambda|), key)
    ensures AllOpen(q, ps')[u := Recover(q, AllOpen(q, ps'), u)] == AllOpen(q, ps)
  {
    var os, os' := AllOpen(q, ps), AllOpen(q, ps');
    hide Honest, Total, Open;
    UnopenedRecovered(q, ps, key, u);
    RecoverIgnores(q, os, os', u);
  }

  lemma {:induction false} RecoverIgnores(q: Query, os: seq<Opening>, os': seq<Opening>, u: nat)
    requires |os| == |os'| && forall i :: 0 <= i < |os| && i != u ==> os'[i] == os[i]
    ensures Recover(q, os', u) == Recover(q, os, u)
  {
    SkipIgnores(Alphas(os'), Alphas(os), u);
    SkipIgnores(Betas(os'), Betas(os), u);
    SkipIgnores(Vs(os'), Vs(os), u);
  }

  // ------------------------------------------------------------------- one round

  lemma {:induction false} SizeFollows(pr: Params, xof: Xof, sk: Bytes, roots: seq<Seed>, msg: Bytes, s: Signature)
    requires IsSignature(pr, xof, sk, roots, msg, s)
    ensures SizeOk(pr, s)
  {
    hide SignedQuery, SignedParties, RoundSums, SignedCommitments, SignedOpenings, SignedSymbols, Rows, SymbolRows,
         OpeningRows;
    var d2 := Digest2(xof, msg, s.m1);
    forall r | 0 <= r < pr.rounds
      ensures |s.m2[r]| == pr.symbols && |s.m4.seeds[r]| == pr.depth
    {
      assert s.m2[r] == Outputs(RoundSums(pr, xof, roots[r]), Key(xof, sk), Indices(xof, Queried(pr, xof, d2, r)));
    }
  }

  /** The public values a verifier reads are those the signer used. */
  lemma {:induction false} QueriesAgree(pr: Params, xof: Xof, sk: Bytes, roots: seq<Seed>, msg: Bytes, s: Signature,
          r: nat)
    requires IsSignature(pr, xof, sk, roots, msg, s) && SizeOk(pr, s) && r < pr.rounds
    ensures
      var d2, d3 := Digest2(xof, msg, s.m1), Digest3(xof, msg, s.m1, s.m2);
      CheckedQuery(pr, xof, s, d2, d3, r) == SignedQuery(pr, xof, Key(xof, sk), roots[r], d2, d3, r)
  {
    hide SizeOk, SignedParties, RoundSums, SignedCommitments, SignedOpenings, SignedSymbols, Rows, SymbolRows,
         OpeningRows, IsMessage1, IsMessage4, Dot, Outputs, Indices, Queried, Epsilon, Lambda, Digest2, Digest3,
         Digest4;
  }

  /** The condition under which a round verifies: no zero seed is taken for an unknown one, and no
      symbol degenerates. */
  ghost predicate RoundOk(pr: Params, xof: Xof, key: int, root: Seed, digest2: Bytes, digest4: Bytes, r: nat) {
    var q := Queried(pr, xof, digest2, r);
    LeavesKept(pr, xof, root, Unopened(pr, xof, digest4, r)) &&
    forall j :: 0 <= j < pr.symbols ==> SymbolOk(IndexOf(xof, q[j]) + key, RoundSums(pr, xof, root).r[j])
  }

  lemma {:induction false} RoundLeaves(pr: Params, xof: Xof, root: Seed, u: nat, seeds: seq<Seed>)
    requires u < Exp2(pr.depth) && SeedsOf(xof, root, Index(pr, u), pr.depth, seeds)
    requires LeavesKept(pr, xof, root, u)
    ensures forall i :: 0 <= i < Exp2(pr.depth) && i != u ==>
      VerifierLeaf(pr, xof, seeds, u)(i) == ProverLeaf(pr, xof, root)(i)
  {
    hide SeedsOf, VerifierLeaf, ProverLeaf, Exp2, LeafKept;
    forall i | 0 <= i < Exp2(pr.depth) && i != u
      ensures VerifierLeaf(pr, xof, seeds, u)(i) == ProverLeaf(pr, xof, root)(i)
    {
      LeafRebuilt(pr, xof, root, u, seeds, i);
    }
  }

  lemma {:induction false} RoundCommitments(pr: Params, xof: Xof, roots: seq<Seed>, s: Signature, digest4: Bytes,
          r: nat)
    requires SizeOk(pr, s) && r < pr.rounds && IsMessage4(pr, xof, roots, digest4, s.m4)
    requires LeavesKept(pr, xof, roots[r], Unopened(pr, xof, digest4, r))
    ensures CheckedCommitments(pr, xof, s, digest4, r) ==
            Commitments(xof, ProverLeaf(pr, xof, roots[r]), Exp2(pr.depth))
  {
    var u := Unopened(pr, xof, digest4, r);
    hide SizeOk, SeedsOf, LeavesKept, VerifierLeaf, ProverLeaf, Exp2, Unopened, Commitments, CommitmentsBut;
    RoundLeaves(pr, xof, roots[r], u, s.m4.seeds[r]);
    CommitmentsAgree(xof, ProverLeaf(pr, xof, roots[r]), VerifierLeaf(pr, xof, s.m4.seeds[r], u), Exp2(pr.depth), u,
                     s.m4.commitments[r]);
  }

  lemma {:induction false} PartiesAgree(xof: Xof, n: nat, leaf: nat -> Seed, leaf': nat -> Seed, d: Deltas, m: nat,
          u: nat)
    requires forall i :: 0 <= i < m && i != u ==> leaf'(i) == leaf(i)
    ensures forall i :: 0 <= i < m && i != u ==> Parties(xof, n, leaf', d, m)[i] == Parties(xof, n, leaf, d, m)[i]
  {
    hide PartyShares;
  }

  lemma {:induction false} SignedFacts(pr: Params, xof: Xof, sk: Bytes, roots: seq<Seed>, msg: Bytes, s: Signature,
          r: nat)
    requires IsSignature(pr, xof, sk, roots, msg, s) && r < pr.rounds == |roots|
    ensures r < |s.m4.seeds| && r < |s.m1.deltaK| && r < |s.m1.deltaC|
    ensures SeedsOf(xof, roots[r], Index(pr, Unopened(pr, xof, Digest4(xof, msg, s.m1, s.m2, s.m3), r)), pr.depth,
      s.m4.seeds[r])
    ensures Deltas(s.m1.deltaK[r], s.m1.deltaC[r]) == DeltasOf(RoundSums(pr, xof, roots[r]), Key(xof, sk))
  {
    hide SeedsOf, ProverLeaf, Exp2, Unopened, Digest2, Digest3, Digest4, Key, RoundSums, DeltasOf, IsMessage2,
         IsMessage3, SignedCommitments, SignedSymbols, Rows, SymbolRows;
  }

  lemma {:induction false} RoundOpenings(pr: Params, xof: Xof, sk: Bytes, roots: seq<Seed>, msg: Bytes, s: Signature,
          r: nat)
    requires IsSignature(pr, xof, sk, roots, msg, s) && SizeOk(pr, s) && r < pr.rounds == |roots|
    requires LeavesKept(pr, xof, roots[r], Unopened(pr, xof, Digest4(xof, msg, s.m1, s.m2, s.m3), r))
    ensures
      var d2, d3, d4 := Digest2(xof, msg, s.m1), Digest3(xof, msg, s.m1, s.m2), Digest4(xof, msg, s.m1, s.m2, s.m3);
      CheckedOpenings(pr, xof, s, d2, d3, d4, r) ==
      AllOpen(SignedQuery(pr, xof, Key(xof, sk), roots[r], d2, d3, r), SignedParties(pr, xof, Key(xof, sk), roots[r]))
  {
    var key := Key(xof, sk);
    var d2, d3, d4 := Digest2(xof, msg, s.m1), Digest3(xof, msg, s.m1, s.m2), Digest4(xof, msg, s.m1, s.m2, s.m3);
    var u := Unopened(pr, xof, d4, r);
    hide IsSignature, SizeOk, SeedsOf, LeavesKept, VerifierLeaf, ProverLeaf, Exp2, Unopened, Digest2, Digest3,
         Digest4, Key, AllOpen, Parties, SignedQuery, SignedParties, CheckedQuery, RoundSums, DeltasOf, Recover,
         Honest, Total, IsMessage2, IsMessage3, SignedCommitments, SignedSymbols, Rows, SymbolRows;
    QueriesAgree(pr, xof, sk, roots, msg, s, r);
    SignedRound(pr, xof, key, roots[r], d2, d3, r);
    SignedFacts(pr, xof, sk, roots, msg, s, r);
    OpeningsRebuilt(pr, xof, key, roots[r], u, s.m4.seeds[r], SignedQuery(pr, xof, key, roots[r], d2, d3, r));
  }

  /** Openings computed from rebuilt seeds are those of the signer's parties. */
  lemma {:induction false} OpeningsRebuilt(pr: Params, xof: Xof, key: int, root: Seed, u: nat, seeds: seq<Seed>,
          q: Query)
    requires u < Exp2(pr.depth) && SeedsOf(xof, root, Index(pr, u), pr.depth, seeds)
    requires LeavesKept(pr, xof, root, u)
    requires Fits(q, pr.symbols) && Honest(q, Total(SignedParties(pr, xof, key, root), pr.symbols), key)
    ensures
      var d := DeltasOf(RoundSums(pr, xof, root), key);
      var ps := Parties(xof, pr.symbols, VerifierLeaf(pr, xof, seeds, u), d, Exp2(pr.depth));
      AllOpen(q, ps)[u := Recover(q, AllOpen(q, ps), u)] == AllOpen(q, SignedParties(pr, xof, key, root))
  {
    hide SeedsOf, LeavesKept, VerifierLeaf, ProverLeaf, Exp2, AllOpen, Parties, RoundSums, DeltasOf, Recover, Honest,
         Total;
    RoundLeaves(pr, xof, root, u, seeds);
    var leaf, leaf' := ProverLeaf(pr, xof, root), VerifierLeaf(pr, xof, seeds, u);
    var d := DeltasOf(RoundSums(pr, xof, root), key);
    PartiesAgree(xof, pr.symbols, leaf, leaf', d, Exp2(pr.depth), u);
    OpeningsAgree(q, SignedParties(pr, xof, key, root), Parties(xof, pr.symbols, leaf', d, Exp2(pr.depth)), key, u);
  }

  lemma {:induction false} SignedRound(pr: Params, xof: Xof, key: int, root: Seed, digest2: Bytes, digest3: Bytes,
          r: nat)
    ensures Honest(SignedQuery(pr, xof, key, root, digest2, digest3, r),
      Total(SignedParties(pr, xof, key, root), pr.symbols), key)
  {
    hide Exp2, Honest, Total, Parties, Sums, RoundQuery, DeltasOf;
    RoundIsHonest(xof, pr.symbols, ProverLeaf(pr, xof, root), Exp2(pr.depth), key,
                  Epsilon(pr, xof, digest3, r), Lambda(pr, xof, digest3, r),
                    Indices(xof, Queried(pr, xof, digest2, r)));
  }

  // ------------------------------------------------------------------ all rounds

  lemma {:induction false} RowsAgree(pr: Params, xof: Xof, sk: Bytes, pk: seq<bv8>, roots: seq<Seed>, msg: Bytes,
          s: Signature, k: nat)
    requires IsSignature(pr, xof, sk, roots, msg, s) && SizeOk(pr, s) && k <= pr.rounds == |roots|
    requires IsPublicKey(xof, Key(xof, sk), pk)
    requires forall r :: 0 <= r < k ==>
      RoundOk(pr, xof, Key(xof, sk), roots[r], Digest2(xof, msg, s.m1), Digest4(xof, msg, s.m1, s.m2, s.m3), r)
    ensures
      var key := Key(xof, sk);
      var d2, d3, d4 := Digest2(xof, msg, s.m1), Digest3(xof, msg, s.m1, s.m2), Digest4(xof, msg, s.m1, s.m2, s.m3);
      && CheckedCommitmentRows(pr, xof, s, d4, k) == SignedCommitments(pr, xof, roots, k)
      && CheckedSymbolRows(pr, xof, pk, s, d2, k) == SignedSymbols(pr, xof, roots, k)
      && CheckedOpeningRows(pr, xof, s, d2, d3, d4, k) == SignedOpenings(pr, xof, key, roots, d2, d3, k)
  {
    hide IsSignature, IsPublicKey, RoundOk, SizeOk, Key, Digest2, Digest3, Digest4, CheckedCommitments,
         CheckedOpenings, SymbolsOfOutputs, Commitments, Symbols, AllOpen, SignedQuery, SignedParties, RoundSums,
         Queried, Exp2, ProverLeaf;
    if k > 0 {
      RowsAgree(pr, xof, sk, pk, roots, msg, s, k - 1);
      RoundAgrees(pr, xof, sk, pk, roots, msg, s, k - 1);
    }
  }

  lemma {:induction false} RoundAgrees(pr: Params, xof: Xof, sk: Bytes, pk: seq<bv8>, roots: seq<Seed>, msg: Bytes,
          s: Signature, r: nat)
    requires IsSignature(pr, xof, sk, roots, msg, s) && SizeOk(pr, s) && r < pr.rounds == |roots|
    requires IsPublicKey(xof, Key(xof, sk), pk)
    requires RoundOk(pr, xof, Key(xof, sk), roots[r], Digest2(xof, msg, s.m1), Digest4(xof, msg, s.m1, s.m2, s.m3), r)
    ensures
      var key := Key(xof, sk);
      var d2, d3, d4 := Digest2(xof, msg, s.m1), Digest3(xof, msg, s.m1, s.m2), Digest4(xof, msg, s.m1, s.m2, s.m3);
      && CheckedCommitments(pr, xof, s, d4, r) == Commitments(xof, ProverLeaf(pr, xof, roots[r]), Exp2(pr.depth))
      && SymbolsOfOutputs(pk, Queried(pr, xof, d2, r), s.m2[r]) == Symbols(RoundSums(pr, xof, roots[r]).r)
      && CheckedOpenings(pr, xof, s, d2, d3, d4, r) ==
        AllOpen(SignedQuery(pr, xof, key, roots[r], d2, d3, r), SignedParties(pr, xof, key, roots[r]))
  {
    var key := Key(xof, sk);
    var d2, d4 := Digest2(xof, msg, s.m1), Digest4(xof, msg, s.m1, s.m2, s.m3);
    hide IsPublicKey, Key, Digest2, Digest3, Digest4, CheckedCommitments, CheckedOpenings, IsMessage1, IsMessage3,
         IsMessage4, SymbolsOfOutputs, Commitments, Symbols, AllOpen, SignedQuery, SignedParties, RoundSums, Queried,
         Exp2, ProverLeaf, LeavesKept, SymbolOk, Outputs, Indices, IndexOf, Unopened;
    RoundCommitments(pr, xof, roots, s, d4, r);
    SymbolsAgree(xof, key, pk, RoundSums(pr, xof, roots[r]), Queried(pr, xof, d2, r));
    RoundOpenings(pr, xof, sk, roots, msg, s, r);
  }

  /** Completeness: a signature produced with a secret key and any root seeds verifies under the
      matching public key for the same message, unless a seed to be expanded is zero or a symbol
      degenerates in one of its rounds. */
  lemma {:induction false} Completeness(pr: Params, xof: Xof, sk: Bytes, pk: seq<bv8>, roots: seq<Seed>, msg: Bytes,
          s: Signature)
    requires IsSignature(pr, xof, sk, roots, msg, s)
    requires IsPublicKey(xof, Key(xof, sk), pk)
    requires |roots| == pr.rounds && forall r :: 0 <= r < pr.rounds ==>
      RoundOk(pr, xof, Key(xof, sk), roots[r], Digest2(xof, msg, s.m1), Digest4(xof, msg, s.m1, s.m2, s.m3), r)
    ensures SizeOk(pr, s) && Accepts(pr, xof, pk, msg, s)
  {
    hide IsPublicKey, RoundOk, Key, Digest2, Digest3, Digest4, SizeOk, IsMessage2, IsMessage4, CheckedCommitmentRows,
         CheckedSymbolRows, CheckedOpeningRows, SignedCommitments, SignedSymbols, SignedOpenings, Rows, SymbolRows,
         OpeningRows, RoundSums, SignedQuery, DeltasOf;
    SizeFollows(pr, xof, sk, roots, msg, s);
    RowsAgree(pr, xof, sk, pk, roots, msg, s, pr.rounds);
  }
}
