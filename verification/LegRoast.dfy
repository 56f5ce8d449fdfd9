/** LegRoast as the code runs it: loops over rounds, parties and shares on 128-bit words, proved
    against the scheme's definition. */
module LegRoastRounds {
  import opened Numbers
  import opened LegRoastField
  import opened LegRoastXof
  import opened LegRoastSeedTree
  import opened LegRoastShares
  import opened LegRoastParty
  import opened LegRoastSymbol
  import opened LegRoastScheme

  // ----------------------------------------------------------------- words of shares

  lemma {:induction false} HoldsPlus(u: seq<U128>, w: seq<U128>, r: seq<U128>, t: Shares, s: Shares)
    requires Holds(u, t) && Holds(w, s) && |t.r| == |s.r| && |r| == |u|
    requires forall j :: 0 <= j < |r| ==> Cong(r[j], u[j] as int + w[j] as int)
    ensures Holds(r, Plus(t, s))
  {
    hide Cong;
    CongSum(r[0], u[0], w[0], t.k, s.k);
    CongSum(r[1], u[1], w[1], t.a, s.a);
    CongSum(r[2], u[2], w[2], t.b, s.b);
    CongSum(r[3], u[3], w[3], t.c, s.c);
    forall j | 0 <= j < |t.r|
      ensures Cong(r[4 + j], t.r[j] + s.r[j])
    {
      CongSum(r[4 + j], u[4 + j], w[4 + j], t.r[j], s.r[j]);
    }
  }

  lemma {:induction false} CongSum(r: int, u: int, w: int, x: int, y: int)
    requires Cong(r, u + w) && Cong(u, x) && Cong(w, y)
    ensures Cong(r, x + y)
  {
    hide Cong;
    CongAdd(u, x, w, y);
    CongTrans(r, u + w, x + y);
  }

  /** Adds one party's shares to the running sums. */
  method AddShares(u: seq<U128>, w: seq<U128>, ghost t: Shares, ghost s: Shares) returns (r: seq<U128>)
    requires Holds(u, t) && Holds(w, s) && |t.r| == |s.r|
    ensures Holds(r, Plus(t, s))
  {
    r := [];
    for j := 0 to |u|
      invariant |r| == j && forall k :: 0 <= k < j ==> Cong(r[k], u[k] as int + w[k] as int)
    {
      hide Cong;
      var x := AddModP(u[j], w[j]);
      r := r + [x];
    }
    HoldsPlus(u, w, r, t, s);
  }

  /** The words are the canonical residues of the shares. */
  ghost predicate Canonical(w: seq<U128>, s: Shares) {
    |w| == SHARES_R + |s.r| &&
    w[0] == s.k % P && w[1] == s.a % P && w[2] == s.b % P && w[3] == s.c % P &&
    forall j :: 0 <= j < |s.r| ==> w[SHARES_R + j] == s.r[j] % P
  }

  method ReduceShares(u: seq<U128>, ghost t: Shares) returns (r: seq<U128>)
    requires Holds(u, t)
    ensures Canonical(r, t)
  {
    r := [];
    for j := 0 to |u|
      invariant |r| == j && forall k :: 0 <= k < j ==> r[k] == u[k] % P
    {
      var x := ReduceModP(u[j]);
      r := r + [x];
    }
  }

  lemma {:induction false} CanonicalHolds(w: seq<U128>, s: Shares)
    requires Canonical(w, s)
    ensures Holds(w, s)
  {
    CongRefl(s.k);
    CongRefl(s.a);
    CongRefl(s.b);
    CongRefl(s.c);
    hide Cong;
    forall j | 0 <= j < |s.r|
      ensures Cong(w[4 + j], s.r[j])
    {
      CongRefl(s.r[j]);
    }
  }

  lemma {:induction false} WordsHold(w: seq<U128>)
    requires |w| >= 4
    ensures Holds(w, WordShares(w))
  {
  }

  lemma {:induction false} FreshWordsHold(xof: Xof, n: nat, seed: Seed, i: nat)
    ensures Holds(ShareWords(xof, n, seed), PartyShares(xof, n, seed, i, Deltas(0, 0)))
  {
    WordsHold(ShareWords(xof, n, seed));
  }

  lemma {:induction false} NoShares(xof: Xof, n: nat, leaf: nat -> Seed, w: seq<U128>)
    requires |w| == 4 + n && forall j :: 0 <= j < |w| ==> w[j] == 0
    ensures Holds(w, Sums(xof, n, leaf, 0))
    ensures Commitments(xof, leaf, 0) == [] && LeafWords(xof, n, leaf, 0) == []
  {
  }

  // ------------------------------------------------------------------ committing

  /** The share words of the first m parties. */
  ghost function LeafWords(xof: Xof, n: nat, leaf: nat -> Seed, m: nat): (ws: seq<seq<U128>>)
    ensures |ws| == m
    ensures forall i :: 0 <= i < m ==> ws[i] == ShareWords(xof, n, leaf(i))
  {
    if m == 0 then [] else LeafWords(xof, n, leaf, m - 1) + [ShareWords(xof, n, leaf(m - 1))]
  }

  method ZeroWords(n: nat) returns (w: seq<U128>)
    ensures |w| == n && forall j :: 0 <= j < n ==> w[j] == 0
  {
    w := [];
    for j := 0 to n
      invariant |w| == j && forall k :: 0 <= k < j ==> w[k] == 0
    {
      w := w + [0];
    }
  }

  /** Commits to party i's seed, expands its shares and adds them to the sums. */
  method CommitParty(xof: Xof, n: nat, seed: Seed, i: nat, commitments: seq<Bytes>, words: seq<seq<U128>>,
          sums: seq<U128>, ghost leaf: nat -> Seed)
    returns (commitments': seq<Bytes>, words': seq<seq<U128>>, sums': seq<U128>)
    requires seed == leaf(i)
    requires commitments == Commitments(xof, leaf, i) && words == LeafWords(xof, n, leaf, i)
    requires Holds(sums, Sums(xof, n, leaf, i))
    ensures commitments' == Commitments(xof, leaf, i + 1) && words' == LeafWords(xof, n, leaf, i + 1)
    ensures Holds(sums', Sums(xof, n, leaf, i + 1))
  {
    hide Holds, Sums, ShareWords;
    commitments' := commitments + [xof.Hash(seed.bytes)];
    var w := ShareWords(xof, n, seed);
    words' := words + [w];
    SumsStep(xof, n, leaf, i);
    FreshWordsHold(xof, n, seed, i);
    sums' := AddShares(sums, w, Sums(xof, n, leaf, i), PartyShares(xof, n, leaf(i), i, Deltas(0, 0)));
  }

  lemma {:induction false} TreeLeaves(pr: Params, xof: Xof, root: Seed, tree: seq<Seed>, i: nat)
    requires |tree| == 2 * Exp2(pr.depth) - 1 && Grown(xof, root, tree, |tree|) && i < Exp2(pr.depth)
    ensures tree[Exp2(pr.depth) - 1 + i] == ProverLeaf(pr, xof, root)(i)
  {
  }

  /** Commits to every party's seed, expands the shares and adds them up. */
  method CommitParties(pr: Params, xof: Xof, tree: seq<Seed>, ghost root: Seed)
    returns (commitments: seq<Bytes>, words: seq<seq<U128>>, sums: seq<U128>)
    requires |tree| == 2 * Exp2(pr.depth) - 1 && Grown(xof, root, tree, |tree|)
    ensures commitments == Commitments(xof, ProverLeaf(pr, xof, root), Exp2(pr.depth))
    ensures words == LeafWords(xof, pr.symbols, ProverLeaf(pr, xof, root), Exp2(pr.depth))
    ensures Canonical(sums, RoundSums(pr, xof, root))
  {
    hide ProverLeaf, Exp2, Holds, Sums, Grown, Canonical, Commitments, LeafWords;
    ghost var leaf := ProverLeaf(pr, xof, root);
    var parties := Exp2(pr.depth);
    sums := ZeroWords(SHARES_R + pr.symbols);
    commitments, words := [], [];
    NoShares(xof, pr.symbols, leaf, sums);
    for i := 0 to parties
      invariant commitments == Commitments(xof, leaf, i) && words == LeafWords(xof, pr.symbols, leaf, i)
      invariant Holds(sums, Sums(xof, pr.symbols, leaf, i))
    {
      TreeLeaves(pr, xof, root, tree, i);
      commitments, words,
        sums := CommitParty(xof, pr.symbols, tree[parties - 1 + i], i, commitments, words, sums, leaf);
    }
    sums := ReduceShares(sums, RoundSums(pr, xof, root));
  }

  lemma {:induction false} SumsStep(xof: Xof, n: nat, leaf: nat -> Seed, i: nat)
    ensures Sums(xof, n, leaf, i + 1) == Plus(Sums(xof, n, leaf, i), PartyShares(xof, n, leaf(i), i, Deltas(0, 0)))
  {
    hide Total, Parties, PartyShares, Plus;
    PartiesStep(xof, n, leaf, Deltas(0, 0), i + 1);
  }

  /** legendre_symbol_ct of a word standing for x. */
  method SymbolOf(w: U128, ghost x: int) returns (s: int)
    requires Cong(w, x)
    ensures s == Sym(x)
  {
    hide Pow, Ones, SymbolByte, Cong;
    var rest;
    s, rest := LegendreSymbolCt(w);
    SymCong(w, x);
    SymIs(w);
  }

  /** The symbols of the summed masks. */
  method MaskSymbols(sums: seq<U128>, ghost t: Shares) returns (symbols: seq<int>)
    requires Canonical(sums, t)
    ensures symbols == Symbols(t.r)
  {
    symbols := [];
    for i := 0 to |sums| - SHARES_R
      invariant |symbols| == i && forall j :: 0 <= j < i ==> symbols[j] == Sym(t.r[j])
    {
      hide Sym, Pow, Ones, Cong;
      CongRefl(t.r[i]);
      var s := SymbolOf(sums[SHARES_R + i], t.r[i]);
      symbols := symbols + [s];
    }
  }

  lemma {:induction false} SymIs(x: int)
    ensures Sym(x) == SymbolByte(Pow(x, Ones(126)) % P)
  {
    hide Pow, Ones, SymbolByte;
  }

  /** The corrections that make the shares add up to the key and to a product. */
  method ComputeDeltas(sums: seq<U128>, key: U128, ghost t: Shares) returns (d: Deltas)
    requires Canonical(sums, t)
    ensures d == DeltasOf(t, key)
  {
    var k := P - sums[SHARE_K];
    var k' := AddModP(k, key);
    NegativePlus(k', k, t.k, key);
    k' := ReduceModP(k');
    var c := P - sums[SHARES_TRIPLE + 2];
    CongRefl(t.a);
    CongRefl(t.b);
    CongShift(c, 0 - t.c % P, 1);
    var c' := MulAdd(c, sums[SHARES_TRIPLE], sums[SHARES_TRIPLE + 1], c, t.a, t.b);
    NegativePlus(c', c, t.c, t.a * t.b);
    c' := ReduceModP(c');
    d := Deltas(k', c');
  }

  lemma {:induction false} NegativePlus(r: int, neg: int, x: int, y: int)
    requires neg == P - x % P && Cong(r, neg + y)
    ensures r % P == (y - x) % P
  {
    CongRefl(x);
    CongAdd(y, y, x % P, x);
    CongShift(neg + y, y - x % P, 1);
  }

  ghost predicate HoldAll(ws: seq<seq<U128>>, ps: seq<Shares>) {
    |ws| == |ps| && forall i :: 0 <= i < |ws| ==> Holds(ws[i], ps[i])
  }

  lemma {:induction false} ShiftedHolds(w: seq<U128>, w': seq<U128>, s: Shares, d: Deltas)
    requires Holds(w, s) && |w'| == |w|
    requires Cong(w'[SHARE_K], w[SHARE_K] as int + d.k as int)
    requires Cong(w'[SHARES_TRIPLE + 2], w[SHARES_TRIPLE + 2] as int + d.c as int)
    requires forall j :: 0 <= j < |w| && j != SHARE_K && j != SHARES_TRIPLE + 2 ==> w'[j] == w[j]
    ensures Holds(w', Shift(s, d))
  {
    hide Cong;
    CongRefl(d.k);
    CongRefl(d.c);
    CongSum(w'[0], w[0], d.k, s.k, d.k);
    CongSum(w'[3], w[3], d.c, s.c, d.c);
  }

  /** Adds the deltas to party 0's shares. */
  method AddDeltas(w: seq<U128>, d: Deltas, ghost s: Shares) returns (w': seq<U128>)
    requires Holds(w, s)
    ensures Holds(w', Shift(s, d))
  {
    var k := AddModP(w[SHARE_K], d.k);
    var c := AddModP(w[SHARES_TRIPLE + 2], d.c);
    hide Cong;
    w' := w[SHARE_K := k][SHARES_TRIPLE + 2 := c];
    ShiftedHolds(w, w', s, d);
  }

  lemma {:induction false} WordsOfOthers(xof: Xof, n: nat, leaf: nat -> Seed, d: Deltas, m: nat, ws: seq<seq<U128>>)
    requires m > 0 && |ws| == m && Holds(ws[0], Shift(PartyShares(xof, n, leaf(0), 0, Deltas(0, 0)), d))
    requires forall i :: 0 < i < m ==> ws[i] == ShareWords(xof, n, leaf(i))
    ensures HoldAll(ws, Parties(xof, n, leaf, d, m))
  {
    hide PartyShares, ShareWords, Holds, Shift;
    FirstParty(xof, n, leaf(0), d);
    forall i | 0 < i < m
      ensures Holds(ws[i], PartyShares(xof, n, leaf(i), i, d))
    {
      OtherParty(xof, n, leaf(i), i, d);
      FreshWordsHold(xof, n, leaf(i), i);
    }
  }

  /** Adds the deltas to the first of the parties' words. */
  method AdjustParties(xof: Xof, n: nat, words: seq<seq<U128>>, d: Deltas, ghost leaf: nat -> Seed, ghost m: nat)
    returns (words': seq<seq<U128>>)
    requires m > 0 && words == LeafWords(xof, n, leaf, m)
    ensures HoldAll(words', Parties(xof, n, leaf, d, m))
  {
    hide LeafWords, Holds, HoldAll, Parties, PartyShares, ShareWords;
    FreshWordsHold(xof, n, leaf(0), 0);
    var first := AddDeltas(words[0], d, PartyShares(xof, n, leaf(0), 0, Deltas(0, 0)));
    words' := words[0 := first];
    WordsOfOthers(xof, n, leaf, d, m, words');
  }

  /** What the prover keeps of a round. */
  datatype RoundState = RoundState(tree: seq<Seed>, words: seq<seq<U128>>, sums: seq<U128>)

  ghost predicate Prepared(pr: Params, xof: Xof, key: int, root: Seed, st: RoundState) {
    |st.tree| == 2 * Exp2(pr.depth) - 1 && Grown(xof, root, st.tree, |st.tree|) &&
    HoldAll(st.words, SignedParties(pr, xof, key, root)) && Canonical(st.sums, RoundSums(pr, xof, root))
  }

  /** One round of commit. */
  method CommitRound(pr: Params, xof: Xof, key: U128, root: Seed)
    returns (st: RoundState, commitments: seq<Bytes>, symbols: seq<int>, d: Deltas)
    ensures Prepared(pr, xof, key, root, st)
    ensures commitments == Commitments(xof, ProverLeaf(pr, xof, root), Exp2(pr.depth))
    ensures symbols == Symbols(RoundSums(pr, xof, root).r)
    ensures d == DeltasOf(RoundSums(pr, xof, root), key)
  {
    hide ProverLeaf, Exp2, Grown, Canonical, HoldAll, Commitments, LeafWords, RoundSums, DeltasOf, Symbols, Parties;
    var parties := Exp2(pr.depth);
    var tree := new Seed[2 * parties - 1];
    tree[0] := root;
    GenerateSeedTree(xof, tree, parties);
    var words, sums;
    commitments, words, sums := CommitParties(pr, xof, tree[..], root);
    symbols := MaskSymbols(sums, RoundSums(pr, xof, root));
    d := ComputeDeltas(sums, key, RoundSums(pr, xof, root));
    words := AdjustParties(xof, pr.symbols, words, d, ProverLeaf(pr, xof, root), parties);
    st := RoundState(tree[..], words, sums);
  }

  // ----------------------------------------------------------------- responding

  /** One round of respond1: the masked outputs. */
  method RespondRound1(key: U128, index: seq<U128>, sums: seq<U128>, ghost t: Shares) returns (out: seq<U128>)
    requires Canonical(sums, t) && |index| == |t.r|
    ensures out == Outputs(t, key, index)
  {
    out := [];
    for i := 0 to |index|
      invariant |out| == i && forall j :: 0 <= j < i ==> out[j] == (index[j] + key) * t.r[j] % P
    {
      hide Cong;
      var x := MaskedOutput(key, index[i], sums[SHARES_R + i], t.r[i]);
      out := out + [x];
    }
  }

  method MaskedOutput(key: U128, index: U128, mask: U128, ghost r: int) returns (x: U128)
    requires mask == r % P
    ensures x == (index + key) * r % P
  {
    hide Cong;
    CongRefl(0);
    CongRefl(r);
    var keyPlus := AddModP(index, key);
    x := MulAdd(0, keyPlus, mask, 0, index + key, r);
    CongMod(x, (index + key) * r);
    x := ReduceModP(x);
  }

  /** alpha and beta in the clear. */
  method ClearValues(key: U128, eps: U128, lambda: seq<U128>, sums: seq<U128>, ghost t: Shares)
    returns (alpha: U128, beta: U128)
    requires Canonical(sums, t) && |lambda| == |t.r|
    ensures alpha == (eps * key + t.a) % P && beta == (t.b + Dot(lambda, t.r)) % P
  {
    CanonicalHolds(sums, t);
    CongRefl(key);
    alpha := ShareOfAlpha(eps, key, sums[SHARES_TRIPLE], key, t.a);
    beta := sums[SHARES_TRIPLE + 1];
    for i := 0 to |lambda|
      invariant Cong(beta, t.b + Dot(lambda[..i], t.r[..i]))
    {
      hide Cong, Dot;
      DotPrefix(lambda, t.r, i);
      CongRefl(lambda[i]);
      beta := MulAdd(beta, lambda[i], sums[SHARES_R + i], t.b + Dot(lambda[..i], t.r[..i]), lambda[i], t.r[i]);
    }
    DotWhole(lambda, t.r);
    CongMod(beta, t.b + Dot(lambda, t.r));
    beta := ReduceModP(beta);
  }

  /** One round of respond2: alpha, beta and every party's opening. */
  method RespondRound2(key: U128, eps: U128, lambda: seq<U128>, index: seq<U128>, out: seq<U128>,
          words: seq<seq<U128>>, sums: seq<U128>, ghost t: Shares, ghost ps: seq<Shares>)
    returns (alpha: U128, beta: U128, os: seq<Opening>)
    requires |lambda| == |index| == |t.r| && out == Outputs(t, key, index)
    requires Canonical(sums, t) && AllFit(ps, |lambda|) && HoldAll(words, ps)
    ensures
      var q := RoundQuery(t, key, eps, lambda, index);
      alpha == q.alpha && beta == q.beta && os == AllOpen(q, ps)
  {
    alpha, beta := ClearValues(key, eps, lambda, sums, t);
    ghost var q := RoundQuery(t, key, eps, lambda, index);
    assert q == Query(eps, lambda, index, out, alpha, beta);
    os := [];
    for i := 0 to |words|
      invariant |os| == i && forall k :: 0 <= k < i ==> os[k] == Open(q, ps[k], k == 0)
    {
      hide Open, Holds, Outputs, RoundQuery;
      var o := OpenParty(eps, lambda, index, out, alpha, beta, words[i], i == 0, true, ps[i]);
      os := os + [o];
    }
  }

  lemma {:induction false} ReleasedOfGrown(xof: Xof, root: Seed, leaf: nat, depth: nat, tree: seq<Seed>, out: seq<Seed>)
    requires |tree| == 2 * Exp2(depth) - 1 && Grown(xof, root, tree, |tree|)
    requires |out| == depth && Released(tree, leaf, out, 0)
    ensures SeedsOf(xof, root, leaf, depth, out)
  {
    hide Exp2, Node, OnPath;
  }

  /** One round of respond3: the revealed seeds and the commitment of the unopened party. */
  method RespondRound3(pr: Params, xof: Xof, tree: seq<Seed>, u: nat, ghost root: Seed)
    returns (seeds: seq<Seed>, commitment: Bytes)
    requires u < Exp2(pr.depth) && |tree| == 2 * Exp2(pr.depth) - 1 && Grown(xof, root, tree, |tree|)
    ensures SeedsOf(xof, root, Exp2(pr.depth) - 1 + u, pr.depth, seeds)
    ensures commitment == xof.Hash(ProverLeaf(pr, xof, root)(u).bytes)
  {
    hide Exp2, Grown, Released, SeedsOf, ProverLeaf;
    seeds := ReleaseSeeds(tree, u, pr.depth);
    ReleasedOfGrown(xof, root, Exp2(pr.depth) - 1 + u, pr.depth, tree, seeds);
    TreeLeaves(pr, xof, root, tree, u);
    commitment := xof.Hash(tree[Exp2(pr.depth) - 1 + u].bytes);
  }

  // ------------------------------------------------------------------- checking

  /** All words but those of party u hold the given shares. */
  ghost predicate HoldAllBut(ws: seq<seq<U128>>, ps: seq<Shares>, u: nat) {
    |ws| == |ps| && forall i :: 0 <= i < |ws| && i != u ==> Holds(ws[i], ps[i])
  }

  /** The share words of party i from its rebuilt seed and the deltas. */
  method RebuildParty(xof: Xof, n: nat, seed: Seed, i: nat, d: Deltas) returns (w: seq<U128>)
    ensures Holds(w, PartyShares(xof, n, seed, i, d))
  {
    hide ShareWords, Holds, Shift, PartyShares;
    FreshWordsHold(xof, n, seed, i);
    w := ShareWords(xof, n, seed);
    if i == 0 {
      w := AddDeltas(w, d, PartyShares(xof, n, seed, 0, Deltas(0, 0)));
      FirstParty(xof, n, seed, d);
    } else {
      OtherParty(xof, n, seed, i, d);
    }
  }

  lemma {:induction false} HoldOneMore(ws: seq<seq<U128>>, w: seq<U128>, xof: Xof, n: nat, leaf: nat -> Seed,
          d: Deltas, i: nat, u: nat)
    requires HoldAllBut(ws, Parties(xof, n, leaf, d, i), u)
    requires i != u ==> Holds(w, PartyShares(xof, n, leaf(i), i, d))
    ensures HoldAllBut(ws + [w], Parties(xof, n, leaf, d, i + 1), u)
  {
    hide Holds, PartyShares;
  }

  lemma {:induction false} FilledLeaves(pr: Params, xof: Xof, seeds: seq<Seed>, u: nat, tree: seq<Seed>, i: nat)
    requires u < Exp2(pr.depth) && i < Exp2(pr.depth) && |tree| == 2 * Exp2(pr.depth) - 1
    requires PartlyFilled(xof, seeds, Exp2(pr.depth) - 1 + u, tree, |tree|)
    ensures tree[Exp2(pr.depth) - 1 + i] == VerifierLeaf(pr, xof, seeds, u)(i)
  {
    hide Filled;
  }

  /** The first half of check for one round, on the rebuilt tree: commitments and share words. */
  method CheckParties(pr: Params, xof: Xof, tree: seq<Seed>, u: nat, given: Bytes, d: Deltas, ghost seeds: seq<Seed>)
    returns (commitments: seq<Bytes>, words: seq<seq<U128>>)
    requires u < Exp2(pr.depth) && |tree| == 2 * Exp2(pr.depth) - 1
    requires PartlyFilled(xof, seeds, Exp2(pr.depth) - 1 + u, tree, |tree|)
    ensures commitments == CommitmentsBut(xof, VerifierLeaf(pr, xof, seeds, u), Exp2(pr.depth), u, given)
    ensures HoldAllBut(words, Parties(xof, pr.symbols, VerifierLeaf(pr, xof, seeds, u), d, Exp2(pr.depth)), u)
  {
    hide VerifierLeaf, Exp2, PartlyFilled, HoldAllBut, PartyShares, Holds;
    ghost var leaf := VerifierLeaf(pr, xof, seeds, u);
    var parties := Exp2(pr.depth);
    commitments, words := [], [];
    NothingHeld(xof, pr.symbols, leaf, d, u);
    for i := 0 to parties
      invariant commitments == CommitmentsBut(xof, leaf, i, u, given)
      invariant HoldAllBut(words, Parties(xof, pr.symbols, leaf, d, i), u)
    {
      hide Parties;
      FilledLeaves(pr, xof, seeds, u, tree, i);
      var w := [];
      if i == u {
        commitments := commitments + [given];
      } else {
        var seed := tree[parties - 1 + i];
        commitments := commitments + [xof.Hash(seed.bytes)];
        w := RebuildParty(xof, pr.symbols, seed, i, d);
      }
      HoldOneMore(words, w, xof, pr.symbols, leaf, d, i, u);
      words := words + [w];
    }
  }

  lemma {:induction false} NothingHeld(xof: Xof, n: nat, leaf: nat -> Seed, d: Deltas, u: nat)
    ensures HoldAllBut([], Parties(xof, n, leaf, d, 0), u)
  {
  }

  /** The symbols check derives from the outputs and the public key. */
  method OutputSymbols(pk: seq<bv8>, queried: seq<nat>, out: seq<U128>) returns (symbols: seq<int>)
    requires |queried| == |out|
    ensures symbols == SymbolsOfOutputs(pk, queried, out)
  {
    symbols := [];
    for i := 0 to |out|
      invariant |symbols| == i && forall j :: 0 <= j < i ==> symbols[j] == Xor(Sym(out[j]), GetBit(pk, queried[j]))
    {
      hide Sym, GetBit, Cong;
      CongRefl(out[i]);
      var s := SymbolOf(out[i], out[i]);
      symbols := symbols + [if s == GetBit(pk, queried[i]) then 0 else 1];
    }
  }

  /** One round of the first half of check. */
  method CheckRound1(pr: Params, xof: Xof, pk: seq<bv8>, queried: seq<nat>, out: seq<U128>, seeds: seq<Seed>, u: nat,
          given: Bytes, d: Deltas)
    returns (commitments: seq<Bytes>, symbols: seq<int>, words: seq<seq<U128>>)
    requires u < Exp2(pr.depth) && |seeds| == pr.depth && |queried| == |out|
    ensures commitments == CommitmentsBut(xof, VerifierLeaf(pr, xof, seeds, u), Exp2(pr.depth), u, given)
    ensures symbols == SymbolsOfOutputs(pk, queried, out)
    ensures HoldAllBut(words, Parties(xof, pr.symbols, VerifierLeaf(pr, xof, seeds, u), d, Exp2(pr.depth)), u)
  {
    hide VerifierLeaf, Exp2, PartlyFilled, HoldAllBut, CommitmentsBut, SymbolsOfOutputs, Parties;
    var tree := new Seed[2 * Exp2(pr.depth) - 1];
    FillDown(xof, tree, u, pr.depth, seeds);
    commitments, words := CheckParties(pr, xof, tree[..], u, given, d, seeds);
    symbols := OutputSymbols(pk, queried, out);
  }

  lemma {:induction false} SkipStep(xs: seq<int>, i: nat, u: nat, sum: int, next: int)
    requires i < |xs| && Cong(sum, SumSkip(xs[..i], u))
    requires if i == u then next == sum else Cong(next, sum + xs[i])
    ensures Cong(next, SumSkip(xs[..i + 1], u))
  {
    assert xs[..i + 1][..i] == xs[..i];
    hide SumSkip;
    if i != u {
      CongAdd(sum, SumSkip(xs[..i], u), xs[i], xs[i]);
    }
  }

  /** The running sums of the opened shares. */
  datatype Running = Running(alpha: U128, beta: U128, v: U128)

  ghost predicate RunsTo(run: Running, os: seq<Opening>, i: nat, u: nat) {
    i <= |os| &&
    Cong(run.alpha, SumSkip(Alphas(os)[..i], u)) && Cong(run.beta, SumSkip(Betas(os)[..i], u)) &&
    Cong(run.v, SumSkip(Vs(os)[..i], u))
  }

  lemma {:induction false} RunStep(run: Running, next: Running, os: seq<Opening>, i: nat, u: nat)
    requires i < |os| && RunsTo(run, os, i, u)
    requires if i == u then next == run else
      Cong(next.alpha, run.alpha as int + os[i].alpha as int) && Cong(next.beta, run.beta as int + os[i].beta as int) &&
      Cong(next.v, run.v as int + os[i].v as int)
    ensures RunsTo(next, os, i + 1, u)
  {
    hide Cong, SumSkip;
    SkipStep(Alphas(os), i, u, run.alpha, next.alpha);
    SkipStep(Betas(os), i, u, run.beta, next.beta);
    SkipStep(Vs(os), i, u, run.v, next.v);
  }

  /** The summand that completes a running sum to a total. */
  method Complete(sum: U128, total: U128, ghost xs: seq<int>, ghost u: nat) returns (r: U128)
    requires Cong(sum, SumSkip(xs, u))
    ensures r == Missing(xs, u, total)
  {
    hide SumSkip;
    r := ReduceModP(sum);
    ghost var neg: int := P - r;
    var r' := AddModP(P - r, total);
    CongMod(sum, SumSkip(xs, u));
    CongMod(r', neg + total);
    r := ReduceModP(r');
  }

  /** One round of the second half of check: the opened parties' openings, and the missing one. */
  method CheckRound2(eps: U128, lambda: seq<U128>, index: seq<U128>, out: seq<U128>, alpha: U128, beta: U128,
          words: seq<seq<U128>>, u: nat, ghost ps: seq<Shares>)
    returns (os: seq<Opening>)
    requires |lambda| == |index| == |out| && AllFit(ps, |lambda|) && u < |ps|
    requires HoldAllBut(words, ps, u)
    ensures
      var q := Query(eps, lambda, index, out, alpha, beta);
      os == AllOpen(q, ps)[u := Recover(q, AllOpen(q, ps), u)]
  {
    hide Open, Holds, RunsTo, AllOpen, Recover, HoldAllBut;
    ghost var q := Query(eps, lambda, index, out, alpha, beta);
    ghost var all := AllOpen(q, ps);
    var run := Running(0, 0, 0);
    RunStart(run, all, u);
    OpenAt(q, ps, u);
    HeldLength(words, ps, u);
    os := [];
    for i := 0 to |words|
      invariant |os| == i && forall k :: 0 <= k < i && k != u ==> os[k] == all[k]
      invariant RunsTo(run, all, i, u)
    {
      var o, next := CheckParty(eps, lambda, index, out, alpha, beta, words, i, u, run, q, ps);
      os, run := os + [o], next;
    }
    var missing := RecoverOpening(run, alpha, beta, q, all, u);
    os := os[u := missing];
  }

  lemma {:induction false} HeldLength(ws: seq<seq<U128>>, ps: seq<Shares>, u: nat)
    requires HoldAllBut(ws, ps, u)
    ensures |ws| == |ps|
    ensures forall i :: 0 <= i < |ws| && i != u ==> Holds(ws[i], ps[i])
  {
    hide Holds;
  }

  /** Party i's turn in the second half of check. */
  method CheckParty(eps: U128, lambda: seq<U128>, index: seq<U128>, out: seq<U128>, alpha: U128, beta: U128,
          words: seq<seq<U128>>, i: nat, u: nat, run: Running, ghost q: Query, ghost ps: seq<Shares>)
    returns (o: Opening, next: Running)
    requires |lambda| == |index| == |out| && AllFit(ps, |lambda|) && i < |ps|
    requires q == Query(eps, lambda, index, out, alpha, beta)
    requires HoldAllBut(words, ps, u) && RunsTo(run, AllOpen(q, ps), i, u)
    ensures i != u ==> |AllOpen(q, ps)| == |ps| && o == AllOpen(q, ps)[i]
    ensures RunsTo(next, AllOpen(q, ps), i + 1, u)
  {
    hide Open, Holds, RunsTo, AllOpen, HoldAllBut;
    HeldLength(words, ps, u);
    OpenAt(q, ps, i);
    if i == u {
      o, next := Opening(0, 0, 0), run;
    } else {
      o := OpenParty(eps, lambda, index, out, alpha, beta, words[i], i == 0, false, ps[i]);
      next := AddOpening(run, o);
    }
    RunStep(run, next, AllOpen(q, ps), i, u);
  }

  lemma {:induction false} OpenAt(q: Query, ps: seq<Shares>, i: nat)
    requires Fits(q, |q.lambda|) && AllFit(ps, |q.lambda|) && i < |ps|
    ensures |AllOpen(q, ps)| == |ps| && AllOpen(q, ps)[i] == Open(q, ps[i], i == 0)
  {
    hide Open;
  }

  lemma {:induction false} RunStart(run: Running, os: seq<Opening>, u: nat)
    requires run == Running(0, 0, 0)
    ensures RunsTo(run, os, 0, u)
  {
  }

  method AddOpening(run: Running, o: Opening) returns (next: Running)
    ensures Cong(next.alpha, run.alpha as int + o.alpha as int)
    ensures Cong(next.beta, run.beta as int + o.beta as int)
    ensures Cong(next.v, run.v as int + o.v as int)
  {
    hide Cong;
    var alpha := AddModP(run.alpha, o.alpha);
    var beta := AddModP(run.beta, o.beta);
    var v := AddModP(run.v, o.v);
    next := Running(alpha, beta, v);
  }

  /** The unopened party's opening from the sums of the others and the public values. */
  method RecoverOpening(run: Running, alpha: U128, beta: U128, ghost q: Query, ghost os: seq<Opening>, ghost u: nat)
    returns (o: Opening)
    requires RunsTo(run, os, |os|, u) && q.alpha == alpha && q.beta == beta
    ensures o == Recover(q, os, u)
  {
    hide Cong, SumSkip, Missing;
    assert Alphas(os)[..|os|] == Alphas(os) && Betas(os)[..|os|] == Betas(os) && Vs(os)[..|os|] == Vs(os);
    var a := Complete(run.alpha, alpha, Alphas(os), u);
    var b := Complete(run.beta, beta, Betas(os), u);
    var v := Complete(run.v, 0, Vs(os), u);
    o := Opening(a, b, v);
  }
}

/** A LegRoast key pair and the signature it last made or was given. */
module LegRoast {
  import opened Numbers
  import opened LegRoastField
  import opened LegRoastXof
  import opened LegRoastSeedTree
  import opened LegRoastShares
  import opened LegRoastSymbol
  import opened LegRoastScheme
  import opened LegRoastRounds
  import opened LegRoastCompleteness
  import opened LegRoastExactness

  datatype Option<T> = None | Some(value: T)

  // ------------------------------------------------------------------ key bits

  /** The byte with bit k or-ed in if s is 1. */
  function OrBit(b: bv8, k: nat, s: int): bv8 {
    if s == 1 then b | Mask(k) else b
  }

  lemma {:induction false} OrBitAt(b: bv8, k: nat, s: int, j: nat)
    requires k < 8 && j < 8 && (s == 0 || s == 1) && b & Mask(k) == 0
    ensures (OrBit(b, k, s) & Mask(j) != 0) <==> if j == k then s == 1 else b & Mask(j) != 0
  {
  }

  /** The first i bits are the symbols of key plus index, the others are clear. */
  ghost predicate KeyBits(xof: Xof, key: int, pk: seq<bv8>, i: nat) {
    |pk| == PK_BYTES &&
    forall n :: 0 <= n < 8 * PK_BYTES ==> GetBit(pk, n) == if n < i then Sym(IndexOf(xof, n) + key) else 0
  }

  lemma {:induction false} GetBitAfter(pk: seq<bv8>, i: nat, s: int, n: nat)
    requires i / 8 < |pk| && (s == 0 || s == 1) && GetBit(pk, i) == 0
    ensures GetBit(pk[i / 8 := OrBit(pk[i / 8], i % 8, s)], n) == if n == i then s else GetBit(pk, n)
  {
    hide Mask, OrBit;
    if n / 8 == i / 8 {
      OrBitAt(pk[i / 8], i % 8, s, n % 8);
    }
  }

  lemma {:induction false} KeyBitStep(xof: Xof, key: int, pk: seq<bv8>, pk': seq<bv8>, i: nat)
    requires i < 8 * PK_BYTES && KeyBits(xof, key, pk, i) && |pk'| == |pk|
    requires forall n: nat :: GetBit(pk', n) == if n == i then Sym(IndexOf(xof, i) + key) else GetBit(pk, n)
    ensures KeyBits(xof, key, pk', i + 1)
  {
    hide Sym, IndexOf, GetBit;
  }

  /** m_pk[i / 8] |= s << (i % 8), on a clear bit. */
  method SetBit(pk: seq<bv8>, i: nat, s: int) returns (pk': seq<bv8>)
    requires i < 8 * |pk| && (s == 0 || s == 1) && GetBit(pk, i) == 0
    ensures |pk'| == |pk|
    ensures forall n: nat :: GetBit(pk', n) == if n == i then s else GetBit(pk, n)
  {
    pk' := pk[i / 8 := OrBit(pk[i / 8], i % 8, s)];
    hide GetBit, OrBit;
    forall n: nat
      ensures GetBit(pk', n) == if n == i then s else GetBit(pk, n)
    {
      GetBitAfter(pk, i, s, n);
    }
  }

  method ClearKey() returns (pk: seq<bv8>)
    ensures |pk| == PK_BYTES && forall i :: 0 <= i < |pk| ==> pk[i] == 0
  {
    pk := seq(PK_BYTES, i => 0 as bv8);
  }

  lemma {:induction false} NextBitClear(xof: Xof, key: int, pk: seq<bv8>, i: nat)
    requires i < 8 * PK_BYTES && KeyBits(xof, key, pk, i)
    ensures GetBit(pk, i) == 0
  {
    hide Sym, IndexOf, GetBit;
  }

  lemma {:induction false} NoKeyBits(xof: Xof, key: int, pk: seq<bv8>)
    requires |pk| == PK_BYTES && forall i :: 0 <= i < |pk| ==> pk[i] == 0
    ensures KeyBits(xof, key, pk, 0)
  {
    hide Sym, IndexOf, Mask;
    forall n | 0 <= n < 8 * PK_BYTES
      ensures GetBit(pk, n) == 0
    {
      assert pk[n / 8] & Mask(n % 8) == 0;
    }
  }

  lemma {:induction false} AllKeyBits(xof: Xof, key: int, pk: seq<bv8>)
    requires KeyBits(xof, key, pk, 8 * PK_BYTES)
    ensures IsPublicKey(xof, key, pk)
  {
    hide Sym, IndexOf, GetBit;
  }

  method KeySymbol(xof: Xof, key: U128, i: nat) returns (s: int)
    ensures s == Sym(IndexOf(xof, i) + key) && (s == 0 || s == 1)
  {
    var index := IndexOf(xof, i);
    hide *;
    var temp := AddModP(index, key);
    ghost var x: int := index as int + key as int;
    s := SymbolOf(temp, x);
    SymIsBit(x);
  }

  /** Computes symbol i of a public key. */
  method AddKeyBit(xof: Xof, key: U128, bits: seq<bv8>, i: nat) returns (next: seq<bv8>)
    requires |bits| == PK_BYTES && i < 8 * PK_BYTES && KeyBits(xof, key, bits, i)
    ensures |next| == PK_BYTES && KeyBits(xof, key, next, i + 1)
  {
    hide KeyBits, IndexOf, Sym, GetBit;
    var s := KeySymbol(xof, key, i);
    NextBitClear(xof, key, bits, i);
    next := SetBit(bits, i, s);
    KeyBitStep(xof, key, bits, next, i);
  }

  /** Copies bytes into a buffer. */
  method Put(buf: array<Byte>, at: nat, bytes: Bytes)
    requires at + |bytes| <= buf.Length
    modifies buf
    ensures buf[..] == old(buf[..at]) + bytes + old(buf[at + |bytes|..])
  {
    for i := 0 to |bytes|
      invariant buf[..] == old(buf[..at]) + bytes[..i] + old(buf[at + i..])
    {
      buf[at + i] := bytes[i];
    }
  }

  /** Hashes a message into place k of the hash buffer, and there again places k - 1 and k. */
  method HashOnto(xof: Xof, buf: array<Byte>, k: nat, message: Bytes)
    requires k >= 1 && buf.Length >= HASH_BYTES * (k + 1)
    modifies buf
    ensures buf[..HASH_BYTES * k] == old(buf[..HASH_BYTES * k])
    ensures buf[HASH_BYTES * k..HASH_BYTES * (k + 1)] ==
            xof.Hash(old(buf[HASH_BYTES * (k - 1)..HASH_BYTES * k]) + xof.Hash(message))
  {
    var at := HASH_BYTES * k;
    Put(buf, at, xof.Hash(message));
    assert buf[at - HASH_BYTES..at + HASH_BYTES] == old(buf[at - HASH_BYTES..at]) + xof.Hash(message);
    Put(buf, at, xof.Hash(buf[at - HASH_BYTES..at + HASH_BYTES]));
  }

  /** The digests verify reconstructs the challenges from. */
  method Challenges(xof: Xof, msg: Bytes, s: Signature) returns (digest2: Bytes, digest3: Bytes, digest4: Bytes)
    ensures digest2 == Digest2(xof, msg, s.m1) && digest3 == Digest3(xof, msg, s.m1, s.m2)
    ensures digest4 == Digest4(xof, msg, s.m1, s.m2, s.m3)
  {
    var buf := new Byte[4 * HASH_BYTES](_ => 0);
    Put(buf, 0, xof.Hash(msg));
    assert buf[..HASH_BYTES] == xof.Hash(msg);
    HashOnto(xof, buf, 1, Message1Bytes(s.m1));
    digest2 := buf[HASH_BYTES..2 * HASH_BYTES];
    HashOnto(xof, buf, 2, WordRowsBytes(s.m2));
    digest3 := buf[2 * HASH_BYTES..3 * HASH_BYTES];
    HashOnto(xof, buf, 3, Message3Bytes(s.m3));
    digest4 := buf[3 * HASH_BYTES..4 * HASH_BYTES];
  }

  class Signer {
    const pr: Params
    const xof: Xof
    var sk: Bytes
    var pk: seq<bv8>
    var signature: Option<Signature>
    var state: seq<RoundState>

    constructor (pr: Params, xof: Xof)
      ensures this.pr == pr && this.xof == xof && signature == None
    {
      this.pr, this.xof := pr, xof;
      sk, pk, signature, state := [], [], None, [];
    }

    /** The prover state after commit with the given root seeds. */
    ghost predicate Committed(roots: seq<Seed>)
      reads this
    {
      |state| == |roots| == pr.rounds &&
      forall r :: 0 <= r < pr.rounds ==> Prepared(pr, xof, Key(xof, sk), roots[r], state[r])
    }

    /** keygen, for the secret key drawn at random. */
    method Keygen(random: Bytes)
      modifies this`sk, this`pk
      ensures sk == random && IsPublicKey(xof, Key(xof, sk), pk)
    {
      sk := random;
      var key := Key(xof, sk);
      hide KeyBits, IndexOf, Sym, Key, IsPublicKey, GetBit;
      var bits := ClearKey();
      NoKeyBits(xof, key, bits);
      for i := 0 to 8 * PK_BYTES
        invariant sk == random
        invariant |bits| == PK_BYTES && KeyBits(xof, key, bits, i)
      {
        bits := AddKeyBit(xof, key, bits, i);
      }
      AllKeyBits(xof, key, bits);
      pk := bits;
    }

    /** commit */
    method Commit(roots: seq<Seed>) returns (m: Message1)
      requires |roots| == pr.rounds
      modifies this`state
      ensures Committed(roots) && IsMessage1(pr, xof, Key(xof, sk), roots, m)
    {
      hide Key, Prepared, SignedCommitments, SignedSymbols, DeltasOf, RoundSums, Commitments, Symbols, Rows, SymbolRows;
      var key := Key(xof, sk);
      var states, commitments, symbols, deltaK, deltaC := [], [], [], [], [];
      NoRowsSigned(pr, xof, roots);
      for r := 0 to pr.rounds
        invariant |states| == |deltaK| == |deltaC| == r
        invariant commitments == SignedCommitments(pr, xof, roots, r) && symbols == SignedSymbols(pr, xof, roots, r)
        invariant forall k :: 0 <= k < r ==> Prepared(pr, xof, key, roots[k], states[k])
        invariant forall k :: 0 <= k < r ==> Deltas(deltaK[k], deltaC[k]) == DeltasOf(RoundSums(pr, xof, roots[k]), key)
      {
        var st, cs, ss, d := CommitRound(pr, xof, key, roots[r]);
        SignedRowStep(pr, xof, roots, r);
        states, commitments, symbols := states + [st], commitments + [cs], symbols + [ss];
        deltaK, deltaC := deltaK + [d.k], deltaC + [d.c];
      }
      state := states;
      m := Message1(xof.Hash(Rows(commitments) + SymbolRows(symbols)), deltaK, deltaC);
    }

    /** respond1 */
    method Respond1(roots: seq<Seed>, digest2: Bytes) returns (m: seq<seq<U128>>)
      requires Committed(roots)
      ensures IsMessage2(pr, xof, Key(xof, sk), roots, digest2, m)
    {
      hide Key, Outputs, RoundSums, Queried, Indices, Canonical, Grown, HoldAll, SignedParties;
      var key := Key(xof, sk);
      m := [];
      for r := 0 to pr.rounds
        invariant |m| == r
        invariant forall k :: 0 <= k < r ==>
          m[k] == Outputs(RoundSums(pr, xof, roots[k]), key, Indices(xof, Queried(pr, xof, digest2, k)))
      {
        var index := Indices(xof, Queried(pr, xof, digest2, r));
        assert Prepared(pr, xof, key, roots[r], state[r]);
        var out := RespondRound1(key, index, state[r].sums, RoundSums(pr, xof, roots[r]));
        m := m + [out];
      }
    }

    /** respond2 */
    method Respond2(roots: seq<Seed>, digest2: Bytes, digest3: Bytes, m2: seq<seq<U128>>) returns (m: Message3)
      requires Committed(roots) && IsMessage2(pr, xof, Key(xof, sk), roots, digest2, m2)
      ensures IsMessage3(pr, xof, Key(xof, sk), roots, digest2, digest3, m)
    {
      hide Key, Outputs, RoundSums, Queried, Indices, Canonical, Grown, HoldAll, SignedParties, RoundQuery, Epsilon,
           Lambda, AllOpen, SignedOpenings;
      var key := Key(xof, sk);
      var alphas, betas, rows := [], [], [];
      NoOpeningsSigned(pr, xof, key, roots, digest2, digest3);
      for r := 0 to pr.rounds
        invariant |alphas| == |betas| == r && rows == SignedOpenings(pr, xof, key, roots, digest2, digest3, r)
        invariant forall k :: 0 <= k < r ==>
          alphas[k] == SignedQuery(pr, xof, key, roots[k], digest2, digest3, k).alpha &&
          betas[k] == SignedQuery(pr, xof, key, roots[k], digest2, digest3, k).beta
      {
        var index := Indices(xof, Queried(pr, xof, digest2, r));
        var eps, lambda := Epsilon(pr, xof, digest3, r), Lambda(pr, xof, digest3, r);
        assert Prepared(pr, xof, key, roots[r], state[r]);
        var alpha, beta, os := RespondRound2(key, eps, lambda, index, m2[r], state[r].words, state[r].sums,
                                             RoundSums(pr, xof, roots[r]), SignedParties(pr, xof, key, roots[r]));
        SignedOpeningStep(pr, xof, key, roots, digest2, digest3, r);
        alphas, betas, rows := alphas + [alpha], betas + [beta], rows + [os];
      }
      m := Message3(xof.Hash(OpeningRows(rows)), alphas, betas);
    }

    /** respond3 */
    method Respond3(roots: seq<Seed>, digest4: Bytes) returns (m: Message4)
      requires Committed(roots)
      ensures IsMessage4(pr, xof, roots, digest4, m)
    {
      hide SeedsOf, ProverLeaf, Exp2, Unopened, Canonical, Grown, HoldAll, SignedParties, RoundSums;
      var seeds, commitments := [], [];
      for r := 0 to pr.rounds
        invariant |seeds| == |commitments| == r
        invariant forall k :: 0 <= k < r ==>
          SeedsOf(xof, roots[k], Exp2(pr.depth) - 1 + Unopened(pr, xof, digest4, k), pr.depth, seeds[k]) &&
          commitments[k] == xof.Hash(ProverLeaf(pr, xof, roots[k])(Unopened(pr, xof, digest4, k)).bytes)
      {
        assert Prepared(pr, xof, Key(xof, sk), roots[r], state[r]);
        var ss, c := RespondRound3(pr, xof, state[r].tree, Unopened(pr, xof, digest4, r), roots[r]);
        seeds, commitments := seeds + [ss], commitments + [c];
      }
      m := Message4(seeds, commitments);
    }

    /** sign, for the root seeds drawn at random. */
    method Sign(msg: Bytes, roots: seq<Seed>)
      requires |roots| == pr.rounds
      modifies this`state, this`signature
      ensures signature.Some? && SizeOk(pr, signature.value) && IsSignature(pr, xof, sk, roots, msg, signature.value)
    {
      hide IsMessage1, IsMessage2, IsMessage3, IsMessage4, Key, Committed;
      var buf := new Byte[4 * HASH_BYTES](_ => 0);
      Put(buf, 0, xof.Hash(msg));
      assert buf[..HASH_BYTES] == xof.Hash(msg);
      var m1 := Commit(roots);
      HashOnto(xof, buf, 1, Message1Bytes(m1));
      var digest2 := buf[HASH_BYTES..2 * HASH_BYTES];
      var m2 := Respond1(roots, digest2);
      HashOnto(xof, buf, 2, WordRowsBytes(m2));
      var digest3 := buf[2 * HASH_BYTES..3 * HASH_BYTES];
      var m3 := Respond2(roots, digest2, digest3, m2);
      HashOnto(xof, buf, 3, Message3Bytes(m3));
      var digest4 := buf[3 * HASH_BYTES..4 * HASH_BYTES];
      var m4 := Respond3(roots, digest4);
      signature := Some(Signature(m1, m2, m3, m4));
      SizeFollows(pr, xof, sk, roots, msg, signature.value);
    }

    /** The words of the opened parties of the first k rounds, as check rebuilds them. */
    ghost predicate Rebuilt(words: seq<seq<seq<U128>>>, s: Signature, digest4: Bytes, k: nat)
      requires SizeOk(pr, s) && k <= pr.rounds
    {
      |words| == k && forall r :: 0 <= r < k ==>
        HoldAllBut(words[r], CheckedParties(pr, xof, s, digest4, r), Unopened(pr, xof, digest4, r))
    }

    /** The first half of check: seeds, commitments and symbols of every round. */
    method CheckFirst(s: Signature, digest2: Bytes, digest4: Bytes) returns (ok: bool, words: seq<seq<seq<U128>>>)
      requires SizeOk(pr, s)
      ensures ok <==> s.m1.digest == xof.Hash(Rows(CheckedCommitmentRows(pr, xof, s, digest4, pr.rounds)) +
                                              SymbolRows(CheckedSymbolRows(pr, xof, pk, s, digest2, pr.rounds)))
      ensures Rebuilt(words, s, digest4, pr.rounds)
    {
      hide Rows, SymbolRows, CheckedCommitmentRows, CheckedSymbolRows, HoldAllBut, CommitmentsBut, SymbolsOfOutputs,
           VerifierLeaf, Queried, Unopened, Exp2, Parties;
      var commitments, symbols := [], [];
      words := [];
      NoRowsChecked(pr, xof, pk, s, digest2, digest4);
      for r := 0 to pr.rounds
        invariant commitments == CheckedCommitmentRows(pr, xof, s, digest4, r) &&
          symbols == CheckedSymbolRows(pr, xof, pk, s, digest2, r)
        invariant Rebuilt(words, s, digest4, r)
      {
        var cs, ss, ws :=
          CheckRound1(pr, xof, pk, Queried(pr, xof, digest2, r), s.m2[r], s.m4.seeds[r], Unopened(pr, xof, digest4, r),
                                      s.m4.commitments[r], Deltas(s.m1.deltaK[r], s.m1.deltaC[r]));
        CheckedRowStep(pr, xof, pk, s, digest2, digest4, r);
        commitments, symbols, words := commitments + [cs], symbols + [ss], words + [ws];
      }
      ok := xof.Hash(Rows(commitments) + SymbolRows(symbols)) == s.m1.digest;
    }

    /** The second half of check: the openings of every round. */
    method CheckSecond(s: Signature, digest2: Bytes, digest3: Bytes, digest4: Bytes, words: seq<seq<seq<U128>>>)
      returns (ok: bool)
      requires SizeOk(pr, s) && Rebuilt(words, s, digest4, pr.rounds)
      ensures ok <==>
        s.m3.digest == xof.Hash(OpeningRows(CheckedOpeningRows(pr, xof, s, digest2, digest3, digest4, pr.rounds)))
    {
      hide OpeningRows, CheckedOpeningRows, HoldAllBut, CheckedParties, Queried, Unopened, Exp2, Parties, AllOpen,
           Recover, Indices, Epsilon, Lambda;
      var rows := [];
      NoOpeningsChecked(pr, xof, s, digest2, digest3, digest4);
      for r := 0 to pr.rounds
        invariant rows == CheckedOpeningRows(pr, xof, s, digest2, digest3, digest4, r)
      {
        CheckedOpeningStep(pr, xof, s, digest2, digest3, digest4, r);
        CheckedPartiesFit(pr, xof, s, digest4, r);
        var os := CheckRound2(Epsilon(pr, xof, digest3, r), Lambda(pr, xof, digest3, r),
          Indices(xof, Queried(pr, xof, digest2, r)),
                              s.m2[r], s.m3.alpha[r], s.m3.beta[r], words[r], Unopened(pr, xof, digest4, r),
                              CheckedParties(pr, xof, s, digest4, r));
        rows := rows + [os];
      }
      ok := xof.Hash(OpeningRows(rows)) == s.m3.digest;
    }

    /** verify */
    method Verify(msg: Bytes) returns (ok: bool)
      requires signature.Some? ==> SizeOk(pr, signature.value)
      ensures ok <==> signature.Some? && Accepts(pr, xof, pk, msg, signature.value)
    {
      if signature.None? {
        return false;
      }
      hide Rows, SymbolRows, OpeningRows, CheckedCommitmentRows, CheckedSymbolRows, CheckedOpeningRows, SizeOk,
           Rebuilt, Digest2, Digest3, Digest4;
      var s := signature.value;
      var digest2, digest3, digest4 := Challenges(xof, msg, s);
      var words;
      ok, words := CheckFirst(s, digest2, digest4);
      if ok {
        ok := CheckSecond(s, digest2, digest3, digest4, words);
      }
    }
  }

  /** Key generation, signing and verification together: the signature is accepted for the signed
      message unless one of its rounds degenerates, and then it is not unless the hash collides. */
  method SignAndVerify(pr: Params, xof: Xof, random: Bytes, roots: seq<Seed>, msg: Bytes)
    returns (pk: seq<bv8>, s: Signature, ok: bool)
    requires |roots| == pr.rounds
    ensures IsSignature(pr, xof, random, roots, msg, s)
    ensures (forall r :: 0 <= r < pr.rounds ==>
              RoundOk(pr, xof, Key(xof, random), roots[r], Digest2(xof, msg, s.m1), Digest4(xof, msg, s.m1, s.m2, s.m3),
                r)) ==> ok
    ensures IsPublicKey(xof, Key(xof, random), pk) && SizeOk(pr, s)
    ensures ok && NoCollision(pr, xof, pk, roots, msg, s) ==> forall r :: 0 <= r < pr.rounds ==>
              RoundOk(pr, xof, Key(xof, random), roots[r], Digest2(xof, msg, s.m1), Digest4(xof, msg, s.m1, s.m2, s.m3),
                r)
  {
    hide IsSignature, RoundOk, Key, Digest2, Digest4, IsPublicKey, SizeOk, Accepts, NoCollision;
    var signer := new Signer(pr, xof);
    signer.Keygen(random);
    signer.Sign(msg, roots);
    pk, s := signer.pk, signer.signature.value;
    ok := signer.Verify(msg);
    if forall r :: 0 <= r < pr.rounds ==>
         RoundOk(pr, xof, Key(xof, random), roots[r], Digest2(xof, msg, s.m1), Digest4(xof, msg, s.m1, s.m2, s.m3), r) {
      Completeness(pr, xof, random, pk, roots, msg, s);
    }
    if NoCollision(pr, xof, pk, roots, msg, s) {
      AcceptedExactly(pr, xof, random, pk, roots, msg, s);
    }
  }

  lemma {:induction false} NoRowsSigned(pr: Params, xof: Xof, roots: seq<Seed>)
    ensures SignedCommitments(pr, xof, roots, 0) == [] && SignedSymbols(pr, xof, roots, 0) == []
  {
  }

  lemma {:induction false} SignedRowStep(pr: Params, xof: Xof, roots: seq<Seed>, r: nat)
    requires r < |roots|
    ensures SignedCommitments(pr, xof, roots, r + 1) ==
            SignedCommitments(pr, xof, roots, r) + [Commitments(xof, ProverLeaf(pr, xof, roots[r]), Exp2(pr.depth))]
    ensures SignedSymbols(pr, xof, roots, r + 1) ==
      SignedSymbols(pr, xof, roots, r) + [Symbols(RoundSums(pr, xof, roots[r]).r)]
  {
    hide Commitments, Symbols, RoundSums;
  }

  lemma {:induction false} NoOpeningsSigned(pr: Params, xof: Xof, key: int, roots: seq<Seed>, digest2: Bytes,
          digest3: Bytes)
    ensures SignedOpenings(pr, xof, key, roots, digest2, digest3, 0) == []
  {
  }

  lemma {:induction false} SignedOpeningStep(pr: Params, xof: Xof, key: int, roots: seq<Seed>, digest2: Bytes,
          digest3: Bytes, r: nat)
    requires r < |roots|
    ensures SignedOpenings(pr, xof, key, roots, digest2, digest3, r + 1) ==
            SignedOpenings(pr, xof, key, roots, digest2, digest3, r) +
            [AllOpen(SignedQuery(pr, xof, key, roots[r], digest2, digest3, r), SignedParties(pr, xof, key, roots[r]))]
  {
    hide AllOpen, SignedQuery, SignedParties;
  }

  lemma {:induction false} NoRowsChecked(pr: Params, xof: Xof, pk: seq<bv8>, s: Signature, digest2: Bytes,
          digest4: Bytes)
    requires SizeOk(pr, s)
    ensures CheckedCommitmentRows(pr, xof, s, digest4, 0) == [] && CheckedSymbolRows(pr, xof, pk, s, digest2, 0) == []
  {
  }

  lemma {:induction false} CheckedRowStep(pr: Params, xof: Xof, pk: seq<bv8>, s: Signature, digest2: Bytes,
          digest4: Bytes, r: nat)
    requires SizeOk(pr, s) && r < pr.rounds
    ensures CheckedCommitmentRows(pr, xof, s, digest4, r + 1) ==
            CheckedCommitmentRows(pr, xof, s, digest4, r) + [CheckedCommitments(pr, xof, s, digest4, r)]
    ensures CheckedSymbolRows(pr, xof, pk, s, digest2, r + 1) ==
            CheckedSymbolRows(pr, xof, pk, s, digest2, r) +
              [SymbolsOfOutputs(pk, Queried(pr, xof, digest2, r), s.m2[r])]
  {
    hide CheckedCommitments, SymbolsOfOutputs, Queried;
  }

  lemma {:induction false} NoOpeningsChecked(pr: Params, xof: Xof, s: Signature, digest2: Bytes, digest3: Bytes,
          digest4: Bytes)
    requires SizeOk(pr, s)
    ensures CheckedOpeningRows(pr, xof, s, digest2, digest3, digest4, 0) == []
  {
  }

  lemma {:induction false} CheckedOpeningStep(pr: Params, xof: Xof, s: Signature, digest2: Bytes, digest3: Bytes,
          digest4: Bytes, r: nat)
    requires SizeOk(pr, s) && r < pr.rounds
    ensures CheckedOpeningRows(pr, xof, s, digest2, digest3, digest4, r + 1) ==
            CheckedOpeningRows(pr, xof, s, digest2, digest3, digest4, r) +
              [CheckedOpenings(pr, xof, s, digest2, digest3, digest4, r)]
  {
    hide CheckedOpenings;
  }

  lemma {:induction false} CheckedPartiesFit(pr: Params, xof: Xof, s: Signature, digest4: Bytes, r: nat)
    requires SizeOk(pr, s) && r < pr.rounds
    ensures |CheckedParties(pr, xof, s, digest4, r)| == Exp2(pr.depth) &&
      AllFit(CheckedParties(pr, xof, s, digest4, r), pr.symbols)
    ensures |s.m2[r]| == pr.symbols
  {
    hide Exp2, Parties, VerifierLeaf, Unopened;
  }
}
