/** The LegRoast signature scheme as a function of its inputs: what an honest signer writes and
    what a verifier accepts. */
module LegRoastSymbol {
  import opened Numbers
  import opened LegRoastField
  import opened MersennePrime

  /** The byte legendre_symbol_ct returns for a number. */
  ghost function Sym(x: int): int {
    SymbolByte(Pow(x, Ones(126)) % P)
  }

  lemma {:induction false} SymCong(x: int, y: int)
    requires Cong(x, y)
    ensures Sym(x) == Sym(y)
  {
    hide Pow, Ones, SymbolByte;
    PowCong(x, y, Ones(126));
  }

  lemma {:induction false} SymOfZero(x: int)
    requires x % P == 0
    ensures Pow(x, Ones(126)) % P == 0
    ensures Sym(x) == 0
  {
    hide Ones;
    HalfOrder();
    PowCong(x, 0, Ones(126));
    assert Pow(0, Ones(126)) == 0;
  }

  /** The symbol is a bit: 1 exactly for the nonzero residues whose half-order power is -1. */
  lemma {:induction false} SymIsBit(x: int)
    ensures Sym(x) == 0 || Sym(x) == 1
    ensures Sym(x) == 1 <==> Pow(x, Ones(126)) % P == P - 1
  {
    hide Pow, Ones;
    if x % P == 0 {
      SymOfZero(x);
    } else {
      Euler(x);
    }
  }

  ghost function Xor(a: int, b: int): int {
    if a == b then 0 else 1
  }

  lemma {:induction false} SignProduct(a: int, b: int, c: int)
    requires (a == 1 || a == P - 1) && (b == 1 || b == P - 1) && c == a * b % P
    ensures c == if a == b then 1 else P - 1
  {
  }

  /** The symbol of a product of nonzero residues is the exclusive or of the symbols. */
  lemma {:induction false} SymOfProduct(x: int, r: int)
    requires x % P != 0 && r % P != 0
    ensures Sym(x * r) == Xor(Sym(x), Sym(r))
  {
    hide Pow, Ones;
    Euler(x);
    Euler(r);
    PowMul(x, r, Ones(126));
    var a, b := Pow(x, Ones(126)), Pow(r, Ones(126));
    CongRefl(a);
    CongRefl(b);
    CongMul(a % P, a, b % P, b);
    SignProduct(a % P, b % P, Pow(x * r, Ones(126)) % P);
  }

  /** The one case in which the verifier's symbol can differ from the committed one: the key plus
      an index, or a mask, vanishes modulo p while the other of the two is a non-residue. */
  ghost predicate SymbolOk(x: int, r: int) {
    (x % P != 0 && r % P != 0) || (Sym(x) == 0 && Sym(r) == 0)
  }

  /** The verifier computes the symbol of the output x * r and strips off the public key's symbol
      of x; it finds the committed symbol of r exactly when SymbolOk. */
  lemma {:induction false} VerifierSymbol(x: int, r: int)
    ensures Xor(Sym(x * r), Sym(x)) == Sym(r) <==> SymbolOk(x, r)
  {
    hide Pow, Ones, Sym;
    SymIsBit(x);
    SymIsBit(r);
    if x % P != 0 && r % P != 0 {
      SymOfProduct(x, r);
    } else {
      if x % P == 0 {
        SymOfZero(x);
        CongMul(x, 0, r, r);
      } else {
        SymOfZero(r);
        CongMul(x, x, r, 0);
      }
      assert x * r % P == 0;
      SymOfZero(x * r);
    }
  }

  /** A degenerate case: key + index vanishes and the mask is the non-residue -1. */
  lemma {:induction false} DegenerateSymbol()
    ensures Sym(P - 1) == 1
    ensures Xor(Sym(0 * (P - 1)), Sym(0)) != Sym(P - 1)
    ensures !SymbolOk(0, P - 1)
  {
    hide Pow, Ones, Sym;
    CongShift(P - 1, -1, 1);
    PowCong(P - 1, -1, Ones(126));
    SignPowers(Ones(126));
    HalfOrder();
    SymIsBit(P - 1);
    SymOfZero(0);
  }
}

module LegRoastScheme {
  import opened Numbers
  import opened LegRoastField
  import opened LegRoastXof
  import opened LegRoastSeedTree
  import opened LegRoastShares
  import opened LegRoastSymbol
  import opened MersennePrime

  const PK_BYTES := 4096

  /** Number of rounds, residuosity symbols per round, and depth of the party tree. */
  datatype Params = Params(rounds: nat, symbols: nat, depth: nat)

  // ------------------------------------------------------------- bytes and words

  /** The number a byte string spells, least significant byte first. */
  function Little(b: Bytes): nat {
    if b == [] then 0 else b[0] + 256 * Little(b[1..])
  }

  function LittleBytes(x: nat, n: nat): (b: Bytes)
    ensures |b| == n
    decreases n
  {
    if n == 0 then [] else [x % 256] + LittleBytes(x / 256, n - 1)
  }

  /** n bytes from position i, as a buffer of zeroes overlaid with b would show them. */
  function Slice(b: Bytes, i: nat, n: nat): Bytes {
    seq(n, k requires 0 <= k < n => if i + k < |b| then b[i + k] else 0)
  }

  /** The k-th 128-bit word of a buffer. */
  function WordAt(b: Bytes, k: nat): U128 {
    Wrap(Little(Slice(b, 16 * k, 16)))
  }

  /** The k-th 32-bit word of a buffer. */
  function Word32At(b: Bytes, k: nat): nat {
    Little(Slice(b, 4 * k, 4))
  }

  function WordsBytes(ws: seq<U128>): Bytes {
    if ws == [] then [] else LittleBytes(ws[0], 16) + WordsBytes(ws[1..])
  }

  function Concat(bs: seq<Bytes>): Bytes {
    if bs == [] then [] else bs[0] + Concat(bs[1..])
  }

  function WordRowsBytes(rows: seq<seq<U128>>): Bytes {
    if rows == [] then [] else WordsBytes(rows[0]) + WordRowsBytes(rows[1..])
  }

  // ------------------------------------------------------------------ messages

  datatype Message1 = Message1(digest: Bytes, deltaK: seq<U128>, deltaC: seq<U128>)
  datatype Message3 = Message3(digest: Bytes, alpha: seq<U128>, beta: seq<U128>)
  datatype Message4 = Message4(seeds: seq<seq<Seed>>, commitments: seq<Bytes>)

  /** A signature: the four prover messages, row by row of rounds. */
  datatype Signature = Signature(m1: Message1, m2: seq<seq<U128>>, m3: Message3, m4: Message4)

  function Message1Bytes(m: Message1): Bytes {
    m.digest + WordsBytes(m.deltaK) + WordsBytes(m.deltaC)
  }

  function Message3Bytes(m: Message3): Bytes {
    m.digest + WordsBytes(m.alpha) + WordsBytes(m.beta)
  }

  /** A signature of the size the parameters demand. */
  predicate SizeOk(pr: Params, s: Signature) {
    |s.m1.deltaK| == |s.m1.deltaC| == |s.m2| == |s.m3.alpha| == |s.m3.beta| == |s.m4.seeds| == |s.m4.commitments| ==
      pr.rounds &&
    (forall r :: 0 <= r < pr.rounds ==> |s.m2[r]| == pr.symbols) &&
    (forall r :: 0 <= r < pr.rounds ==> |s.m4.seeds[r]| == pr.depth)
  }

  // ------------------------------------------------------------------ challenges

  /** Each challenge hashes the previous digest with the digest of the message before it. */
  function Digest2(xof: Xof, msg: Bytes, m1: Message1): Bytes {
    xof.Hash(xof.Hash(msg) + xof.Hash(Message1Bytes(m1)))
  }

  function Digest3(xof: Xof, msg: Bytes, m1: Message1, m2: seq<seq<U128>>): Bytes {
    xof.Hash(Digest2(xof, msg, m1) + xof.Hash(WordRowsBytes(m2)))
  }

  function Digest4(xof: Xof, msg: Bytes, m1: Message1, m2: seq<seq<U128>>, m3: Message3): Bytes {
    xof.Hash(Digest3(xof, msg, m1, m2) + xof.Hash(Message3Bytes(m3)))
  }

  /** Which public-key symbols round r queries. */
  function Queried(pr: Params, xof: Xof, digest2: Bytes, r: nat): (q: seq<nat>)
    ensures |q| == pr.symbols
    ensures forall j :: 0 <= j < pr.symbols ==> q[j] < 8 * PK_BYTES
  {
    var b := xof.Expand(digest2, 4 * (pr.rounds * pr.symbols));
    seq(pr.symbols, j requires 0 <= j < pr.symbols => Word32At(b, r * pr.symbols + j) % (8 * PK_BYTES))
  }

  function Epsilon(pr: Params, xof: Xof, digest3: Bytes, r: nat): U128 {
    WordAt(xof.Expand(digest3, 16 * (pr.rounds + pr.rounds * pr.symbols)), r)
  }

  function Lambda(pr: Params, xof: Xof, digest3: Bytes, r: nat): (l: seq<U128>)
    ensures |l| == pr.symbols
  {
    var b := xof.Expand(digest3, 16 * (pr.rounds + pr.rounds * pr.symbols));
    seq<U128>(pr.symbols, j requires 0 <= j < pr.symbols => WordAt(b, pr.rounds + r * pr.symbols + j))
  }

  /** The party left unopened in round r. */
  function Unopened(pr: Params, xof: Xof, digest4: Bytes, r: nat): (u: nat)
    ensures u < Exp2(pr.depth)
  {
    Word32At(xof.Expand(digest4, 4 * pr.rounds), r) % Exp2(pr.depth)
  }

  /** sample_mod_p */
  function Key(xof: Xof, sk: Bytes): U128 {
    WordAt(xof.Expand(sk, 16), 0) % P
  }

  /** compute_index */
  function IndexOf(xof: Xof, a: nat): U128 {
    WordAt(xof.Expand(LittleBytes(a, 4), 16), 0)
  }

  function Indices(xof: Xof, queried: seq<nat>): (i: seq<U128>)
    ensures |i| == |queried|
  {
    seq<U128>(|queried|, j requires 0 <= j < |queried| => IndexOf(xof, queried[j]))
  }

  // --------------------------------------------------------------- the honest signer

  /** A party's shares as expanded from its seed. */
  function ShareWords(xof: Xof, n: nat, seed: Seed): (w: seq<U128>)
    ensures |w| == 4 + n
  {
    var b := xof.Expand(seed.bytes, 16 * (4 + n));
    seq<U128>(4 + n, j requires 0 <= j < 4 + n => WordAt(b, j))
  }

  ghost function WordShares(w: seq<U128>): (s: Shares)
    requires |w| >= 4
    ensures |s.r| == |w| - 4
  {
    Shares(w[0], w[1], w[2], w[3], w[4..])
  }

  /** What turns the random shares into shares of the key and of a product. */
  datatype Deltas = Deltas(k: U128, c: U128)

  ghost function PartyShares(xof: Xof, n: nat, seed: Seed, i: nat, d: Deltas): (s: Shares)
    ensures |s.r| == n
  {
    var s := WordShares(ShareWords(xof, n, seed));
    if i == 0 then s.(k := s.k + d.k, c := s.c + d.c) else s
  }

  /** The shares of the first m parties, whose seeds are given by leaf. */
  ghost function Parties(xof: Xof, n: nat, leaf: nat -> Seed, d: Deltas, m: nat): (ps: seq<Shares>)
    ensures |ps| == m && AllFit(ps, n)
    ensures forall i :: 0 <= i < m ==> ps[i] == PartyShares(xof, n, leaf(i), i, d)
  {
    if m == 0 then [] else Parties(xof, n, leaf, d, m - 1) + [PartyShares(xof, n, leaf(m - 1), m - 1, d)]
  }

  /** The sums of the first m parties' shares before the deltas are added. */
  ghost function Sums(xof: Xof, n: nat, leaf: nat -> Seed, m: nat): (t: Shares)
    ensures |t.r| == n
  {
    Total(Parties(xof, n, leaf, Deltas(0, 0), m), n)
  }

  ghost function DeltasOf(t: Shares, key: int): Deltas {
    Deltas((key - t.k) % P, (t.a * t.b - t.c) % P)
  }

  /** The masked outputs (key + index_j) * r_j. */
  ghost function Outputs(t: Shares, key: int, index: seq<U128>): (o: seq<U128>)
    requires |t.r| == |index|
    ensures |o| == |index|
  {
    seq<U128>(|index|, j requires 0 <= j < |index| => (index[j] + key) * t.r[j] % P)
  }

  /** The public values of a round for an honest signer. */
  ghost function RoundQuery(t: Shares, key: int, eps: U128, lambda: seq<U128>, index: seq<U128>): (q: Query)
    requires |t.r| == |lambda| == |index|
    ensures Fits(q, |t.r|) && q.lambda == lambda
  {
    Query(eps, lambda, index, Outputs(t, key, index), (eps * key + t.a) % P, (t.b + Dot(lambda, t.r)) % P)
  }

  // ------------------------------------------------------- honest values fit together

  ghost function Shift(s: Shares, d: Deltas): Shares {
    s.(k := s.k + d.k, c := s.c + d.c)
  }

  lemma {:induction false} ShiftLeft(s: Shares, t: Shares, d: Deltas)
    requires |s.r| == |t.r|
    ensures Plus(Shift(s, d), t) == Shift(Plus(s, t), d) == Plus(s, Shift(t, d))
  {
  }

  lemma {:induction false} PartiesStep(xof: Xof, n: nat, leaf: nat -> Seed, d: Deltas, m: nat)
    requires m > 0
    ensures Total(Parties(xof, n, leaf, d, m), n) ==
            Plus(Total(Parties(xof, n, leaf, d, m - 1), n), PartyShares(xof, n, leaf(m - 1), m - 1, d))
  {
    hide PartyShares, Plus;
    var ps := Parties(xof, n, leaf, d, m);
    assert ps[..m - 1] == Parties(xof, n, leaf, d, m - 1);
  }

  /** Adding the deltas to party 0 adds them to the totals and changes nothing else. */
  lemma {:induction false} DeltasAddUp(xof: Xof, n: nat, leaf: nat -> Seed, d: Deltas, m: nat)
    requires m > 0
    ensures Total(Parties(xof, n, leaf, d, m), n) == Shift(Sums(xof, n, leaf, m), d)
  {
    var zero := Deltas(0, 0);
    PartiesStep(xof, n, leaf, d, m);
    PartiesStep(xof, n, leaf, zero, m);
    if m == 1 {
      assert Parties(xof, n, leaf, d, 0) == Parties(xof, n, leaf, zero, 0) == [];
      hide PartyShares, Plus, Total, Parties, Shift;
      FirstParty(xof, n, leaf(0), d);
      ShiftLeft(Total([], n), PartyShares(xof, n, leaf(0), 0, zero), d);
    } else {
      hide PartyShares, Plus, Total, Parties, Shift;
      DeltasAddUp(xof, n, leaf, d, m - 1);
      OtherParty(xof, n, leaf(m - 1), m - 1, d);
      ShiftLeft(Sums(xof, n, leaf, m - 1), PartyShares(xof, n, leaf(m - 1), m - 1, zero), d);
    }
  }

  lemma {:induction false} FirstParty(xof: Xof, n: nat, seed: Seed, d: Deltas)
    ensures PartyShares(xof, n, seed, 0, d) == Shift(PartyShares(xof, n, seed, 0, Deltas(0, 0)), d)
  {
  }

  lemma {:induction false} OtherParty(xof: Xof, n: nat, seed: Seed, i: nat, d: Deltas)
    requires i > 0
    ensures PartyShares(xof, n, seed, i, d) == PartyShares(xof, n, seed, i, Deltas(0, 0))
  {
  }

  lemma {:induction false} DeltaCong(t: int, x: int)
    ensures Cong(t + (x - t) % P, x)
  {
    CongRefl(x - t);
    CongAdd(t, t, (x - t) % P, x - t);
  }

  /** The shares and public values of an honest round satisfy the protocol's relations. */
  lemma {:induction false} RoundIsHonest(xof: Xof, n: nat, leaf: nat -> Seed, m: nat, key: int, eps: U128,
          lambda: seq<U128>, index: seq<U128>)
    requires m > 0 && |lambda| == |index| == n
    ensures
      var t := Sums(xof, n, leaf, m);
      var q := RoundQuery(t, key, eps, lambda, index);
      Honest(q, Total(Parties(xof, n, leaf, DeltasOf(t, key), m), n), key)
  {
    var t := Sums(xof, n, leaf, m);
    hide Sums, Parties, Total;
    DeltasAddUp(xof, n, leaf, DeltasOf(t, key), m);
    QueryIsHonest(t, key, eps, lambda, index);
  }

  lemma {:induction false} QueryIsHonest(t: Shares, key: int, eps: U128, lambda: seq<U128>, index: seq<U128>)
    requires |t.r| == |lambda| == |index|
    ensures Honest(RoundQuery(t, key, eps, lambda, index), Shift(t, DeltasOf(t, key)), key)
  {
    var q := RoundQuery(t, key, eps, lambda, index);
    hide Dot, Cong;
    DeltaCong(t.k, key);
    DeltaCong(t.c, t.a * t.b);
    CongRefl(eps * key + t.a);
    CongRefl(t.b + Dot(lambda, t.r));
    forall j | 0 <= j < |index|
      ensures Cong(q.out[j], (q.index[j] + key) * t.r[j])
    {
      CongRefl((index[j] + key) * t.r[j]);
    }
  }

  // ---------------------------------------------------------- the two hashed buffers

  ghost function Commitments(xof: Xof, leaf: nat -> Seed, m: nat): seq<Bytes> {
    if m == 0 then [] else Commitments(xof, leaf, m - 1) + [xof.Hash(leaf(m - 1).bytes)]
  }

  /** The commitments as a verifier computes them, given that of party u. */
  ghost function CommitmentsBut(xof: Xof, leaf: nat -> Seed, m: nat, u: nat, given: Bytes): seq<Bytes> {
    if m == 0 then []
    else CommitmentsBut(xof, leaf, m - 1, u, given) + [if m - 1 == u then given else xof.Hash(leaf(m - 1).bytes)]
  }

  ghost function Symbols(r: seq<int>): seq<int> {
    seq(|r|, j requires 0 <= j < |r| => Sym(r[j]))
  }

  /** 1 << k */
  function Mask(k: nat): bv8 {
    if k == 0 then 1 else if k == 1 then 2 else if k == 2 then 4 else if k == 3 then 8
    else if k == 4 then 16 else if k == 5 then 32 else if k == 6 then 64 else 128
  }

  /** getBit: bit n of a public key. */
  function GetBit(pk: seq<bv8>, n: nat): int {
    if n / 8 < |pk| && (pk[n / 8] & Mask(n % 8)) != 0 then 1 else 0
  }

  /** The symbols of the masks as a verifier computes them from the outputs. */
  ghost function SymbolsOfOutputs(pk: seq<bv8>, queried: seq<nat>, out: seq<U128>): seq<int>
    requires |queried| == |out|
  {
    seq(|out|, j requires 0 <= j < |out| => Xor(Sym(out[j]), GetBit(pk, queried[j])))
  }

  function Rows(rows: seq<seq<Bytes>>): Bytes {
    if rows == [] then [] else Concat(rows[0]) + Rows(rows[1..])
  }

  function SymbolBytes(symbols: seq<int>): Bytes {
    if symbols == [] then [] else [symbols[0] % 256] + SymbolBytes(symbols[1..])
  }

  function SymbolRows(rows: seq<seq<int>>): Bytes {
    if rows == [] then [] else SymbolBytes(rows[0]) + SymbolRows(rows[1..])
  }

  function OpeningBytes(os: seq<Opening>): Bytes {
    if os == [] then [] else WordsBytes([os[0].alpha, os[0].beta, os[0].v]) + OpeningBytes(os[1..])
  }

  function OpeningRows(rows: seq<seq<Opening>>): Bytes {
    if rows == [] then [] else OpeningBytes(rows[0]) + OpeningRows(rows[1..])
  }

  // --------------------------------------------------------------- what is signed

  ghost function ProverLeaf(pr: Params, xof: Xof, root: Seed): nat -> Seed {
    (i: nat) => Node(xof, root, Exp2(pr.depth) - 1 + i)
  }

  ghost function RoundSums(pr: Params, xof: Xof, root: Seed): (t: Shares)
    ensures |t.r| == pr.symbols
  {
    Sums(xof, pr.symbols, ProverLeaf(pr, xof, root), Exp2(pr.depth))
  }

  /** All an honest signer's public values of one round. */
  ghost function SignedQuery(pr: Params, xof: Xof, key: int, root: Seed, digest2: Bytes, digest3: Bytes,
          r: nat): (q: Query)
    ensures Fits(q, pr.symbols)
  {
    RoundQuery(RoundSums(pr, xof, root), key, Epsilon(pr, xof, digest3, r), Lambda(pr, xof, digest3, r),
               Indices(xof, Queried(pr, xof, digest2, r)))
  }

  ghost function SignedParties(pr: Params, xof: Xof, key: int, root: Seed): (ps: seq<Shares>)
    ensures |ps| == Exp2(pr.depth) && AllFit(ps, pr.symbols)
  {
    Parties(xof, pr.symbols, ProverLeaf(pr, xof, root), DeltasOf(RoundSums(pr, xof, root), key), Exp2(pr.depth))
  }

  /** The commitments of the first k rounds, row by row. */
  ghost function SignedCommitments(pr: Params, xof: Xof, roots: seq<Seed>, k: nat): (rows: seq<seq<Bytes>>)
    requires k <= |roots|
  {
    if k == 0 then []
    else
      SignedCommitments(pr, xof, roots, k - 1) +
      [Commitments(xof, ProverLeaf(pr, xof, roots[k - 1]), Exp2(pr.depth))]
  }

  /** The symbols of the masks of the first k rounds. */
  ghost function SignedSymbols(pr: Params, xof: Xof, roots: seq<Seed>, k: nat): (rows: seq<seq<int>>)
    requires k <= |roots|
  {
    if k == 0 then [] else SignedSymbols(pr, xof, roots, k - 1) + [Symbols(RoundSums(pr, xof, roots[k - 1]).r)]
  }

  /** What all parties of the first k rounds open. */
  ghost function SignedOpenings(pr: Params, xof: Xof, key: int, roots: seq<Seed>, digest2: Bytes, digest3: Bytes,
          k: nat): (rows: seq<seq<Opening>>)
    requires k <= |roots|
  {
    if k == 0 then []
    else SignedOpenings(pr, xof, key, roots, digest2, digest3, k - 1) +
         [AllOpen(SignedQuery(pr, xof, key, roots[k - 1], digest2, digest3, k - 1),
           SignedParties(pr, xof, key, roots[k - 1]))]
  }

  ghost predicate IsMessage1(pr: Params, xof: Xof, key: int, roots: seq<Seed>, m: Message1) {
    |roots| == |m.deltaK| == |m.deltaC| == pr.rounds &&
    (forall r :: 0 <= r < pr.rounds ==>
      Deltas(m.deltaK[r], m.deltaC[r]) == DeltasOf(RoundSums(pr, xof, roots[r]), key)) &&
    m.digest == xof.Hash(Rows(SignedCommitments(pr, xof, roots, pr.rounds)) +
      SymbolRows(SignedSymbols(pr, xof, roots, pr.rounds)))
  }

  ghost predicate IsMessage2(pr: Params, xof: Xof, key: int, roots: seq<Seed>, digest2: Bytes, m: seq<seq<U128>>) {
    |roots| == |m| == pr.rounds &&
    forall r :: 0 <= r < pr.rounds ==>
      m[r] == Outputs(RoundSums(pr, xof, roots[r]), key, Indices(xof, Queried(pr, xof, digest2, r)))
  }

  ghost predicate IsMessage3(pr: Params, xof: Xof, key: int, roots: seq<Seed>, digest2: Bytes, digest3: Bytes,
          m: Message3)
  {
    |roots| == |m.alpha| == |m.beta| == pr.rounds &&
    (forall r :: 0 <= r < pr.rounds ==>
      m.alpha[r] == SignedQuery(pr, xof, key, roots[r], digest2, digest3, r).alpha &&
      m.beta[r] == SignedQuery(pr, xof, key, roots[r], digest2, digest3, r).beta) &&
    m.digest == xof.Hash(OpeningRows(SignedOpenings(pr, xof, key, roots, digest2, digest3, pr.rounds)))
  }

  ghost predicate IsMessage4(pr: Params, xof: Xof, roots: seq<Seed>, digest4: Bytes, m: Message4) {
    |roots| == |m.seeds| == |m.commitments| == pr.rounds &&
    forall r :: 0 <= r < pr.rounds ==>
      SeedsOf(xof, roots[r], Exp2(pr.depth) - 1 + Unopened(pr, xof, digest4, r), pr.depth, m.seeds[r]) &&
      m.commitments[r] == xof.Hash(ProverLeaf(pr, xof, roots[r])(Unopened(pr, xof, digest4, r)).bytes)
  }

  /** What sign leaves in the signature buffer, for the random root seeds it drew. */
  ghost predicate IsSignature(pr: Params, xof: Xof, sk: Bytes, roots: seq<Seed>, msg: Bytes, s: Signature) {
    var key := Key(xof, sk);
    var d2, d3, d4 := Digest2(xof, msg, s.m1), Digest3(xof, msg, s.m1, s.m2), Digest4(xof, msg, s.m1, s.m2, s.m3);
    IsMessage1(pr, xof, key, roots, s.m1) && IsMessage2(pr, xof, key, roots, d2, s.m2) &&
    IsMessage3(pr, xof, key, roots, d2, d3, s.m3) && IsMessage4(pr, xof, roots, d4, s.m4)
  }

  // ------------------------------------------------------------- what is accepted

  ghost function VerifierLeaf(pr: Params, xof: Xof, seeds: seq<Seed>, u: nat): nat -> Seed {
    (i: nat) => Filled(xof, seeds, Exp2(pr.depth) - 1 + u, Exp2(pr.depth) - 1 + i)
  }

  ghost function CheckedQuery(pr: Params, xof: Xof, s: Signature, digest2: Bytes, digest3: Bytes, r: nat): (q: Query)
    requires SizeOk(pr, s) && r < pr.rounds
    ensures Fits(q, pr.symbols)
  {
    Query(Epsilon(pr, xof, digest3, r), Lambda(pr, xof, digest3, r), Indices(xof, Queried(pr, xof, digest2, r)),
          s.m2[r], s.m3.alpha[r], s.m3.beta[r])
  }

  /** The parties' shares as a verifier rebuilds them; party u's are never used. */
  ghost function CheckedParties(pr: Params, xof: Xof, s: Signature, digest4: Bytes, r: nat): (ps: seq<Shares>)
    requires SizeOk(pr, s) && r < pr.rounds
    ensures |ps| == Exp2(pr.depth) && AllFit(ps, pr.symbols)
  {
    Parties(xof, pr.symbols, VerifierLeaf(pr, xof, s.m4.seeds[r], Unopened(pr, xof, digest4, r)),
            Deltas(s.m1.deltaK[r], s.m1.deltaC[r]), Exp2(pr.depth))
  }

  /** The openings a verifier computes: those of the rebuilt parties, and the missing one. */
  ghost function CheckedOpenings(pr: Params, xof: Xof, s: Signature, digest2: Bytes, digest3: Bytes, digest4: Bytes,
          r: nat): seq<Opening>
    requires SizeOk(pr, s) && r < pr.rounds
  {
    var u := Unopened(pr, xof, digest4, r);
    var q := CheckedQuery(pr, xof, s, digest2, digest3, r);
    var ps := CheckedParties(pr, xof, s, digest4, r);
    AllOpen(q, ps)[u := Recover(q, AllOpen(q, ps), u)]
  }

  ghost function CheckedCommitments(pr: Params, xof: Xof, s: Signature, digest4: Bytes, r: nat): seq<Bytes>
    requires SizeOk(pr, s) && r < pr.rounds
  {
    var u := Unopened(pr, xof, digest4, r);
    CommitmentsBut(xof, VerifierLeaf(pr, xof, s.m4.seeds[r], u), Exp2(pr.depth), u, s.m4.commitments[r])
  }

  ghost function CheckedCommitmentRows(pr: Params, xof: Xof, s: Signature, digest4: Bytes, k: nat): seq<seq<Bytes>>
    requires SizeOk(pr, s) && k <= pr.rounds
  {
    if k == 0 then []
    else CheckedCommitmentRows(pr, xof, s, digest4, k - 1) + [CheckedCommitments(pr, xof, s, digest4, k - 1)]
  }

  ghost function CheckedSymbolRows(pr: Params, xof: Xof, pk: seq<bv8>, s: Signature, digest2: Bytes,
          k: nat): seq<seq<int>>
    requires SizeOk(pr, s) && k <= pr.rounds
  {
    if k == 0 then []
    else CheckedSymbolRows(pr, xof, pk, s, digest2, k - 1) +
         [SymbolsOfOutputs(pk, Queried(pr, xof, digest2, k - 1), s.m2[k - 1])]
  }

  ghost function CheckedOpeningRows(pr: Params, xof: Xof, s: Signature, digest2: Bytes, digest3: Bytes, digest4: Bytes,
          k: nat): seq<seq<Opening>>
    requires SizeOk(pr, s) && k <= pr.rounds
  {
    if k == 0 then []
    else CheckedOpeningRows(pr, xof, s, digest2, digest3, digest4, k - 1) +
         [CheckedOpenings(pr, xof, s, digest2, digest3, digest4, k - 1)]
  }

  /** What verify returns. */
  ghost predicate Accepts(pr: Params, xof: Xof, pk: seq<bv8>, msg: Bytes, s: Signature)
    requires SizeOk(pr, s)
  {
    var d2, d3, d4 := Digest2(xof, msg, s.m1), Digest3(xof, msg, s.m1, s.m2), Digest4(xof, msg, s.m1, s.m2, s.m3);
    s.m1.digest == xof.Hash(Rows(CheckedCommitmentRows(pr, xof, s, d4, pr.rounds)) +
                            SymbolRows(CheckedSymbolRows(pr, xof, pk, s, d2, pr.rounds))) &&
    s.m3.digest == xof.Hash(OpeningRows(CheckedOpeningRows(pr, xof, s, d2, d3, d4, pr.rounds)))
  }
}
