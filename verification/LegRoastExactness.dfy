/** Exactly which honest signatures verify: short of a hash collision, those all of whose rounds
    are well. */
module LegRoastExactness {
  import opened Numbers
  import opened LegRoastField
  import opened LegRoastXof
  import opened LegRoastSeedTree
  import opened LegRoastShares
  import opened LegRoastSymbol
  import opened LegRoastScheme
  import opened LegRoastCompleteness

  // ------------------------------------------- the hashed buffer determines its parts

  lemma {:induction false} ConcatPeel(a: seq<Bytes>, b: seq<Bytes>, x: Bytes, y: Bytes)
    requires |a| == |b| && forall i :: 0 <= i < |a| ==> |a[i]| == |b[i]|
    requires Concat(a) + x == Concat(b) + y
    ensures a == b && x == y
  {
    if a == [] {
      assert [] + x == x && [] + y == y;
    } else {
      Split(a[0], b[0], Concat(a[1..]), Concat(b[1..]), x, y);
      ConcatPeel(a[1..], b[1..], x, y);
      assert a == [a[0]] + a[1..] && b == [b[0]] + b[1..];
    }
  }

  lemma {:induction false} Split<T>(a: seq<T>, b: seq<T>, a': seq<T>, b': seq<T>, x: seq<T>, y: seq<T>)
    requires |a| == |b| && a + a' + x == b + b' + y
    ensures a == b && a' + x == b' + y
  {
    assert a + a' + x == a + (a' + x) && b + b' + y == b + (b' + y);
    assert a == (a + (a' + x))[..|a|] == (b + (b' + y))[..|b|] == b;
    assert a' + x == (a + (a' + x))[|a|..] == (b + (b' + y))[|b|..] == b' + y;
  }

  ghost predicate SameSizes(a: seq<Bytes>, b: seq<Bytes>) {
    |a| == |b| && forall i :: 0 <= i < |a| ==> |a[i]| == |b[i]|
  }

  lemma {:induction false} RowsPeel(a: seq<seq<Bytes>>, b: seq<seq<Bytes>>, x: Bytes, y: Bytes)
    requires |a| == |b| && forall r :: 0 <= r < |a| ==> SameSizes(a[r], b[r])
    requires Rows(a) + x == Rows(b) + y
    ensures a == b && x == y
  {
    if a == [] {
      assert [] + x == x && [] + y == y;
    } else {
      hide Concat;
      var p, q := Concat(a[0]), Concat(b[0]);
      assert p + Rows(a[1..]) + x == p + (Rows(a[1..]) + x) && q + Rows(b[1..]) + y == q + (Rows(b[1..]) + y);
      ConcatPeel(a[0], b[0], Rows(a[1..]) + x, Rows(b[1..]) + y);
      RowsPeel(a[1..], b[1..], x, y);
      assert a == [a[0]] + a[1..] && b == [b[0]] + b[1..];
    }
  }

  ghost predicate Bits(s: seq<int>) {
    forall j :: 0 <= j < |s| ==> s[j] == 0 || s[j] == 1
  }

  lemma {:induction false} SymbolPeel(a: seq<int>, b: seq<int>, x: Bytes, y: Bytes)
    requires |a| == |b| && Bits(a) && Bits(b)
    requires SymbolBytes(a) + x == SymbolBytes(b) + y
    ensures a == b && x == y
  {
    if a == [] {
      assert [] + x == x && [] + y == y;
    } else {
      Split([a[0] % 256], [b[0] % 256], SymbolBytes(a[1..]), SymbolBytes(b[1..]), x, y);
      SymbolPeel(a[1..], b[1..], x, y);
      assert a == [a[0]] + a[1..] && b == [b[0]] + b[1..];
    }
  }

  lemma {:induction false} SymbolRowsPeel(a: seq<seq<int>>, b: seq<seq<int>>)
    requires |a| == |b| && forall r :: 0 <= r < |a| ==> |a[r]| == |b[r]| && Bits(a[r]) && Bits(b[r])
    requires SymbolRows(a) == SymbolRows(b)
    ensures a == b
  {
    if a == [] {
    } else {
      hide SymbolBytes;
      SymbolPeel(a[0], b[0], SymbolRows(a[1..]), SymbolRows(b[1..]));
      SymbolRowsPeel(a[1..], b[1..]);
      assert a == [a[0]] + a[1..] && b == [b[0]] + b[1..];
    }
  }

  // ----------------------------------------------------------------- the rows

  lemma {:induction false} CommitmentAt(xof: Xof, leaf: nat -> Seed, m: nat, i: nat)
    requires i < m
    ensures |Commitments(xof, leaf, m)| == m && Commitments(xof, leaf, m)[i] == xof.Hash(leaf(i).bytes)
  {
    if m > 1 {
      CommitmentAt(xof, leaf, m - 1, if i < m - 1 then i else 0);
    }
  }

  lemma {:induction false} CommitmentButAt(xof: Xof, leaf: nat -> Seed, m: nat, u: nat, given: Bytes, i: nat)
    requires i < m
    ensures |CommitmentsBut(xof, leaf, m, u, given)| == m
    ensures CommitmentsBut(xof, leaf, m, u, given)[i] == if i == u then given else xof.Hash(leaf(i).bytes)
  {
    if m > 1 {
      CommitmentButAt(xof, leaf, m - 1, u, given, if i < m - 1 then i else 0);
    }
  }

  lemma {:induction false} SignedRowAt(pr: Params, xof: Xof, roots: seq<Seed>, k: nat, r: nat)
    requires r < k <= |roots|
    ensures |SignedCommitments(pr, xof, roots, k)| == |SignedSymbols(pr, xof, roots, k)| == k
    ensures SignedCommitments(pr, xof, roots, k)[r] == Commitments(xof, ProverLeaf(pr, xof, roots[r]), Exp2(pr.depth))
    ensures SignedSymbols(pr, xof, roots, k)[r] == Symbols(RoundSums(pr, xof, roots[r]).r)
  {
    hide Commitments, Symbols, RoundSums, Exp2;
    if k > 1 {
      SignedRowAt(pr, xof, roots, k - 1, if r < k - 1 then r else 0);
    }
  }

  lemma {:induction false} CheckedRowAt(pr: Params, xof: Xof, pk: seq<bv8>, s: Signature, d2: Bytes, d4: Bytes, k: nat,
          r: nat)
    requires SizeOk(pr, s) && r < k <= pr.rounds
    ensures |CheckedCommitmentRows(pr, xof, s, d4, k)| == |CheckedSymbolRows(pr, xof, pk, s, d2, k)| == k
    ensures CheckedCommitmentRows(pr, xof, s, d4, k)[r] == CheckedCommitments(pr, xof, s, d4, r)
    ensures CheckedSymbolRows(pr, xof, pk, s, d2, k)[r] == SymbolsOfOutputs(pk, Queried(pr, xof, d2, r), s.m2[r])
  {
    hide CheckedCommitments, SymbolsOfOutputs, Queried;
    if k > 1 {
      CheckedRowAt(pr, xof, pk, s, d2, d4, k - 1, if r < k - 1 then r else 0);
    }
  }

  lemma {:induction false} RowSizes(pr: Params, xof: Xof, roots: seq<Seed>, s: Signature, d4: Bytes, r: nat)
    requires SizeOk(pr, s) && r < pr.rounds && IsMessage4(pr, xof, roots, d4, s.m4)
    ensures SameSizes(Commitments(xof, ProverLeaf(pr, xof, roots[r]), Exp2(pr.depth)),
      CheckedCommitments(pr, xof, s, d4, r))
  {
    var m, u := Exp2(pr.depth), Unopened(pr, xof, d4, r);
    hide Exp2, Unopened, SeedsOf, ProverLeaf, VerifierLeaf, SizeOk, Commitments, CommitmentsBut;
    var sent, found := Commitments(xof, ProverLeaf(pr, xof, roots[r]), m), CheckedCommitments(pr, xof, s, d4, r);
    forall i | 0 <= i < m
      ensures |sent| == |found| == m && |sent[i]| == |found[i]|
    {
      CommitmentAt(xof, ProverLeaf(pr, xof, roots[r]), m, i);
      CommitmentButAt(xof, VerifierLeaf(pr, xof, s.m4.seeds[r], u), m, u, s.m4.commitments[r], i);
    }
    CommitmentAt(xof, ProverLeaf(pr, xof, roots[r]), m, 0);
    CommitmentButAt(xof, VerifierLeaf(pr, xof, s.m4.seeds[r], u), m, u, s.m4.commitments[r], 0);
  }

  lemma {:induction false} SymbolBits(pk: seq<bv8>, queried: seq<nat>, out: seq<U128>, t: seq<int>)
    requires |queried| == |out| == |t|
    ensures |Symbols(t)| == |SymbolsOfOutputs(pk, queried, out)| == |t|
    ensures Bits(Symbols(t)) && Bits(SymbolsOfOutputs(pk, queried, out))
  {
    hide Sym, GetBit;
    forall j | 0 <= j < |t|
      ensures Sym(t[j]) == 0 || Sym(t[j]) == 1
    {
      SymIsBit(t[j]);
    }
  }

  // ----------------------------------------------------------------- the theorem

  /** What the signer hashes first, commitments and symbols. */
  ghost function SignedBuffer(pr: Params, xof: Xof, roots: seq<Seed>): Bytes
    requires |roots| == pr.rounds
  {
    Rows(SignedCommitments(pr, xof, roots, pr.rounds)) + SymbolRows(SignedSymbols(pr, xof, roots, pr.rounds))
  }

  /** What the verifier hashes first. */
  ghost function CheckedBuffer(pr: Params, xof: Xof, pk: seq<bv8>, msg: Bytes, s: Signature): Bytes
    requires SizeOk(pr, s)
  {
    Rows(CheckedCommitmentRows(pr, xof, s, Digest4(xof, msg, s.m1, s.m2, s.m3), pr.rounds)) +
    SymbolRows(CheckedSymbolRows(pr, xof, pk, s, Digest2(xof, msg, s.m1), pr.rounds))
  }

  ghost predicate Separates(xof: Xof, x: Bytes, y: Bytes) {
    xof.Hash(x) == xof.Hash(y) ==> x == y
  }

  /** The hash tells the two buffers apart, and the seeds sent from the seeds rebuilt. */
  ghost predicate NoCollision(pr: Params, xof: Xof, pk: seq<bv8>, roots: seq<Seed>, msg: Bytes, s: Signature)
    requires |roots| == pr.rounds && SizeOk(pr, s)
  {
    Separates(xof, SignedBuffer(pr, xof, roots), CheckedBuffer(pr, xof, pk, msg, s)) &&
    forall r, i :: 0 <= r < pr.rounds && 0 <= i < Exp2(pr.depth) ==>
      Separates(xof, ProverLeaf(pr, xof, roots[r])(i).bytes,
            VerifierLeaf(pr, xof, s.m4.seeds[r], Unopened(pr, xof, Digest4(xof, msg, s.m1, s.m2, s.m3), r))(i).bytes)
  }

  /** Equal buffers are equal row by row. */
  lemma {:induction false} BufferRows(pr: Params, xof: Xof, sk: Bytes, pk: seq<bv8>, roots: seq<Seed>, msg: Bytes,
          s: Signature, r: nat)
    requires IsSignature(pr, xof, sk, roots, msg, s) && SizeOk(pr, s) && r < pr.rounds == |roots|
    requires SignedBuffer(pr, xof, roots) == CheckedBuffer(pr, xof, pk, msg, s)
    ensures
      var d2, d4 := Digest2(xof, msg, s.m1), Digest4(xof, msg, s.m1, s.m2, s.m3);
      && CheckedCommitments(pr, xof, s, d4, r) == Commitments(xof, ProverLeaf(pr, xof, roots[r]), Exp2(pr.depth))
      && SymbolsOfOutputs(pk, Queried(pr, xof, d2, r), s.m2[r]) == Symbols(RoundSums(pr, xof, roots[r]).r)
  {
    var d2, d4 := Digest2(xof, msg, s.m1), Digest4(xof, msg, s.m1, s.m2, s.m3);
    var k := pr.rounds;
    var a, b := SignedCommitments(pr, xof, roots, k), CheckedCommitmentRows(pr, xof, s, d4, k);
    var x, y := SignedSymbols(pr, xof, roots, k), CheckedSymbolRows(pr, xof, pk, s, d2, k);
    hide IsMessage1, IsMessage2, IsMessage3, IsMessage4, Digest2, Digest3, Digest4, Key, Rows, SymbolRows,
         Commitments, Symbols, CheckedCommitments, SymbolsOfOutputs, RoundSums, Exp2, ProverLeaf, Queried,
         SignedCommitments, SignedSymbols, CheckedCommitmentRows, CheckedSymbolRows, SameSizes, Bits;
    forall i | 0 <= i < k
      ensures |a| == |b| == |x| == |y| == k && SameSizes(a[i], b[i])
      ensures |x[i]| == |y[i]| && Bits(x[i]) && Bits(y[i])
    {
      SignedRowAt(pr, xof, roots, k, i);
      CheckedRowAt(pr, xof, pk, s, d2, d4, k, i);
      RowSizes(pr, xof, roots, s, d4, i);
      SymbolBits(pk, Queried(pr, xof, d2, i), s.m2[i], RoundSums(pr, xof, roots[i]).r);
    }
    RowsPeel(a, b, SymbolRows(x), SymbolRows(y));
    SymbolRowsPeel(x, y);
    SignedRowAt(pr, xof, roots, k, r);
    CheckedRowAt(pr, xof, pk, s, d2, d4, k, r);
  }

  /** A round whose rows agree is well. */
  lemma {:induction false} RoundIsWell(pr: Params, xof: Xof, sk: Bytes, pk: seq<bv8>, roots: seq<Seed>, msg: Bytes,
          s: Signature, r: nat)
    requires IsSignature(pr, xof, sk, roots, msg, s) && SizeOk(pr, s) && r < pr.rounds == |roots|
    requires IsPublicKey(xof, Key(xof, sk), pk) && NoCollision(pr, xof, pk, roots, msg, s)
    requires
      var d2, d4 := Digest2(xof, msg, s.m1), Digest4(xof, msg, s.m1, s.m2, s.m3);
      && CheckedCommitments(pr, xof, s, d4, r) == Commitments(xof, ProverLeaf(pr, xof, roots[r]), Exp2(pr.depth))
      && SymbolsOfOutputs(pk, Queried(pr, xof, d2, r), s.m2[r]) == Symbols(RoundSums(pr, xof, roots[r]).r)
    ensures RoundOk(pr, xof, Key(xof, sk), roots[r], Digest2(xof, msg, s.m1), Digest4(xof, msg, s.m1, s.m2, s.m3), r)
  {
    var key := Key(xof, sk);
    var d2, d4 := Digest2(xof, msg, s.m1), Digest4(xof, msg, s.m1, s.m2, s.m3);
    var u := Unopened(pr, xof, d4, r);
    hide IsPublicKey, Key, Digest2, Digest3, Digest4, IsMessage1, IsMessage3, SignedBuffer, CheckedBuffer,
         SymbolsOfOutputs, Commitments, CommitmentsBut, Symbols, RoundSums, Queried, Exp2, ProverLeaf, VerifierLeaf,
         SymbolOk, Outputs, Indices, IndexOf, Unopened, SeedsOf, LeafKept, SizeOk;
    SymbolsAgree(xof, key, pk, RoundSums(pr, xof, roots[r]), Queried(pr, xof, d2, r));
    forall i | 0 <= i < Exp2(pr.depth) && i != u
      ensures LeafKept(pr, xof, roots[r], u, i)
    {
      CommitmentAt(xof, ProverLeaf(pr, xof, roots[r]), Exp2(pr.depth), i);
      CommitmentButAt(xof, VerifierLeaf(pr, xof, s.m4.seeds[r], u), Exp2(pr.depth), u, s.m4.commitments[r], i);
      LeafRebuilt(pr, xof, roots[r], u, s.m4.seeds[r], i);
    }
  }

  /** Completeness, exactly: short of a hash collision, an honest signature verifies if and only
      if in every round no zero seed hides an opened party's seed and no symbol degenerates. */
  lemma {:induction false} AcceptedExactly(pr: Params, xof: Xof, sk: Bytes, pk: seq<bv8>, roots: seq<Seed>, msg: Bytes,
          s: Signature)
    requires IsSignature(pr, xof, sk, roots, msg, s) && SizeOk(pr, s)
    requires IsPublicKey(xof, Key(xof, sk), pk)
    requires |roots| == pr.rounds && NoCollision(pr, xof, pk, roots, msg, s)
    ensures Accepts(pr, xof, pk, msg, s) <==>
      forall r :: 0 <= r < pr.rounds ==>
        RoundOk(pr, xof, Key(xof, sk), roots[r], Digest2(xof, msg, s.m1), Digest4(xof, msg, s.m1, s.m2, s.m3), r)
  {
    hide IsSignature, IsPublicKey, RoundOk, Key, Digest2, Digest3, Digest4, SizeOk, Accepts, NoCollision;
    if Accepts(pr, xof, pk, msg, s) {
      SameBuffer(pr, xof, sk, pk, roots, msg, s);
      forall r | 0 <= r < pr.rounds
        ensures RoundOk(pr, xof, Key(xof, sk), roots[r], Digest2(xof, msg, s.m1), Digest4(xof, msg, s.m1, s.m2, s.m3),
          r)
      {
        BufferRows(pr, xof, sk, pk, roots, msg, s, r);
        RoundIsWell(pr, xof, sk, pk, roots, msg, s, r);
      }
    }
    if forall r :: 0 <= r < pr.rounds ==>
         RoundOk(pr, xof, Key(xof, sk), roots[r], Digest2(xof, msg, s.m1), Digest4(xof, msg, s.m1, s.m2, s.m3), r) {
      Completeness(pr, xof, sk, pk, roots, msg, s);
    }
  }

  lemma {:induction false} SameBuffer(pr: Params, xof: Xof, sk: Bytes, pk: seq<bv8>, roots: seq<Seed>, msg: Bytes,
          s: Signature)
    requires IsSignature(pr, xof, sk, roots, msg, s) && SizeOk(pr, s) && |roots| == pr.rounds
    requires NoCollision(pr, xof, pk, roots, msg, s) && Accepts(pr, xof, pk, msg, s)
    ensures SignedBuffer(pr, xof, roots) == CheckedBuffer(pr, xof, pk, msg, s)
  {
    hide SizeOk, IsMessage2, IsMessage3, IsMessage4, Digest2, Digest3, Digest4, Key, Rows, SymbolRows,
         SignedCommitments, SignedSymbols, CheckedCommitmentRows, CheckedSymbolRows, RoundSums, DeltasOf, ProverLeaf,
         VerifierLeaf, Exp2, Unopened, OpeningRows, CheckedOpeningRows;
  }
}
