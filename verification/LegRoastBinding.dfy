/** What the challenges of a LegRoast signature depend on: the message and every earlier message of
    the signature, whole; and what they can be: anything. */
module LegRoastBinding {
  import opened Numbers
  import opened LegRoastField
  import opened LegRoastXof
  import opened LegRoastSeedTree
  import opened LegRoastScheme
  import opened LegRoastExactness

  // ------------------------------------------------------- words and their bytes

  lemma {:induction false} LittleOnce(x: nat, y: nat, n: nat)
    requires LittleBytes(x, n) == LittleBytes(y, n) && x < Exp2(8 * n) && y < Exp2(8 * n)
    ensures x == y
  {
    if n == 0 {
      assert Exp2(0) == 1;
    } else {
      Byte(n);
      assert LittleBytes(x, n)[0] == x % 256 && LittleBytes(y, n)[0] == y % 256;
      assert LittleBytes(x, n)[1..] == LittleBytes(x / 256, n - 1);
      assert LittleBytes(y, n)[1..] == LittleBytes(y / 256, n - 1);
      LittleOnce(x / 256, y / 256, n - 1);
    }
  }

  lemma {:induction false} Byte(n: nat)
    requires n > 0
    ensures Exp2(8 * n) == 256 * Exp2(8 * (n - 1))
  {
    var k := 8 * (n - 1);
    assert Exp2(k + 1) == 2 * Exp2(k) && Exp2(k + 2) == 2 * Exp2(k + 1) && Exp2(k + 3) == 2 * Exp2(k + 2);
    assert Exp2(k + 4) == 2 * Exp2(k + 3) && Exp2(k + 5) == 2 * Exp2(k + 4) && Exp2(k + 6) == 2 * Exp2(k + 5);
    assert Exp2(k + 7) == 2 * Exp2(k + 6) && Exp2(k + 8) == 2 * Exp2(k + 7);
  }

  /** Bytes are the number they spell. */
  lemma {:induction false} LittleBack(b: Bytes)
    ensures Little(b) < Exp2(8 * |b|) && LittleBytes(Little(b), |b|) == b
  {
    if b == [] {
      assert Exp2(0) == 1;
    } else {
      hide Exp2;
      Byte(|b|);
      LittleBack(b[1..]);
      LowByte(b[0], Little(b[1..]));
      assert b == [b[0]] + b[1..];
    }
  }

  lemma {:induction false} LowByte(x: Byte, y: nat)
    ensures (x + 256 * y) % 256 == x && (x + 256 * y) / 256 == y
  {
  }

  lemma {:induction false} WordWidth(w: U128)
    ensures Exp2(8 * 16) == TWO128 && w < Exp2(8 * 16)
  {
    hide Exp2;
    ExpZero();
    Byte(16); Byte(15); Byte(14); Byte(13); Byte(12); Byte(11); Byte(10); Byte(9);
    Byte(8); Byte(7); Byte(6); Byte(5); Byte(4); Byte(3); Byte(2); Byte(1);
  }

  lemma {:induction false} ExpZero()
    ensures Exp2(0) == 1
  {
  }

  lemma {:induction false} WordsHead(ws: seq<U128>, x: Bytes)
    requires ws != []
    ensures WordsBytes(ws) + x == LittleBytes(ws[0], 16) + (WordsBytes(ws[1..]) + x)
  {
    hide LittleBytes;
  }

  lemma {:induction false} NoWords(x: Bytes)
    ensures WordsBytes([]) + x == x
  {
  }

  lemma {:induction false} SameWord(x: U128, y: U128)
    requires LittleBytes(x, 16) == LittleBytes(y, 16)
    ensures x == y
  {
    hide LittleBytes, Exp2;
    WordWidth(x);
    WordWidth(y);
    LittleOnce(x, y, 16);
  }

  lemma {:induction false} WordsPeel(a: seq<U128>, b: seq<U128>, x: Bytes, y: Bytes)
    requires |a| == |b| && WordsBytes(a) + x == WordsBytes(b) + y
    ensures a == b && x == y
  {
    hide *;
    if a == [] {
      NoWords(x);
      NoWords(y);
    } else {
      WordsHead(a, x);
      WordsHead(b, y);
      PairPeel(LittleBytes(a[0], 16), WordsBytes(a[1..]) + x, LittleBytes(b[0], 16), WordsBytes(b[1..]) + y);
      SameWord(a[0], b[0]);
      WordsPeel(a[1..], b[1..], x, y);
      assert a == [a[0]] + a[1..] && b == [b[0]] + b[1..];
    }
  }

  lemma {:induction false} WordRowsPeel(a: seq<seq<U128>>, b: seq<seq<U128>>)
    requires |a| == |b| && (forall r :: 0 <= r < |a| ==> |a[r]| == |b[r]|) && WordRowsBytes(a) == WordRowsBytes(b)
    ensures a == b
  {
    if a != [] {
      hide WordsBytes;
      WordsPeel(a[0], b[0], WordRowsBytes(a[1..]), WordRowsBytes(b[1..]));
      WordRowsPeel(a[1..], b[1..]);
      assert a == [a[0]] + a[1..] && b == [b[0]] + b[1..];
    }
  }

  /** A digest and two rows of words, as both messages are written. */
  lemma {:induction false} MessagePeel(d: Bytes, a: seq<U128>, b: seq<U128>, d': Bytes, a': seq<U128>, b': seq<U128>)
    requires |d| == |d'| && |a| == |a'| && |b| == |b'|
    requires d + WordsBytes(a) + WordsBytes(b) == d' + WordsBytes(a') + WordsBytes(b')
    ensures d == d' && a == a' && b == b'
  {
    hide WordsBytes;
    Split(d, d', WordsBytes(a), WordsBytes(a'), WordsBytes(b), WordsBytes(b'));
    WordsPeel(a, a', WordsBytes(b), WordsBytes(b'));
    assert WordsBytes(b) + [] == WordsBytes(b) && WordsBytes(b') + [] == WordsBytes(b');
    WordsPeel(b, b', [], []);
  }

  // ------------------------------------------------------------ the challenges bind

  /** The hash tells apart what the first challenge is made of. */
  ghost predicate Apart2(xof: Xof, msg: Bytes, m1: Message1, msg': Bytes, m1': Message1) {
    Separates(xof, msg, msg') && Separates(xof, Message1Bytes(m1), Message1Bytes(m1')) &&
    Separates(xof, xof.Hash(msg) + xof.Hash(Message1Bytes(m1)), xof.Hash(msg') + xof.Hash(Message1Bytes(m1')))
  }

  ghost predicate Apart3(xof: Xof, msg: Bytes, s: Signature, msg': Bytes, s': Signature) {
    Apart2(xof, msg, s.m1, msg', s'.m1) && Separates(xof, WordRowsBytes(s.m2), WordRowsBytes(s'.m2)) &&
    Separates(xof, Digest2(xof, msg, s.m1) + xof.Hash(WordRowsBytes(s.m2)),
          Digest2(xof, msg', s'.m1) + xof.Hash(WordRowsBytes(s'.m2)))
  }

  ghost predicate Apart4(xof: Xof, msg: Bytes, s: Signature, msg': Bytes, s': Signature) {
    Apart3(xof, msg, s, msg', s') && Separates(xof, Message3Bytes(s.m3), Message3Bytes(s'.m3)) &&
    Separates(xof, Digest3(xof, msg, s.m1, s.m2) + xof.Hash(Message3Bytes(s.m3)),
          Digest3(xof, msg', s'.m1, s'.m2) + xof.Hash(Message3Bytes(s'.m3)))
  }

  lemma {:induction false} PairPeel(a: Bytes, b: Bytes, a': Bytes, b': Bytes)
    requires |a| == |a'| && a + b == a' + b'
    ensures a == a' && b == b'
  {
    assert a == (a + b)[..|a|] && a' == (a' + b')[..|a'|];
    assert b == (a + b)[|a|..] && b' == (a' + b')[|a'|..];
  }

  /** The first challenge is that of one message and one commitment. */
  lemma {:induction false} Digest2Binds(xof: Xof, msg: Bytes, m1: Message1, msg': Bytes, m1': Message1)
    requires Apart2(xof, msg, m1, msg', m1') && Digest2(xof, msg, m1) == Digest2(xof, msg', m1')
    ensures msg == msg' && Message1Bytes(m1) == Message1Bytes(m1')
  {
    hide Message1Bytes;
    PairPeel(xof.Hash(msg), xof.Hash(Message1Bytes(m1)), xof.Hash(msg'), xof.Hash(Message1Bytes(m1')));
  }

  /** The second challenge is that of one first challenge and one row of outputs. */
  lemma {:induction false} Digest3Binds(xof: Xof, msg: Bytes, s: Signature, msg': Bytes, s': Signature)
    requires Apart3(xof, msg, s, msg', s')
    requires Digest3(xof, msg, s.m1, s.m2) == Digest3(xof, msg', s'.m1, s'.m2)
    ensures msg == msg' && Message1Bytes(s.m1) == Message1Bytes(s'.m1) && WordRowsBytes(s.m2) == WordRowsBytes(s'.m2)
  {
    hide Message1Bytes, WordRowsBytes;
    PairPeel(Digest2(xof, msg, s.m1), xof.Hash(WordRowsBytes(s.m2)),
             Digest2(xof, msg', s'.m1), xof.Hash(WordRowsBytes(s'.m2)));
    Digest2Binds(xof, msg, s.m1, msg', s'.m1);
  }

  lemma {:induction false} Digest4Binds(xof: Xof, msg: Bytes, s: Signature, msg': Bytes, s': Signature)
    requires Apart4(xof, msg, s, msg', s')
    requires Digest4(xof, msg, s.m1, s.m2, s.m3) == Digest4(xof, msg', s'.m1, s'.m2, s'.m3)
    ensures msg == msg' && Message1Bytes(s.m1) == Message1Bytes(s'.m1) && WordRowsBytes(s.m2) == WordRowsBytes(s'.m2)
    ensures Message3Bytes(s.m3) == Message3Bytes(s'.m3)
  {
    hide Message1Bytes, WordRowsBytes, Message3Bytes, Digest3, Apart3;
    PairPeel(Digest3(xof, msg, s.m1, s.m2), xof.Hash(Message3Bytes(s.m3)),
             Digest3(xof, msg', s'.m1, s'.m2), xof.Hash(Message3Bytes(s'.m3)));
    Digest3Binds(xof, msg, s, msg', s');
  }

  /** The digests in a signature have their size, too. */
  ghost predicate Measured(pr: Params, s: Signature) {
    SizeOk(pr, s) && |s.m1.digest| == |s.m3.digest| == HASH_BYTES
  }

  /** Short of a hash collision two signatures have the same last challenge exactly if they are
      for the same message and agree in the first three messages. */
  lemma {:induction false} ChallengeBinds(pr: Params, xof: Xof, msg: Bytes, s: Signature, msg': Bytes, s': Signature)
    requires Measured(pr, s) && Measured(pr, s') && Apart4(xof, msg, s, msg', s')
    ensures Digest4(xof, msg, s.m1, s.m2, s.m3) == Digest4(xof, msg', s'.m1, s'.m2, s'.m3) <==>
            msg == msg' && s.m1 == s'.m1 && s.m2 == s'.m2 && s.m3 == s'.m3
  {
    if Digest4(xof, msg, s.m1, s.m2, s.m3) == Digest4(xof, msg', s'.m1, s'.m2, s'.m3) {
      hide WordsBytes, WordRowsBytes, Digest4, Apart4;
      Digest4Binds(xof, msg, s, msg', s');
      MessagePeel(s.m1.digest, s.m1.deltaK, s.m1.deltaC, s'.m1.digest, s'.m1.deltaK, s'.m1.deltaC);
      WordRowsPeel(s.m2, s'.m2);
      MessagePeel(s.m3.digest, s.m3.alpha, s.m3.beta, s'.m3.digest, s'.m3.alpha, s'.m3.beta);
    }
  }

  /** For another message every challenge of a signature is another one. */
  lemma {:induction false} OtherMessage(xof: Xof, msg: Bytes, msg': Bytes, s: Signature)
    requires msg != msg' && Apart4(xof, msg, s, msg', s)
    ensures Digest2(xof, msg, s.m1) != Digest2(xof, msg', s.m1)
    ensures Digest3(xof, msg, s.m1, s.m2) != Digest3(xof, msg', s.m1, s.m2)
    ensures Digest4(xof, msg, s.m1, s.m2, s.m3) != Digest4(xof, msg', s.m1, s.m2, s.m3)
  {
    hide Digest2, Digest3, Digest4, Apart2, Message3Bytes, WordRowsBytes;
    if Digest2(xof, msg, s.m1) == Digest2(xof, msg', s.m1) {
      Digest2Binds(xof, msg, s.m1, msg', s.m1);
    }
    if Digest3(xof, msg, s.m1, s.m2) == Digest3(xof, msg', s.m1, s.m2) {
      Digest3Binds(xof, msg, s, msg', s);
    }
    if Digest4(xof, msg, s.m1, s.m2, s.m3) == Digest4(xof, msg', s.m1, s.m2, s.m3) {
      Digest4Binds(xof, msg, s, msg', s);
    }
  }

  // ----------------------------------------------- what the challenges are cut from

  lemma {:induction false} SliceInside(b: Bytes, i: nat, n: nat)
    requires i + n <= |b|
    ensures Slice(b, i, n) == b[i..i + n]
  {
  }

  lemma {:induction false} WordInside(b: Bytes, k: nat)
    requires 16 * k + 16 <= |b|
    ensures LittleBytes(WordAt(b, k), 16) == b[16 * k..16 * k + 16]
  {
    hide Little, LittleBytes, Exp2;
    SliceInside(b, 16 * k, 16);
    LittleBack(b[16 * k..16 * k + 16]);
    WordWidth(0);
  }

  /** n words from word i on. */
  function WordsFrom(b: Bytes, i: nat, n: nat): (w: seq<U128>)
    ensures |w| == n && forall j :: 0 <= j < n ==> w[j] == WordAt(b, i + j)
    decreases n
  {
    if n == 0 then [] else [WordAt(b, i)] + WordsFrom(b, i + 1, n - 1)
  }

  lemma {:induction false} WordsInside(b: Bytes, i: nat, n: nat)
    requires 16 * (i + n) <= |b|
    ensures WordsBytes(WordsFrom(b, i, n)) == b[16 * i..16 * (i + n)]
    decreases n
  {
    hide WordAt, LittleBytes;
    if n > 0 {
      WordInside(b, i);
      WordsInside(b, i + 1, n - 1);
      assert WordsFrom(b, i, n)[1..] == WordsFrom(b, i + 1, n - 1);
      assert b[16 * i..16 * (i + n)] == b[16 * i..16 * i + 16] + b[16 * (i + 1)..16 * (i + n)];
    }
  }

  /** The epsilons and lambdas of the rounds from r on. */
  function Epsilons(pr: Params, xof: Xof, digest3: Bytes, r: nat): (w: seq<U128>)
    decreases pr.rounds - r
  {
    if r >= pr.rounds then [] else [Epsilon(pr, xof, digest3, r)] + Epsilons(pr, xof, digest3, r + 1)
  }

  function Lambdas(pr: Params, xof: Xof, digest3: Bytes, r: nat): (rows: seq<seq<U128>>)
    decreases pr.rounds - r
  {
    if r >= pr.rounds then [] else [Lambda(pr, xof, digest3, r)] + Lambdas(pr, xof, digest3, r + 1)
  }

  lemma {:induction false} EpsilonsInside(pr: Params, xof: Xof, digest3: Bytes, r: nat)
    requires r <= pr.rounds
    ensures var b := xof.Expand(digest3, 16 * (pr.rounds + pr.rounds * pr.symbols));
            16 * pr.rounds <= |b| && WordsBytes(Epsilons(pr, xof, digest3, r)) == b[16 * r..16 * pr.rounds]
    decreases pr.rounds - r
  {
    hide WordAt, LittleBytes;
    Positive(pr.rounds, pr.symbols);
    if r < pr.rounds {
      var b := xof.Expand(digest3, 16 * (pr.rounds + pr.rounds * pr.symbols));
      WordInside(b, r);
      EpsilonsInside(pr, xof, digest3, r + 1);
      assert Epsilons(pr, xof, digest3, r)[1..] == Epsilons(pr, xof, digest3, r + 1);
      assert b[16 * r..16 * pr.rounds] == b[16 * r..16 * r + 16] + b[16 * (r + 1)..16 * pr.rounds];
    }
  }

  lemma {:induction false} Positive(m: nat, n: nat)
    ensures m * n >= 0
  {
  }

  lemma {:induction false} RowEnd(r: nat, m: nat, n: nat)
    requires r < m
    ensures (r + 1) * n == r * n + n && 0 <= r * n && r * n + n <= m * n
  {
    hide *;
    Spread(r, 1, n);
    Spread(r + 1, m - r - 1, n);
    Positive(r, n);
    Positive(m - r - 1, n);
  }

  lemma {:induction false} Spread(a: nat, b: nat, n: nat)
    ensures (a + b) * n == a * n + b * n
  {
  }

  /** The word at which the lambdas of round r start. */
  function LambdaStart(pr: Params, r: nat): nat {
    Positive(r, pr.symbols);
    pr.rounds + r * pr.symbols
  }

  lemma {:induction false} NextStart(pr: Params, r: nat)
    requires r < pr.rounds
    ensures LambdaStart(pr, r + 1) == LambdaStart(pr, r) + pr.symbols <= LambdaStart(pr, pr.rounds)
  {
    RowEnd(r, pr.rounds, pr.symbols);
  }

  lemma {:induction false} LambdaCut(pr: Params, xof: Xof, digest3: Bytes, r: nat)
    ensures Lambda(pr, xof, digest3, r) ==
            WordsFrom(xof.Expand(digest3, 16 * LambdaStart(pr, pr.rounds)), LambdaStart(pr, r), pr.symbols)
  {
    hide WordAt;
  }

  lemma {:induction false} LambdasInside(pr: Params, xof: Xof, digest3: Bytes, r: nat)
    requires r <= pr.rounds
    ensures var b := xof.Expand(digest3, 16 * LambdaStart(pr, pr.rounds));
            16 * LambdaStart(pr, r) <= |b| &&
            WordRowsBytes(Lambdas(pr, xof, digest3, r)) == b[16 * LambdaStart(pr, r)..]
    decreases pr.rounds - r
  {
    hide WordsBytes, WordsFrom, LambdaStart, Lambda;
    if r < pr.rounds {
      var b := xof.Expand(digest3, 16 * LambdaStart(pr, pr.rounds));
      var i, n := LambdaStart(pr, r), pr.symbols;
      NextStart(pr, r);
      WordsInside(b, i, n);
      LambdaCut(pr, xof, digest3, r);
      LambdasInside(pr, xof, digest3, r + 1);
      assert Lambdas(pr, xof, digest3, r)[1..] == Lambdas(pr, xof, digest3, r + 1);
      assert b[16 * i..] == b[16 * i..16 * (i + n)] + b[16 * (i + n)..];
    }
  }

  /** The second challenge is the whole expansion of its digest: no byte is left out or used twice. */
  lemma {:induction false} WholeChallenge(pr: Params, xof: Xof, digest3: Bytes)
    ensures WordsBytes(Epsilons(pr, xof, digest3, 0)) + WordRowsBytes(Lambdas(pr, xof, digest3, 0)) ==
            xof.Expand(digest3, 16 * (pr.rounds + pr.rounds * pr.symbols))
  {
    hide WordsBytes, WordRowsBytes, Epsilons, Lambdas;
    EpsilonsInside(pr, xof, digest3, 0);
    LambdasInside(pr, xof, digest3, 0);
    var b := xof.Expand(digest3, 16 * (pr.rounds + pr.rounds * pr.symbols));
    assert b == b[16 * 0..16 * pr.rounds] + b[16 * (pr.rounds + 0 * pr.symbols)..];
  }

  // -------------------------------------------------- every challenge can be asked

  function Words32Bytes(ws: seq<nat>): (b: Bytes)
    ensures |b| == 4 * |ws|
  {
    if ws == [] then [] else Words32Bytes(ws[..|ws| - 1]) + LittleBytes(ws[|ws| - 1], 4)
  }

  lemma {:induction false} Word32Back(ws: seq<nat>, k: nat)
    requires k < |ws| && ws[k] < TWO32
    ensures Word32At(Words32Bytes(ws), k) == ws[k]
  {
    hide Little, LittleBytes, Exp2;
    Words32Slice(ws, k);
    SliceInside(Words32Bytes(ws), 4 * k, 4);
    LittleBack(LittleBytes(ws[k], 4));
    HalfWordWidth();
    LittleOnce(Little(LittleBytes(ws[k], 4)), ws[k], 4);
  }

  lemma {:induction false} HalfWordWidth()
    ensures Exp2(8 * 4) == TWO32
  {
    hide Exp2;
    ExpZero();
    Byte(4); Byte(3); Byte(2); Byte(1);
  }

  lemma {:induction false} Words32Slice(ws: seq<nat>, k: nat)
    requires k < |ws|
    ensures Words32Bytes(ws)[4 * k..4 * k + 4] == LittleBytes(ws[k], 4)
  {
    hide LittleBytes;
    if k < |ws| - 1 {
      Words32Slice(ws[..|ws| - 1], k);
      assert Words32Bytes(ws)[4 * k..4 * k + 4] == Words32Bytes(ws[..|ws| - 1])[4 * k..4 * k + 4];
    }
  }

  /** What is asked of every round: the symbols to query. */
  ghost predicate Queries(pr: Params, want: seq<seq<nat>>) {
    |want| == pr.rounds &&
    forall r :: 0 <= r < |want| ==>
      |want[r]| == pr.symbols && forall j :: 0 <= j < pr.symbols ==> want[r][j] < 8 * PK_BYTES
  }

  lemma {:induction false} QueriesAt(pr: Params, xof: Xof, digest2: Bytes, want: seq<seq<nat>>)
    requires Queries(pr, want) && xof.f(digest2, 4 * (pr.rounds * pr.symbols)) == Words32Bytes(Joined(want, pr.symbols))
    ensures forall r :: 0 <= r < pr.rounds ==> Queried(pr, xof, digest2, r) == want[r]
  {
    hide Word32At, Words32Bytes, Joined;
    var ws := Joined(want, pr.symbols);
    forall r | 0 <= r < pr.rounds
      ensures Queried(pr, xof, digest2, r) == want[r]
    {
      forall j | 0 <= j < pr.symbols
        ensures Queried(pr, xof, digest2, r)[j] == want[r][j]
      {
        RowEnd(r, pr.rounds, pr.symbols);
        JoinedAt(want, pr.symbols, r, j);
        Word32Back(ws, r * pr.symbols + j);
      }
    }
  }

  /** Whichever symbols are to be queried for one first digest, and whichever for another, some
      expansion queries them. */
  lemma {:induction false} EveryQuery(pr: Params, d: Bytes, want: seq<seq<nat>>, d': Bytes, want': seq<seq<nat>>)
    returns (xof: Xof)
    requires d != d' && Queries(pr, want) && Queries(pr, want')
    ensures forall r :: 0 <= r < pr.rounds ==> Queried(pr, xof, d, r) == want[r] && Queried(pr, xof, d', r) == want'[r]
  {
    hide Queried, Words32Bytes, Joined;
    var b, b' := Words32Bytes(Joined(want, pr.symbols)), Words32Bytes(Joined(want', pr.symbols));
    xof := Xof((data, n) => if data == d then b else b');
    QueriesAt(pr, xof, d, want);
    QueriesAt(pr, xof, d', want');
  }

  function Joined(rows: seq<seq<nat>>, n: nat): (ws: seq<nat>)
    requires forall r :: 0 <= r < |rows| ==> |rows[r]| == n
    ensures |ws| == |rows| * n
  {
    if rows == [] then []
    else
      assert |rows| * n == (|rows| - 1) * n + n;
      Joined(rows[..|rows| - 1], n) + rows[|rows| - 1]
  }

  lemma {:induction false} JoinedAt(rows: seq<seq<nat>>, n: nat, r: nat, j: nat)
    requires (forall i :: 0 <= i < |rows| ==> |rows[i]| == n) && r < |rows| && j < n
    ensures r * n + j < |rows| * n && Joined(rows, n)[r * n + j] == rows[r][j]
  {
    RowEnd(r, |rows|, n);
    if r < |rows| - 1 {
      JoinedAt(rows[..|rows| - 1], n, r, j);
    }
  }

  /** Whichever parties are to be left unopened for one last digest, and whichever for another, some
      expansion does it. */
  lemma {:induction false} EveryUnopened(pr: Params, d: Bytes, want: seq<nat>, d': Bytes, want': seq<nat>)
    returns (xof: Xof)
    requires d != d' && Parted(pr, want) && Parted(pr, want')
    ensures forall r :: 0 <= r < pr.rounds ==>
      Unopened(pr, xof, d, r) == want[r] && Unopened(pr, xof, d', r) == want'[r]
  {
    hide Word32At, Words32Bytes, Exp2, Unopened;
    var b, b' := Words32Bytes(want), Words32Bytes(want');
    xof := Xof((data, n) => if data == d then b else b');
    forall r | 0 <= r < pr.rounds
      ensures Unopened(pr, xof, d, r) == want[r] && Unopened(pr, xof, d', r) == want'[r]
    {
      Word32Back(want, r);
      UnopenedAt(pr, xof, d, r, b, want[r]);
      Word32Back(want', r);
      UnopenedAt(pr, xof, d', r, b', want'[r]);
    }
  }

  /** A party of every round. */
  ghost predicate Parted(pr: Params, want: seq<nat>) {
    |want| == pr.rounds && forall r :: 0 <= r < |want| ==> want[r] < Exp2(pr.depth) && want[r] < TWO32
  }

  lemma {:induction false} UnopenedAt(pr: Params, xof: Xof, digest4: Bytes, r: nat, b: Bytes, w: nat)
    requires xof.Expand(digest4, 4 * pr.rounds) == b && Word32At(b, r) == w < Exp2(pr.depth)
    ensures Unopened(pr, xof, digest4, r) == w
  {
    hide Word32At, Exp2;
    Small(w, Exp2(pr.depth));
  }

  lemma {:induction false} Small(x: nat, m: nat)
    requires x < m
    ensures x % m == x
  {
  }

  /** A word a buffer of sixteen bytes holds. */
  lemma {:induction false} WordBack(w: U128)
    ensures WordAt(LittleBytes(w, 16), 0) == w
  {
    hide Little, LittleBytes, Exp2;
    var b := LittleBytes(w, 16);
    SliceInside(b, 0, 16);
    assert b[0..16] == b;
    LittleBack(b);
    WordWidth(w);
    LittleOnce(Little(b), w, 16);
  }

  /** Any two residues can be the keys of two secrets, and any two words the indices of two symbols. */
  lemma {:induction false} EveryKey(sk: Bytes, k: nat, sk': Bytes, k': nat) returns (xof: Xof)
    requires sk != sk' && k < P && k' < P
    ensures Key(xof, sk) == k && Key(xof, sk') == k'
  {
    hide WordAt, LittleBytes;
    var b, b' := LittleBytes(k, 16), LittleBytes(k', 16);
    xof := Xof((data, n) => if data == sk then b else b');
    WordBack(k);
    WordBack(k');
    Small(k, P);
    Small(k', P);
  }

  lemma {:induction false} EveryIndex(i: nat, x: U128, i': nat, x': U128) returns (xof: Xof)
    requires i != i' && i < TWO32 && i' < TWO32
    ensures IndexOf(xof, i) == x && IndexOf(xof, i') == x'
  {
    hide WordAt, LittleBytes, Exp2;
    if LittleBytes(i, 4) == LittleBytes(i', 4) {
      HalfWordWidth();
      LittleOnce(i, i', 4);
    }
    var b, b' := LittleBytes(x, 16), LittleBytes(x', 16);
    var d := LittleBytes(i, 4);
    xof := Xof((data, n) => if data == d then b else b');
    WordBack(x);
    WordBack(x');
  }

  /** The shares of a party are the whole expansion of its seed, and so are the two children of one. */
  lemma {:induction false} WholeShares(xof: Xof, n: nat, seed: Seed)
    ensures WordsBytes(ShareWords(xof, n, seed)) == xof.Expand(seed.bytes, 16 * (4 + n))
  {
    hide WordAt, WordsBytes;
    var b := xof.Expand(seed.bytes, 16 * (4 + n));
    WordsInside(b, 0, 4 + n);
    assert ShareWords(xof, n, seed) == WordsFrom(b, 0, 4 + n);
  }

  lemma {:induction false} WholePair(xof: Xof, seed: Seed, i: nat)
    requires i % 2 == 1
    ensures Child(xof, seed, i).bytes + Child(xof, seed, i + 1).bytes == xof.Expand(seed.bytes, 2 * SEED_BYTES)
    ensures |Child(xof, seed, i).bytes| == |Child(xof, seed, i + 1).bytes| == SEED_BYTES
  {
  }

  // ------------------------------------------------------------------ where bytes stand

  lemma {:induction false} WordOf(ws: seq<U128>, k: nat)
    requires k < |ws|
    ensures |WordsBytes(ws)| == 16 * |ws| && WordsBytes(ws)[16 * k..16 * k + 16] == LittleBytes(ws[k], 16)
  {
    hide LittleBytes;
    if k > 0 {
      WordOf(ws[1..], k - 1);
      assert WordsBytes(ws)[16 * k..16 * k + 16] == WordsBytes(ws[1..])[16 * (k - 1)..16 * (k - 1) + 16];
    } else {
      WordsSize(ws[1..]);
    }
  }

  lemma {:induction false} WordsSize(ws: seq<U128>)
    ensures |WordsBytes(ws)| == 16 * |ws|
  {
    hide LittleBytes;
    if ws != [] {
      WordsSize(ws[1..]);
    }
  }

  lemma {:induction false} WordThere(b: Bytes, k: nat, w: U128)
    requires 16 * k + 16 <= |b| && b[16 * k..16 * k + 16] == LittleBytes(w, 16)
    ensures WordAt(b, k) == w
  {
    hide Little, LittleBytes;
    SliceInside(b, 16 * k, 16);
    WordBack(w);
    SliceInside(LittleBytes(w, 16), 0, 16);
    assert LittleBytes(w, 16)[0..16] == LittleBytes(w, 16);
  }

  /** Two rows of words behind a digest: where each word stands. */
  lemma {:induction false} Layout(digest: Bytes, a: seq<U128>, b: seq<U128>, r: nat)
    requires |digest| == HASH_BYTES && r < |a| == |b|
    ensures WordAt(digest + WordsBytes(a) + WordsBytes(b), 2 + r) == a[r]
    ensures WordAt(digest + WordsBytes(a) + WordsBytes(b), 2 + |a| + r) == b[r]
  {
    hide WordsBytes, LittleBytes, WordAt;
    var whole := digest + WordsBytes(a) + WordsBytes(b);
    WordOf(a, r);
    WordOf(b, r);
    assert whole[16 * (2 + r)..16 * (2 + r) + 16] == WordsBytes(a)[16 * r..16 * r + 16];
    assert whole[16 * (2 + |a| + r)..16 * (2 + |a| + r) + 16] == WordsBytes(b)[16 * r..16 * r + 16];
    WordThere(whole, 2 + r, a[r]);
    WordThere(whole, 2 + |a| + r, b[r]);
  }

  /** The offsets MESSAGE1_DELTA_K, MESSAGE1_DELTA_TRIPLE, MESSAGE3_ALPHA and MESSAGE3_BETA, in words. */
  lemma {:induction false} MessageLayout(pr: Params, s: Signature, r: nat)
    requires Measured(pr, s) && r < pr.rounds
    ensures WordAt(Message1Bytes(s.m1), 2 + r) == s.m1.deltaK[r]
    ensures WordAt(Message1Bytes(s.m1), 2 + pr.rounds + r) == s.m1.deltaC[r]
    ensures WordAt(Message3Bytes(s.m3), 2 + r) == s.m3.alpha[r]
    ensures WordAt(Message3Bytes(s.m3), 2 + pr.rounds + r) == s.m3.beta[r]
  {
    hide WordsBytes, WordAt;
    Layout(s.m1.digest, s.m1.deltaK, s.m1.deltaC, r);
    Layout(s.m3.digest, s.m3.alpha, s.m3.beta, r);
  }

  /** Numbers are written low byte first. */
  lemma {:induction false} LowByteFirst(x: nat, n: nat)
    requires n >= 2
    ensures LittleBytes(x, n)[0] == x % 256 && LittleBytes(x, n)[1] == x / 256 % 256
  {
    assert LittleBytes(x, n)[1] == LittleBytes(x / 256, n - 1)[0];
  }

  /** Public keys hold the symbols from the least significant bit of a byte on. */
  lemma {:induction false} LowBitFirst(x: bv8)
    ensures GetBit([x], 0) == 1 <==> x % 2 == 1
    ensures GetBit([x], 1) == 1 <==> x / 2 % 2 == 1
    ensures GetBit([0, x], 8) == 1 <==> x % 2 == 1
    ensures GetBit([0, x], 15) == 1 <==> x / 128 == 1
  {
  }
}
