/** The shuffle inside GetAddr_ of src/addrman.cpp: what the draws make of a list, and that they can
    make anything of it. */
module AddrShuffle {

  function Exchange(v: seq<int>, i: nat, j: nat): (r: seq<int>)
    requires i < |v| && j < |v|
    ensures |r| == |v|
  {
    v[i := v[j]][j := v[i]]
  }

  /** The place a random number draws for place n, among those from n on. */
  function Drawn(x: nat, n: nat, size: nat): (p: nat)
    requires n < size
    ensures n <= p < size
  {
    x % (size - n) + n
  }

  lemma {:induction false} DrawnAny(n: nat, size: nat, p: nat)
    requires n <= p < size
    ensures Drawn(p - n, n, size) == p
  {
  }

  /** The list after its first n places were drawn, each from those not drawn yet. */
  function Mixed(v: seq<int>, rand: nat -> nat, n: nat): (r: seq<int>)
    requires n <= |v|
    ensures |r| == |v|
  {
    if n == 0 then v else Exchange(Mixed(v, rand, n - 1), n - 1, Drawn(rand(n - 1), n - 1, |v|))
  }

  lemma {:induction false} MixedNone(v: seq<int>, rand: nat -> nat)
    ensures Mixed(v, rand, 0) == v
  {
  }

  lemma {:induction false} MixedOne(v: seq<int>, rand: nat -> nat, n: nat)
    requires n < |v|
    ensures Mixed(v, rand, n + 1) == Exchange(Mixed(v, rand, n), n, Drawn(rand(n), n, |v|))
  {
    hide Exchange, Drawn;
  }

  lemma {:induction false} ExchangeKeeps(v: seq<int>, i: nat, j: nat)
    requires i < |v| && j < |v|
    ensures multiset(Exchange(v, i, j)) == multiset(v)
  {
  }

  /** The draws only rearrange. */
  lemma {:induction false} MixedKeeps(v: seq<int>, rand: nat -> nat, n: nat)
    requires n <= |v|
    ensures multiset(Mixed(v, rand, n)) == multiset(v)
  {
    hide Exchange, Drawn;
    if n > 0 {
      MixedKeeps(v, rand, n - 1);
      ExchangeKeeps(Mixed(v, rand, n - 1), n - 1, Drawn(rand(n - 1), n - 1, |v|));
    }
  }

  lemma {:induction false} MixedSame(v: seq<int>, rand: nat -> nat, other: nat -> nat, n: nat)
    requires n <= |v| && forall i: nat :: i < n ==> rand(i) == other(i)
    ensures Mixed(v, rand, n) == Mixed(v, other, n)
  {
    hide Exchange, Drawn;
    if n > 0 {
      MixedSame(v, rand, other, n - 1);
    }
  }

  lemma {:induction false} Somewhere(m: seq<int>, want: seq<int>, n: nat) returns (p: nat)
    requires multiset(m) == multiset(want) && n < |want| && |m| == |want| && m[..n] == want[..n]
    ensures n <= p < |m| && m[p] == want[n]
  {
    assert m == m[..n] + m[n..] && want == want[..n] + want[n..];
    assert multiset(m[n..]) == multiset(m) - multiset(m[..n]) == multiset(want[n..]);
    assert want[n..][0] in multiset(want[n..]);
    assert want[n] in m[n..];
    var k :| 0 <= k < |m[n..]| && m[n..][k] == want[n];
    p := n + k;
  }

  /** The draws with one of them changed. */
  function Redrawn(rand: nat -> nat, k: nat, x: nat): (r: nat -> nat)
    ensures r(k) == x && forall i: nat :: i != k ==> r(i) == rand(i)
  {
    i => if i == k then x else rand(i)
  }

  lemma {:induction false} OrderTo(v: seq<int>, want: seq<int>, n: nat) returns (rand: nat -> nat)
    requires multiset(v) == multiset(want) && n <= |v| == |want|
    ensures Mixed(v, rand, n)[..n] == want[..n]
  {
    hide *;
    rand := i => 0;
    if n > 0 {
      var before := OrderTo(v, want, n - 1);
      var m := Mixed(v, before, n - 1);
      MixedKeeps(v, before, n - 1);
      var p := Somewhere(m, want, n - 1);
      rand := Redrawn(before, n - 1, p - (n - 1));
      MixedSame(v, before, rand, n - 1);
      MixedNext(v, rand, n, p);
      OneMoreRight(m, want, n, p);
    }
  }

  lemma {:induction false} OneMoreRight(m: seq<int>, want: seq<int>, n: nat, p: nat)
    requires 0 < n <= |m| == |want| && m[..n - 1] == want[..n - 1] && n - 1 <= p < |m| && m[p] == want[n - 1]
    ensures Exchange(m, n - 1, p)[..n] == want[..n]
  {
    assert Exchange(m, n - 1, p)[..n] == m[..n - 1] + [m[p]];
    assert want[..n] == want[..n - 1] + [want[n - 1]];
  }

  lemma {:induction false} MixedNext(v: seq<int>, rand: nat -> nat, n: nat, p: nat)
    requires 0 < n <= |v| && n - 1 <= p < |v| && rand(n - 1) == p - (n - 1)
    ensures Mixed(v, rand, n) == Exchange(Mixed(v, rand, n - 1), n - 1, p)
  {
    hide Exchange, Drawn;
    DrawnAny(n - 1, |v|, p);
  }

  /** Every order of the list can be drawn. */
  lemma {:induction false} EveryOrder(v: seq<int>, want: seq<int>) returns (rand: nat -> nat)
    requires multiset(v) == multiset(want)
    ensures Mixed(v, rand, |v|) == want
  {
    assert |v| == |multiset(v)| == |multiset(want)| == |want|;
    rand := OrderTo(v, want, |v|);
    assert Mixed(v, rand, |v|)[..|v|] == Mixed(v, rand, |v|) && want[..|v|] == want;
  }
}
