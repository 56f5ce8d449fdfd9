/** How far the skip pointers of src/chain.cpp shorten a walk down the chain. */
module SkipWalk {
  import opened Numbers
  import opened BlockTree

  /** How many one bits n has. */
  function Ones(n: nat): nat {
    if n == 0 then 0 else n % 2 + Ones(n / 2)
  }

  lemma {:induction false} OnesInvert(n: nat)
    requires n > 0
    ensures Ones(n) >= 1 && Ones(InvertLowestOne(n)) == Ones(n) - 1
  {
    if n % 2 == 1 {
      InvertOdd(n);
      assert (n - 1) / 2 == n / 2;
    } else {
      InvertEven(n);
      OnesInvert(n / 2);
    }
  }

  lemma {:induction false} NoOnes(n: nat)
    ensures Ones(n) == 0 <==> n == 0
  {
    if n > 0 {
      OnesInvert(n);
    }
  }

  /** A number of m bits has at most m ones. */
  lemma {:induction false} OnesBound(n: nat, m: nat)
    requires n < Exp2(m)
    ensures Ones(n) <= m
  {
    if n > 0 {
      OnesBound(n / 2, m - 1);
    }
  }

  /** All of its m bits are ones. */
  lemma {:induction false} OnesFull(m: nat)
    ensures Ones(Exp2(m) - 1) == m
  {
    if m > 0 {
      assert (Exp2(m) - 1) / 2 == Exp2(m - 1) - 1 && (Exp2(m) - 1) % 2 == 1;
      OnesFull(m - 1);
    }
  }

  lemma {:induction false} InvertPower(m: nat)
    ensures InvertLowestOne(Exp2(m)) == 0
  {
    if m == 0 {
      InvertOdd(1);
    } else {
      InvertEven(Exp2(m));
      InvertPower(m - 1);
    }
  }

  // ------------------------------------------------------- blocks of heights

  /** The low k bits of a are zeros: a starts a block of Exp2(k) heights. */
  ghost predicate Aligned(a: nat, k: nat) {
    k == 0 || (a % 2 == 0 && Aligned(a / 2, k - 1))
  }

  /** Taking out the lowest one of a height inside a block stays inside it. */
  lemma {:induction false} InvertInside(a: nat, k: nat, r: nat)
    requires Aligned(a, k) && 0 < r < Exp2(k)
    ensures InvertLowestOne(a + r) == a + InvertLowestOne(r)
  {
    hide InvertLowestOne;
    if r % 2 == 1 {
      InvertOdd(a + r);
      InvertOdd(r);
    } else {
      InvertEven(a + r);
      InvertEven(r);
      assert (a + r) / 2 == a / 2 + r / 2;
      InvertInside(a / 2, k - 1, r / 2);
    }
  }

  lemma {:induction false} Halves(a: nat, m: nat)
    requires Aligned(a, m + 1)
    ensures Aligned(a, m) && Aligned(a + Exp2(m), m)
  {
    if m > 0 {
      Halves(a / 2, m - 1);
      assert (a + Exp2(m)) / 2 == a / 2 + Exp2(m - 1);
    }
  }

  lemma {:induction false} InvertTwice(n: nat)
    requires n > 0
    ensures InvertLowestOne(2 * n) == 2 * InvertLowestOne(n)
  {
    hide InvertLowestOne;
    InvertEven(2 * n);
  }

  lemma {:induction false} InvertOne(n: nat)
    ensures InvertLowestOne(2 * n + 1) == 2 * n
  {
    hide InvertLowestOne;
    InvertOdd(2 * n + 1);
  }

  lemma {:induction false} OnesTwice(n: nat)
    ensures Ones(2 * n) == Ones(n) && Ones(2 * n + 1) == Ones(n) + 1
  {
    assert 2 * n / 2 == n && (2 * n + 1) / 2 == n;
  }

  /** The skip heights in the upper half of a block that starts at a. */
  lemma {:induction false} MiddleSkip(a: nat, m: nat)
    requires Aligned(a, m + 1) && m >= 1
    ensures InvertLowestOne(a + Exp2(m)) == a && SkipHeight(a + Exp2(m)) == a
  {
    hide InvertLowestOne;
    InvertInside(a, m + 1, Exp2(m));
    InvertPower(m);
  }

  lemma {:induction false} SkipUnfold(h: nat)
    requires h >= 1
    ensures SkipHeight(2 * h) == InvertLowestOne(2 * h)
    ensures SkipHeight(2 * h + 1) == InvertLowestOne(InvertLowestOne(2 * h)) + 1
  {
    hide InvertLowestOne;
    assert 2 * h % 2 == 0 && (2 * h + 1) % 2 == 1;
  }

  lemma {:induction false} EvenMiddle(a: nat, m: nat) returns (h: nat)
    requires Aligned(a, m + 1) && m >= 1
    ensures a + Exp2(m) == 2 * h && h >= 1
  {
    h := a / 2 + Exp2(m - 1);
  }

  lemma {:induction false} EvenSkip(a: nat, m: nat, f: nat)
    requires Aligned(a, m + 1) && m >= 1 && 0 < 2 * f < Exp2(m)
    ensures SkipHeight(a + Exp2(m) + 2 * f) == a + Exp2(m) + 2 * InvertLowestOne(f)
  {
    hide InvertLowestOne, SkipHeight, Exp2, Aligned;
    var h := EvenMiddle(a, m);
    SkipUnfold(h + f);
    Halves(a, m);
    InvertInside(a + Exp2(m), m, 2 * f);
    InvertTwice(f);
  }

  lemma {:induction false} OddSkip(a: nat, m: nat, f: nat)
    requires Aligned(a, m + 1) && m >= 1 && 2 * f < Exp2(m)
    ensures SkipHeight(a + Exp2(m) + 2 * f + 1) ==
      (if f == 0 then InvertLowestOne(a)
       else if InvertLowestOne(f) == 0 then a
       else a + Exp2(m) + 2 * InvertLowestOne(InvertLowestOne(f))) + 1
  {
    hide InvertLowestOne, SkipHeight, Exp2, Aligned;
    var h := EvenMiddle(a, m);
    SkipUnfold(h + f);
    Halves(a, m);
    MiddleSkip(a, m);
    if f > 0 {
      InvertInside(a + Exp2(m), m, 2 * f);
      InvertTwice(f);
      InvertLess(f);
      if InvertLowestOne(f) > 0 {
        InvertInside(a + Exp2(m), m, 2 * InvertLowestOne(f));
        InvertTwice(InvertLowestOne(f));
      }
    }
  }

  // -------------------------------------- from the upper half into the lower

  lemma {:induction false} Neighbours(t: nat)
    ensures Steps(t, t) == 0 && Steps(t + 1, t) == 1
  {
    hide Jump;
    Turn(t + 1, t);
  }

  /** t is in the lower half of a block of Exp2(m + 1) heights that starts at a, and from the top of
      that half it takes x turns. */
  ghost predicate Lower(a: nat, m: nat, t: nat, x: nat) {
    Aligned(a, m + 1) && a <= t < a + Exp2(m) && (t > a ==> Steps(a + Exp2(m) - 1, t) <= x)
  }

  lemma {:induction false} FromMiddle(a: nat, m: nat, t: nat, x: nat)
    requires Lower(a, m, t, x)
    ensures Steps(a + Exp2(m), t) <= 1 + x
  {
    hide Steps, SkipHeight;
    Neighbours(t);
    if m > 0 {
      MiddleSkip(a, m);
      Turn(a + Exp2(m), t);
    }
  }

  /** An odd height follows its skip pointer whenever that does not lead too low. */
  lemma {:induction false} OddJump(a: nat, m: nat, t: nat, f: nat)
    requires Aligned(a, m + 1) && m >= 1 && 2 * f < Exp2(m) && a <= t < a + Exp2(m)
    ensures var s := SkipHeight(a + Exp2(m) + 2 * f + 1);
      Jump(a + Exp2(m) + 2 * f + 1, t) == if s >= t then s else a + Exp2(m) + 2 * f
  {
    hide InvertLowestOne, SkipHeight, Jump, Exp2, Aligned;
    var w := a + Exp2(m) + 2 * f + 1;
    JumpFrom(w, t, SkipHeight(w), SkipHeight(w - 1));
    OddSkip(a, m, f);
    InvertLess(a);
    if f == 0 {
      MiddleSkip(a, m);
    } else {
      EvenSkip(a, m, f);
      InvertLess(InvertLowestOne(f));
    }
  }

  /** A skip pointer from the upper half that ends in the lower half ends next to its start. */
  lemma {:induction false} LandsLow(a: nat, m: nat, t: nat, f: nat)
    requires Aligned(a, m + 1) && m >= 1 && 2 * f < Exp2(m) && a <= t < a + Exp2(m)
    requires t <= SkipHeight(a + Exp2(m) + 2 * f + 1) < a + Exp2(m)
    ensures Steps(a + Exp2(m) + 2 * f + 1, t) <= 2
  {
    hide InvertLowestOne, SkipHeight, Steps, Jump, Exp2, Aligned;
    OddSkip(a, m, f);
    InvertLess(a);
    OddJump(a, m, t, f);
    Turn(a + Exp2(m) + 2 * f + 1, t);
    Neighbours(t);
  }

  /** A single one above the middle goes to the middle, unless its neighbour's pointer is taken. */
  lemma {:induction false} SingleJump(a: nat, m: nat, t: nat, f: nat)
    requires Aligned(a, m + 1) && m >= 1 && 0 < 2 * f < Exp2(m) && InvertLowestOne(f) == 0
    requires a + 2 <= t < a + Exp2(m)
    ensures Jump(a + Exp2(m) + 2 * f, t) == a + Exp2(m)
  {
    hide InvertLowestOne, SkipHeight, Jump, Exp2, Aligned;
    var w := a + Exp2(m) + 2 * f;
    JumpFrom(w, t, SkipHeight(w), SkipHeight(w - 1));
    EvenSkip(a, m, f);
    OddSkip(a, m, f - 1);
    InvertLess(a);
  }

  /** From an odd height two ones are cleared at a time. */
  lemma {:induction false} UpperOdd(a: nat, m: nat, t: nat, x: nat, f: nat)
    requires Lower(a, m, t, x) && m >= 1 && 2 * f < Exp2(m)
    ensures Steps(a + Exp2(m) + 2 * f + 1, t) <= (Ones(f) + 1) / 2 + 2 + x
    decreases f
  {
    hide InvertLowestOne, SkipHeight, Steps, Ones, Jump, Exp2, Aligned;
    var w := a + Exp2(m) + 2 * f + 1;
    var s := SkipHeight(w);
    OddSkip(a, m, f);
    OddJump(a, m, t, f);
    Turn(w, t);
    if t <= s < a + Exp2(m) {
      LandsLow(a, m, t, f);
    } else if f == 0 {
      InvertLess(a);
      FromMiddle(a, m, t, x);
    } else if InvertLowestOne(f) == 0 {
      SingleJump(a, m, t, f);
      Turn(w - 1, t);
      FromMiddle(a, m, t, x);
      OnesInvert(f);
    } else {
      TwoCleared(f);
      UpperOdd(a, m, t, x, InvertLowestOne(InvertLowestOne(f)));
    }
  }

  lemma {:induction false} TwoCleared(f: nat)
    requires f > 0 && InvertLowestOne(f) > 0
    ensures var n := InvertLowestOne(InvertLowestOne(f)); n < f && Ones(f) == Ones(n) + 2
  {
    hide InvertLowestOne, Ones;
    InvertLess(f);
    InvertLess(InvertLowestOne(f));
    OnesInvert(f);
    OnesInvert(InvertLowestOne(f));
  }

  // ------------------------------------------------- from the top of a block

  /** How many turns are enough from the top of a block of Exp2(k) heights. */
  function FromTop(k: nat): nat {
    if k <= 2 then k else if k == 3 then 4 else FromTop(k - 1) + (k - 1) / 2 + 2
  }

  /** From the top of the upper half through the middle. */
  lemma {:induction false} TopAcross(a: nat, m: nat, t: nat, x: nat)
    requires Lower(a, m, t, x) && m >= 1
    ensures Steps(a + Exp2(m + 1) - 1, t) <= m / 2 + 2 + x
  {
    hide Steps, Ones, Lower;
    OnesFull(m - 1);
    UpperOdd(a, m, t, x, Exp2(m - 1) - 1);
  }

  lemma {:induction false} TopSteps(a: nat, k: nat, t: nat)
    requires Aligned(a, k) && a <= t < a + Exp2(k)
    ensures Steps(a + Exp2(k) - 1, t) <= FromTop(k)
    decreases k
  {
    hide Steps, Aligned;
    Neighbours(t);
    if k > 0 {
      Halves(a, k - 1);
      if t >= a + Exp2(k - 1) {
        TopSteps(a + Exp2(k - 1), k - 1, t);
      } else if k >= 4 {
        TopSteps(a, k - 1, t);
        TopAcross(a, k - 1, t, FromTop(k - 1));
      } else if k == 3 && t > a {
        TopOfEight(a, t);
      } else if k > 1 {
        TopAcross(a, k - 1, t, 0);
      }
    }
  }

  lemma {:induction false} TopOfEight(a: nat, t: nat)
    requires Aligned(a, 3) && a < t < a + 4
    ensures Steps(a + 7, t) <= 4
  {
    hide Steps, SkipHeight, InvertLowestOne, Aligned;
    Narrow(2);
    assert Ones(1) == 1;
    Neighbours(t);
    OddSkip(a, 2, 1);
    InvertOne(0);
    if t == a + 1 {
      LandsLow(a, 2, t, 1);
    } else {
      UpperOdd(a, 2, t, 1, 1);
    }
  }

  // ------------------------------------------------- from any height of a block

  lemma {:induction false} InvertFourth(y: nat)
    ensures InvertLowestOne(4 * y + 1) == 4 * y
    ensures InvertLowestOne(4 * y + 2) == 4 * y
    ensures InvertLowestOne(4 * y + 3) == 4 * y + 2
    ensures y > 0 ==> InvertLowestOne(4 * y) == 4 * InvertLowestOne(y)
  {
    hide InvertLowestOne;
    InvertOne(2 * y);
    InvertOne(2 * y + 1);
    InvertOne(y);
    InvertTwice(2 * y + 1);
    if y > 0 {
      InvertTwice(y);
      InvertTwice(2 * y);
    }
  }

  /** With its three low bits clear a height follows every pointer. */
  lemma {:induction false} EightJump(a: nat, m: nat, t: nat, y: nat)
    requires Aligned(a, m + 1) && m >= 1 && a <= t < a + Exp2(m) && 0 < 8 * y < Exp2(m)
    ensures Jump(a + Exp2(m) + 8 * y, t) == a + Exp2(m) + 8 * InvertLowestOne(y)
  {
    hide InvertLowestOne, SkipHeight, Jump, Exp2, Aligned;
    var w := a + Exp2(m) + 8 * y;
    JumpFrom(w, t, SkipHeight(w), SkipHeight(w - 1));
    InvertFourth(y);
    InvertFourth(y - 1);
    InvertLess(y);
    EvenSkip(a, m, 4 * y);
    OddSkip(a, m, 4 * y - 1);
  }

  lemma {:induction false} UpperEight(a: nat, m: nat, t: nat, x: nat, y: nat)
    requires Lower(a, m, t, x) && m >= 1 && 8 * y < Exp2(m)
    ensures Steps(a + Exp2(m) + 8 * y, t) <= Ones(y) + 1 + x
    decreases y
  {
    hide InvertLowestOne, Steps, Ones, Exp2, Aligned, Jump;
    if y == 0 {
      FromMiddle(a, m, t, x);
    } else {
      EightJump(a, m, t, y);
      OnesInvert(y);
      InvertLess(y);
      Turn(a + Exp2(m) + 8 * y, t);
      UpperEight(a, m, t, x, InvertLowestOne(y));
    }
  }

  /** Here the pointer of the height below is better, where it stays in the upper half. */
  lemma {:induction false} FourJump(a: nat, m: nat, t: nat, y: nat)
    requires Aligned(a, m + 1) && m >= 1 && a <= t < a + Exp2(m) && 8 * y + 4 < Exp2(m)
    requires y > 0 || t <= a + 1
    ensures Jump(a + Exp2(m) + 8 * y + 4, t) == a + Exp2(m) + 8 * y + 3
    ensures y == 0 ==> SkipHeight(a + Exp2(m) + 3) == a + 1
  {
    hide InvertLowestOne, SkipHeight, Jump, Exp2, Aligned;
    var w := a + Exp2(m) + 8 * y + 4;
    JumpFrom(w, t, SkipHeight(w), SkipHeight(w - 1));
    InvertFourth(y);
    InvertLess(y);
    EvenSkip(a, m, 4 * y + 2);
    OddSkip(a, m, 4 * y + 1);
  }

  lemma {:induction false} UpperFour(a: nat, m: nat, t: nat, x: nat, y: nat)
    requires Lower(a, m, t, x) && x >= 1 && m >= 1 && 8 * y + 4 < Exp2(m)
    ensures Steps(a + Exp2(m) + 8 * y + 4, t) <= Ones(y) / 2 + 4 + x
  {
    hide InvertLowestOne, SkipHeight, Steps, Ones, Jump, Exp2, Aligned;
    Turn(a + Exp2(m) + 8 * y + 4, t);
    if y > 0 {
      FourJump(a, m, t, y);
      UpperOdd(a, m, t, x, 4 * y + 1);
      OnesTwice(2 * y);
      OnesTwice(y);
    } else if t <= a + 1 {
      FourJump(a, m, t, y);
      LandsLow(a, m, t, 1);
    } else {
      InvertFourth(0);
      SingleJump(a, m, t, 2);
      FromMiddle(a, m, t, x);
    }
  }

  lemma {:induction false} TwoBelow(a: nat, m: nat, y: nat)
    requires Aligned(a, m + 1) && m >= 1 && 4 * y + 2 < Exp2(m) && Exp2(m) >= 4
    ensures SkipHeight(a + Exp2(m) + 4 * y + 1) < a + Exp2(m) + 4 * y - 2
  {
    hide InvertLowestOne, SkipHeight, Exp2, Aligned;
    OddSkip(a, m, 2 * y);
    if y == 0 {
      InvertLess(a);
    } else {
      InvertTwice(y);
      InvertLess(y);
      if InvertLowestOne(y) > 0 {
        InvertTwice(InvertLowestOne(y));
        InvertLess(InvertLowestOne(y));
      }
    }
  }

  /** Here it is better exactly when it does not lead too low. */
  lemma {:induction false} TwoJump(a: nat, m: nat, t: nat, y: nat)
    requires Aligned(a, m + 1) && m >= 1 && a <= t < a + Exp2(m) && 4 * y + 2 < Exp2(m) && Exp2(m) >= 4
    ensures Jump(a + Exp2(m) + 4 * y + 2, t) ==
      a + Exp2(m) + 4 * y + if SkipHeight(a + Exp2(m) + 4 * y + 1) >= t then 1 else 0
  {
    hide InvertLowestOne, SkipHeight, Exp2, Aligned, Jump;
    var w := a + Exp2(m) + 4 * y;
    InvertOne(y);
    EvenSkip(a, m, 2 * y + 1);
    TwoBelow(a, m, y);
    JumpFrom(w + 2, t, w, SkipHeight(w + 1));
  }

  lemma {:induction false} UpperTwo(a: nat, m: nat, t: nat, x: nat, y: nat)
    requires Lower(a, m, t, x) && x >= 1 && m >= 1 && 4 * y + 2 < Exp2(m) && Exp2(m) >= 4
    ensures Steps(a + Exp2(m) + 4 * y + 2, t) <= Ones(y) / 2 + 4 + x
  {
    hide InvertLowestOne, SkipHeight, Steps, Ones, Jump, Exp2, Aligned;
    var w := a + Exp2(m) + 4 * y;
    OddSkip(a, m, 2 * y);
    InvertLess(a);
    TwoJump(a, m, t, y);
    Turn(w + 2, t);
    if t <= SkipHeight(w + 1) < a + Exp2(m) {
      LandsLow(a, m, t, 2 * y);
    } else if y == 0 {
      FromMiddle(a, m, t, x);
    } else if InvertLowestOne(2 * y) == 0 {
      SingleJump(a, m, t, 2 * y);
      Turn(w, t);
      FromMiddle(a, m, t, x);
    } else {
      UpperOdd(a, m, t, x, 2 * y);
      OnesTwice(y);
    }
  }

  /** So many turns are enough to the middle of a block of Exp2(m + 1) heights. */
  function Climb(m: nat): nat {
    if m >= 10 then m - 3 else m / 2 + 2
  }

  lemma {:induction false} Wide(m: nat)
    ensures m >= 1 ==> Exp2(m) == 2 * Exp2(m - 1)
    ensures m >= 2 ==> Exp2(m) == 4 * Exp2(m - 2)
    ensures m >= 3 ==> Exp2(m) == 8 * Exp2(m - 3)
  {
  }

  lemma {:induction false} Narrow(m: nat)
    ensures m == 0 ==> Exp2(m) == 1
    ensures m == 1 ==> Exp2(m) == 2
    ensures m == 2 ==> Exp2(m) == 4
  {
    assert Exp2(0) == 1 && Exp2(1) == 2 && Exp2(2) == 4;
  }

  lemma {:induction false} OddClimb(a: nat, m: nat, t: nat, x: nat, f: nat)
    requires Lower(a, m, t, x) && 2 * f + 1 < Exp2(m)
    ensures Steps(a + Exp2(m) + (2 * f + 1), t) <= Climb(m) + 1 + x
  {
    hide Steps, Ones, Lower, Exp2;
    Narrow(m);
    Wide(m);
    UpperOdd(a, m, t, x, f);
    OnesBound(f, m - 1);
  }

  lemma {:induction false} TwoClimb(a: nat, m: nat, t: nat, x: nat, y: nat)
    requires Lower(a, m, t, x) && x >= 1 && 4 * y + 2 < Exp2(m)
    ensures Steps(a + Exp2(m) + (4 * y + 2), t) <= Climb(m) + 1 + x
  {
    hide Steps, Ones, Lower, Exp2;
    Narrow(m);
    Wide(m);
    UpperTwo(a, m, t, x, y);
    OnesBound(y, m - 2);
  }

  lemma {:induction false} FourClimb(a: nat, m: nat, t: nat, x: nat, y: nat)
    requires Lower(a, m, t, x) && x >= 1 && 8 * y + 4 < Exp2(m)
    ensures Steps(a + Exp2(m) + (8 * y + 4), t) <= Climb(m) + 1 + x
  {
    hide Steps, Ones, Lower, Exp2;
    Narrow(m);
    Wide(m);
    UpperFour(a, m, t, x, y);
    OnesBound(y, m - 3);
  }

  lemma {:induction false} EightClimb(a: nat, m: nat, t: nat, x: nat, y: nat)
    requires Lower(a, m, t, x) && 8 * y < Exp2(m)
    ensures Steps(a + Exp2(m) + 8 * y, t) <= Climb(m) + 1 + x
  {
    hide Steps, Ones, Lower, Exp2;
    Narrow(m);
    Wide(m);
    if y == 0 {
      FromMiddle(a, m, t, x);
    } else {
      UpperEight(a, m, t, x, y);
      OnesBound(y, m - 3);
    }
  }

  lemma {:induction false} Half(r: nat) returns (h: nat, odd: bool)
    ensures r == 2 * h + if odd then 1 else 0
  {
    h, odd := r / 2, r % 2 == 1;
  }

  lemma {:induction false} LowBits(r: nat) returns (y: nat, low: nat)
    ensures low == 1 ==> r == 2 * y + 1
    ensures low == 2 ==> r == 4 * y + 2
    ensures low == 4 ==> r == 8 * y + 4
    ensures low == 0 || low == 1 || low == 2 || low == 4
    ensures low == 0 ==> r == 8 * y
  {
    var h, one := Half(r);
    var g, two := Half(h);
    var f, four := Half(g);
    y := if one then h else if two then g else f;
    low := if one then 1 else if two then 2 else if four then 4 else 0;
  }

  lemma {:induction false} UpperSteps(a: nat, m: nat, t: nat, x: nat, r: nat)
    requires Lower(a, m, t, x) && x >= 1 && r < Exp2(m)
    ensures Steps(a + Exp2(m) + r, t) <= Climb(m) + 1 + x
  {
    hide *;
    var y, low := LowBits(r);
    if low == 1 {
      OddClimb(a, m, t, x, y);
    } else if low == 2 {
      TwoClimb(a, m, t, x, y);
    } else if low == 4 {
      FourClimb(a, m, t, x, y);
    } else {
      EightClimb(a, m, t, x, y);
    }
  }

  // ------------------------------------------------------------ the whole walk

  /** How many turns are enough between two heights of a block of Exp2(k) heights. */
  function Longest(k: nat): nat {
    if k == 0 then 0
    else
      var here := Climb(k - 1) + 1 + if k == 1 then 1 else FromTop(k - 1);
      if here > Longest(k - 1) then here else Longest(k - 1)
  }

  lemma {:induction false} BlockSteps(a: nat, k: nat, w: nat, t: nat)
    requires Aligned(a, k) && a <= t <= w < a + Exp2(k)
    ensures Steps(w, t) <= Longest(k)
    decreases k
  {
    hide Steps, Aligned, FromTop, Climb;
    if k == 0 {
      Neighbours(t);
    } else {
      var m := k - 1;
      Halves(a, m);
      if t >= a + Exp2(m) {
        BlockSteps(a + Exp2(m), m, w, t);
      } else if w < a + Exp2(m) {
        BlockSteps(a, m, w, t);
      } else {
        TopSteps(a, m, t);
        FromTopPositive(m);
        UpperSteps(a, m, t, if m == 0 then 1 else FromTop(m), w - a - Exp2(m));
      }
    }
  }

  lemma {:induction false} FromTopPositive(m: nat)
    ensures m == 0 ==> FromTop(m) == 0
    ensures m > 0 ==> FromTop(m) >= 1
  {
  }

  lemma {:induction false} ZeroAligned(k: nat)
    ensures Aligned(0, k)
  {
    if k > 0 {
      ZeroAligned(k - 1);
    }
  }

  /** From any height of at most k bits to any lower one. */
  lemma {:induction false} StepsBound(h: nat, t: nat, k: nat)
    requires t <= h < Exp2(k)
    ensures Steps(h, t) <= Longest(k)
  {
    ZeroAligned(k);
    BlockSteps(0, k, h, t);
  }

  ghost function Square(k: nat): nat {
    k * k
  }

  lemma {:induction false} NextSquare(k: nat)
    ensures Square(k + 1) == Square(k) + 2 * k + 1
  {
  }

  /** The number of turns grows with the square of the number of bits. */
  lemma {:induction false} Quadratic(k: nat)
    ensures 4 * FromTop(k) <= Square(k) + 7 * k
    ensures 4 * Longest(k) <= Square(k) + 9 * k + 10
  {
    hide Square;
    if k > 0 {
      NextSquare(k - 1);
      Quadratic(k - 1);
    }
  }

  lemma {:induction false} FromTopGrows(i: nat, j: nat)
    requires i <= j
    ensures FromTop(i) <= FromTop(j)
    decreases j
  {
    if i < j {
      FromTopGrows(i, j - 1);
    }
  }

  lemma {:induction false} EighteenBits(k: nat)
    requires k <= 18
    ensures Longest(k) <= 110
  {
    if k > 0 {
      FromTopGrows(k - 1, 17);
      assert FromTop(17) == 95;
      EighteenBits(k - 1);
    }
  }

  /** A height that is itself a power of two. */
  lemma {:induction false} PowerSteps(k: nat, t: nat)
    requires t <= Exp2(k)
    ensures Steps(Exp2(k), t) <= 1 + FromTop(k)
  {
    hide Steps, FromTop;
    if t < Exp2(k) {
      ZeroAligned(k);
      ZeroAligned(k + 1);
      TopSteps(0, k, t);
      FromMiddle(0, k, t, FromTop(k));
    } else {
      Neighbours(t);
    }
  }

  /** As the comment has it: at most 110 turns up to a height of 2 to the 18th. */
  lemma {:induction false} Documented110(h: nat, t: nat)
    requires t <= h <= Exp2(18)
    ensures Steps(h, t) <= 110
  {
    hide Steps, Longest, Exp2;
    if h < Exp2(18) {
      StepsBound(h, t, 18);
      EighteenBits(18);
    } else {
      PowerSteps(18, t);
      assert FromTop(18) == 105;
    }
  }

  // ------------------------------------------------------------- and no fewer

  lemma {:induction false} MiddleExact(a: nat, m: nat, t: nat)
    requires Aligned(a, m + 1) && m >= 1 && a < t < a + Exp2(m)
    ensures Steps(a + Exp2(m), t) == 1 + Steps(a + Exp2(m) - 1, t)
  {
    hide Steps, SkipHeight, InvertLowestOne, Jump, Exp2, Aligned;
    MiddleSkip(a, m);
    Turn(a + Exp2(m), t);
    JumpFrom(a + Exp2(m), t, a, SkipHeight(a + Exp2(m) - 1));
  }

  lemma {:induction false} OddExact(a: nat, m: nat, t: nat, f: nat)
    requires Aligned(a, m + 1) && m >= 1 && 2 * f < Exp2(m) && a + 2 <= t < a + Exp2(m)
    ensures Steps(a + Exp2(m) + 2 * f + 1, t) == (Ones(f) + 1) / 2 + 2 + Steps(a + Exp2(m) - 1, t)
    decreases f
  {
    hide InvertLowestOne, SkipHeight, Steps, Ones, Jump, Exp2, Aligned;
    var w := a + Exp2(m) + 2 * f + 1;
    OddSkip(a, m, f);
    OddJump(a, m, t, f);
    Turn(w, t);
    NoOnes(f);
    if f == 0 {
      InvertLess(a);
      MiddleExact(a, m, t);
    } else if InvertLowestOne(f) == 0 {
      SingleJump(a, m, t, f);
      Turn(w - 1, t);
      MiddleExact(a, m, t);
      OnesInvert(f);
      NoOnes(0);
    } else {
      TwoCleared(f);
      OddExact(a, m, t, InvertLowestOne(InvertLowestOne(f)));
    }
  }

  lemma {:induction false} EightExact(a: nat, m: nat, t: nat, y: nat)
    requires Aligned(a, m + 1) && m >= 1 && 8 * y < Exp2(m) && a < t < a + Exp2(m)
    ensures Steps(a + Exp2(m) + 8 * y, t) == Ones(y) + 1 + Steps(a + Exp2(m) - 1, t)
    decreases y
  {
    hide InvertLowestOne, Steps, Ones, Exp2, Aligned, Jump;
    if y == 0 {
      NoOnes(0);
      MiddleExact(a, m, t);
    } else {
      EightJump(a, m, t, y);
      OnesInvert(y);
      InvertLess(y);
      Turn(a + Exp2(m) + 8 * y, t);
      EightExact(a, m, t, InvertLowestOne(y));
    }
  }

  /** From the top of a block to height 2 it takes every one of those turns. */
  lemma {:induction false} TopReached(k: nat)
    requires k >= 3
    ensures Steps(Exp2(k) - 1, 2) == FromTop(k)
  {
    hide Steps, Ones, Aligned;
    ZeroAligned(k);
    OnesFull(k - 2);
    Grown(k - 1);
    OddExact(0, k - 1, 2, Exp2(k - 2) - 1);
    if k == 3 {
      Neighbours(2);
      assert Exp2(2) == 4;
    } else {
      TopReached(k - 1);
    }
  }

  lemma {:induction false} Grown(k: nat)
    requires k >= 2
    ensures Exp2(k) >= 4
  {
    if k > 2 {
      Grown(k - 1);
    }
  }

  /** The longest walk the comment speaks of takes 110 turns. */
  lemma {:induction false} Reached110()
    ensures Steps(Exp2(18) - 8, 2) == 110
  {
    hide Steps, Ones, Aligned, Exp2;
    ZeroAligned(18);
    Wide(17);
    Wide(18);
    Grown(17);
    OnesFull(14);
    EightExact(0, 17, 2, Exp2(14) - 1);
    TopReached(17);
    assert FromTop(17) == 95;
  }
}
