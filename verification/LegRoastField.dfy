/** Arithmetic modulo the Mersenne prime p = 2^127 - 1 on 128-bit words, as LegRoast
    does it: words wrap at 2^128, are kept only congruent to the intended value, and
    are brought into [0, p) on demand. */
module LegRoastField {
  import opened Numbers

  const TWO128 := 0x1_0000_0000_0000_0000_0000_0000_0000_0000
  const P := 0x7FFF_FFFF_FFFF_FFFF_FFFF_FFFF_FFFF_FFFF

  /** An unsigned 128-bit word. */
  type U128 = x: int | 0 <= x < TWO128

  /** Congruence modulo p. */
  ghost predicate Cong(x: int, y: int) {
    x % P == y % P
  }

  // ---------------------------------------------------------------- congruences

  lemma CongShift(x: int, y: int, k: int)
    requires x == y + k * P
    ensures Cong(x, y)
  {
  }

  lemma CongRefl(x: int)
    ensures Cong(x, x) && Cong(x % P, x)
  {
  }

  lemma CongMod(x: int, y: int)
    requires Cong(x, y)
    ensures x % P == y % P
  {
  }

  lemma CongTrans(x: int, y: int, z: int)
    requires Cong(x, y) && Cong(y, z)
    ensures Cong(x, z) && Cong(z, x)
  {
  }

  lemma CongAdd(a: int, a': int, b: int, b': int)
    requires Cong(a, a') && Cong(b, b')
    ensures Cong(a + b, a' + b') && Cong(a - b, a' - b')
  {
    var k, l := a / P - a' / P, b / P - b' / P;
    assert a == a' + k * P && b == b' + l * P;
    CongShift(a + b, a' + b', k + l);
    CongShift(a - b, a' - b', k - l);
  }

  lemma CongMul(a: int, a': int, b: int, b': int)
    requires Cong(a, a') && Cong(b, b')
    ensures Cong(a * b, a' * b')
  {
    var k, l := a / P - a' / P, b / P - b' / P;
    assert a == a' + k * P && b == b' + l * P;
    calc {
      a * b;
      (a' + k * P) * b;
      a' * b + k * P * b;
      a' * (b' + l * P) + k * P * b;
      a' * b' + a' * (l * P) + k * P * b;
      { assert a' * (l * P) == (a' * l) * P; assert k * P * b == (k * b) * P; }
      a' * b' + (a' * l + k * b) * P;
    }
    CongShift(a * b, a' * b', a' * l + k * b);
  }

  // ------------------------------------------------------- words, as the code computes them

  /** The low 128 bits of a natural number. */
  function Wrap(x: nat): U128 {
    x % TWO128
  }

  lemma WrapSmall(x: nat)
    requires x < TWO128
    ensures Wrap(x) == x
  {
  }

  lemma WrapOnce(x: nat)
    requires TWO128 <= x < 2 * TWO128
    ensures Wrap(x) == x - TWO128
  {
  }

  lemma CarryIsTwo(x: int)
    ensures Cong(x % P + 2, x + TWO128)
  {
    CongShift(x + TWO128, x + 2, 2);
  }

  /** reduce_mod_p */
  method ReduceModP(a: U128) returns (r: U128)
    ensures r == a % P
    ensures Cong(r, a)
  {
    r := a;
    while r >= P
      invariant Cong(r, a)
    {
      r := r - P;
    }
  }

  /** add_mod_p: a wrapped sum has lost 2^128, which is congruent to 2. */
  method AddModP(a: U128, b: U128) returns (r: U128)
    ensures Cong(r, a + b)
  {
    r := Wrap(a + b);
    if a + b < TWO128 {
      WrapSmall(a + b);
    } else {
      WrapOnce(a + b);
      CarryIsTwo(a + b - TWO128);
    }
    if r < b {
      r := ReduceModP(r);
      WrapSmall(r + 2);
      r := Wrap(r + 2);
    }
  }

  lemma MulBound(x: nat, y: nat, ux: nat, uy: nat)
    requires x <= ux && y <= uy
    ensures 0 <= x * y <= ux * uy
  {
    assert x * y <= ux * y;
    assert ux * y <= ux * uy;
  }

  lemma SchoolBook(ha: int, la: int, hb: int, lb: int)
    ensures (ha * TWO64 + la) * (hb * TWO64 + lb) == (ha * hb) * TWO128 + (la * hb + lb * ha) * TWO64 + la * lb
  {
    var x := hb * TWO64 + lb;
    assert (ha * TWO64 + la) * x == (ha * TWO64) * x + la * x;
    assert (ha * TWO64) * x == (ha * x) * TWO64;
    assert ha * x == (ha * hb) * TWO64 + ha * lb;
    assert la * x == (la * hb) * TWO64 + la * lb;
  }

  /** The limb products of two reduced words stay within 128 bits. */
  lemma LimbBounds(la: nat, ha: nat, lb: nat, hb: nat)
    requires la < TWO64 && lb < TWO64 && ha < TWO64 / 2 && hb < TWO64 / 2
    ensures 0 <= la * lb < TWO128
    ensures 0 <= la * hb && 0 <= lb * ha && la * hb + lb * ha < TWO128
    ensures 0 <= ha * hb
    ensures (ha * hb + (la * hb + lb * ha) / TWO64) * 2 < TWO128
  {
    ProductBounds(la, ha, lb, hb);
    CarryFits(la * hb + lb * ha, ha * hb);
  }

  lemma CarryFits(mid: nat, hh: nat)
    requires mid < TWO128 && hh <= (TWO64 / 2 - 1) * (TWO64 / 2 - 1)
    ensures (hh + mid / TWO64) * 2 < TWO128
  {
    assert mid / TWO64 < TWO64;
  }

  lemma ProductBounds(la: nat, ha: nat, lb: nat, hb: nat)
    requires la < TWO64 && lb < TWO64 && ha < TWO64 / 2 && hb < TWO64 / 2
    ensures 0 <= la * lb < TWO128
    ensures 0 <= la * hb && 0 <= lb * ha && la * hb + lb * ha < TWO128
    ensures 0 <= ha * hb <= (TWO64 / 2 - 1) * (TWO64 / 2 - 1)
  {
    MulBound(la, lb, TWO64 - 1, TWO64 - 1);
    MulBound(la, hb, TWO64 - 1, TWO64 / 2 - 1);
    MulBound(lb, ha, TWO64 - 1, TWO64 / 2 - 1);
    MulBound(ha, hb, TWO64 / 2 - 1, TWO64 / 2 - 1);
  }

  /** Folding the high half of a product back in: 2^128 is congruent to 2. */
  lemma FoldHigh(ll: int, mid: int, hh: int)
    ensures Cong(ll + (hh + mid / TWO64) * 2 + mid % TWO64 * TWO64, hh * TWO128 + mid * TWO64 + ll)
  {
    var t := hh + mid / TWO64;
    assert mid == mid / TWO64 * TWO64 + mid % TWO64;
    CongShift(hh * TWO128 + mid * TWO64 + ll, ll + t * 2 + mid % TWO64 * TWO64, 2 * t);
  }

  lemma WrapShift64(x: U128)
    ensures Wrap(x * TWO64) == x % TWO64 * TWO64
  {
    assert x * TWO64 == x / TWO64 * TWO128 + x % TWO64 * TWO64;
  }

  /** The partial words lose nothing except, on purpose, the high half of the middle
      product, which was already carried over. */
  lemma WordsFit(ll: nat, m1: nat, m2: nat, hh: nat)
    requires ll < TWO128 && m1 + m2 < TWO128 && (hh + (m1 + m2) / TWO64) * 2 < TWO128
    ensures
      var mid := Wrap(Wrap(m1) + Wrap(m2));
      Cong(Wrap(ll) + Wrap(Wrap(Wrap(hh) + mid / TWO64) * 2) + Wrap(mid * TWO64),
           hh * TWO128 + (m1 + m2) * TWO64 + ll)
  {
    hide Wrap, Cong;
    var mid := m1 + m2;
    WrapSmall(ll);
    WrapSmall(m1);
    WrapSmall(m2);
    WrapSmall(mid);
    WrapSmall(hh);
    WrapSmall(hh + mid / TWO64);
    WrapSmall((hh + mid / TWO64) * 2);
    WrapShift64(mid);
    FoldHigh(ll, mid, hh);
  }

  /** The three partial words of a product, as mul_add_mod_p and square_mod_p form them. */
  method PartialWords(la: U128, ha: U128, lb: U128, hb: U128) returns (out0: U128, out127: U128, out64: U128)
    requires la < TWO64 && lb < TWO64 && ha < TWO64 / 2 && hb < TWO64 / 2
    ensures Cong(out0 as int + out127 as int + out64 as int, (ha * TWO64 + la) * (hb * TWO64 + lb))
  {
    hide Wrap, Cong;
    LimbBounds(la, ha, lb, hb);
    var ll, m1, m2, hh := la * lb, la * hb, lb * ha, ha * hb;
    WordsFit(ll, m1, m2, hh);
    SchoolBook(ha, la, hb, lb);
    out0 := Wrap(ll);
    out64 := Wrap(Wrap(m1) + Wrap(m2));
    out127 := Wrap(Wrap(Wrap(hh) + out64 / TWO64) * 2);
    out64 := Wrap(out64 * TWO64);
  }

  /** Three word additions in a row. */
  method AddThree(out0: U128, x: U128, y: U128, z: U128) returns (out: U128)
    ensures Cong(out, out0 as int + (x as int + y as int + z as int))
  {
    hide Cong;
    var r := AddModP(out0, x);
    var s := AddModP(r, y);
    out := AddModP(s, z);
    CongRefl(y);
    CongRefl(z);
    CongAdd(r, out0 + x, y, y);
    CongTrans(s, r + y, out0 + x + y);
    CongAdd(s, out0 + x + y, z, z);
    CongTrans(out, s + z, out0 + x + y + z);
    assert (out0 as int) + x + y + z == (out0 as int) + (x as int + y as int + z as int);
  }

  /** The partial words of a square: the middle product is doubled by a shift. */
  method SquareWords(la: U128, ha: U128) returns (out0: U128, out127: U128, out64: U128)
    requires la < TWO64 && ha < TWO64 / 2
    ensures Cong(out0 as int + out127 as int + out64 as int, (ha * TWO64 + la) * (ha * TWO64 + la))
  {
    hide Wrap, Cong;
    LimbBounds(la, ha, la, ha);
    var ll, m, hh := la * la, la * ha, ha * ha;
    WordsFit(ll, m, m, hh);
    SchoolBook(ha, la, ha, la);
    out0 := Wrap(ll);
    out64 := Wrap(Wrap(m) * 2);
    out127 := Wrap(Wrap(Wrap(hh) + out64 / TWO64) * 2);
    out64 := Wrap(out64 * TWO64);
  }

  /** square_mod_p: also leaves its operand reduced. */
  method SquareModP(a: U128) returns (out: U128, a': U128)
    ensures Cong(out, a * a)
    ensures a' == a % P
  {
    hide Cong;
    a' := ReduceModP(a);
    var out0, out127, out64 := SquareWords(a' % TWO64, a' / TWO64);
    out := AddThree(out0, out127, out64, 0);
    CongMul(a', a, a', a);
    CongTrans(out, out0 as int + out127 as int + out64 as int, a' * a');
    CongTrans(out, a' * a', a * a);
  }

  /** mul_add_mod_p: out += a * b, leaving a and b reduced. */
  method MulAddModP(out0: U128, a: U128, b: U128) returns (out: U128, a': U128, b': U128)
    ensures Cong(out, out0 + a * b)
    ensures a' == a % P && b' == b % P
  {
    hide Wrap, Cong;
    a' := ReduceModP(a);
    b' := ReduceModP(b);
    var low, out127, out64 := PartialWords(a' % TWO64, a' / TWO64, b' % TWO64, b' / TWO64);
    out := AddThree(out0, low, out127, out64);
    ghost var parts: int := low as int + out127 as int + out64 as int;
    CongMul(a', a, b', b);
    CongTrans(parts, a' * b', a * b);
    CongRefl(out0);
    CongAdd(out0, out0, parts, a * b);
    CongTrans(out, out0 + parts, out0 + a * b);
  }

  // ------------------------------------------------------------- the Legendre symbol

  ghost function Pow(a: int, e: nat): int {
    if e == 0 then 1 else a * Pow(a, e - 1)
  }

  lemma {:induction false} PowAdd(a: int, x: nat, y: nat)
    ensures Pow(a, x + y) == Pow(a, x) * Pow(a, y)
  {
    if x > 0 {
      PowAdd(a, x - 1, y);
      assert Pow(a, x + y) == a * Pow(a, x - 1 + y);
      assert a * (Pow(a, x - 1) * Pow(a, y)) == (a * Pow(a, x - 1)) * Pow(a, y);
    }
  }

  lemma Shuffle(a: int, b: int, x: int, y: int)
    ensures (a * b) * (x * y) == (a * x) * (b * y)
  {
    assert (a * b) * (x * y) == a * (b * (x * y));
    assert b * (x * y) == x * (b * y);
    assert a * (x * (b * y)) == (a * x) * (b * y);
  }

  lemma {:induction false} PowMul(a: int, b: int, e: nat)
    ensures Pow(a * b, e) == Pow(a, e) * Pow(b, e)
  {
    if e > 0 {
      PowMul(a, b, e - 1);
      Shuffle(a, b, Pow(a, e - 1), Pow(b, e - 1));
    }
  }

  lemma {:induction false} PowCong(a: int, b: int, e: nat)
    requires Cong(a, b)
    ensures Cong(Pow(a, e), Pow(b, e))
  {
    if e > 0 {
      PowCong(a, b, e - 1);
      CongMul(a, b, Pow(a, e - 1), Pow(b, e - 1));
    }
  }

  /** The number written with k one bits: 2^k - 1. Ones(126) is (p - 1) / 2. */
  ghost function Ones(k: nat): nat {
    if k == 0 then 0 else 2 * Ones(k - 1) + 1
  }

  lemma OnesBySix(k: nat)
    ensures Ones(k + 6) == 64 * Ones(k) + 63
    ensures Ones(6) == 63
  {
    assert Ones(k + 2) == 4 * Ones(k) + 3;
    assert Ones(k + 4) == 4 * Ones(k + 2) + 3;
    assert Ones(k + 6) == 4 * Ones(k + 4) + 3;
    assert Ones(3) == 7;
  }

  /** y is congruent to the square of something congruent to a^e. */
  lemma Squared(a: int, e: nat, x: int, y: int)
    requires Cong(x, Pow(a, e)) && Cong(y, x * x)
    ensures Cong(y, Pow(a, 2 * e))
  {
    CongMul(x, Pow(a, e), x, Pow(a, e));
    PowAdd(a, e, e);
    assert e + e == 2 * e;
  }

  lemma Multiplied(a: int, e: nat, f: nat, x: int, y: int, z: int)
    requires Cong(x, Pow(a, e)) && Cong(y, Pow(a, f)) && Cong(z, x * y)
    ensures Cong(z, Pow(a, e + f))
  {
    CongMul(x, Pow(a, e), y, Pow(a, f));
    PowAdd(a, e, f);
  }

  /** One short link of the addition chain: square, then multiply by a. */
  method ShortLink(out: U128, a: U128, ghost x: int, ghost k: nat) returns (next: U128, a': U128)
    requires Cong(a, x) && Cong(out, Pow(x, Ones(k)))
    ensures Cong(next, Pow(x, Ones(k + 1)))
    ensures a' == a % P && Cong(a', x)
  {
    hide Cong;
    var temp, _ := SquareModP(out);
    Squared(x, Ones(k), out, temp);
    var sq := temp;
    next, temp, a' := MulAddModP(0, sq, a);
    Multiplied(x, 2 * Ones(k), 1, sq, a, next);
    CongTrans(a', a, x);
  }

  /** One long link: six squarings, then multiply by the word holding x^63. */
  method LongLink(out: U128, word: U128, ghost x: int, ghost k: nat) returns (next: U128, word': U128)
    requires Cong(out, Pow(x, Ones(k))) && Cong(word, Pow(x, Ones(6)))
    ensures Cong(next, Pow(x, Ones(k + 6))) && Cong(word', Pow(x, Ones(6)))
  {
    hide Cong;
    var temp := out;
    ghost var e := Ones(k);
    for i := 0 to 6
      invariant e == (if i == 0 then 1 else if i == 1 then 2 else if i == 2 then 4 else
                      if i == 3 then 8 else if i == 4 then 16 else if i == 5 then 32 else 64) * Ones(k)
      invariant Cong(temp, Pow(x, e))
    {
      var square, _ := SquareModP(temp);
      Squared(x, e, temp, square);
      temp, e := square, 2 * e;
    }
    OnesBySix(k);
    var sixth;
    next, sixth, word' := MulAddModP(0, temp, word);
    Multiplied(x, e, 63, temp, word, next);
    CongRefl(word);
    CongTrans(word', word, Pow(x, Ones(6)));
  }

  /** The byte (-out + 1) / 2 of a reduced power, in wrapping 128-bit arithmetic. */
  function SymbolByte(out: U128): (s: int)
    ensures out == 1 || out == 0 ==> s == 0
    ensures out == P - 1 ==> s == 1
  {
    Wrap(Wrap(TWO128 - out) + 1) / 2 % 256
  }

  /** legendre_symbol_ct: the addition chain raises to 2^126 - 1 and the operand is left reduced. */
  method LegendreSymbolCt(a: U128) returns (s: int, a': U128)
    ensures s == SymbolByte(Pow(a, Ones(126)) % P)
    ensures a' == a % P
  {
    hide Cong;
    CongRefl(a);
    var out := a;
    a' := a;
    assert Pow(a, Ones(1)) == a;
    for i := 0 to 5
      invariant Cong(a', a) && Cong(out, Pow(a, Ones(i + 1)))
      invariant i > 0 ==> a' == a % P
    {
      CongMod(a', a);
      out, a' := ShortLink(out, a', a, i + 1);
    }
    var word := out;
    for i := 0 to 20
      invariant Cong(word, Pow(a, Ones(6))) && Cong(out, Pow(a, Ones(6 * i + 6)))
    {
      out, word := LongLink(out, word, a, 6 * i + 6);
    }
    CongMod(out, Pow(a, Ones(126)));
    out := ReduceModP(out);
    s := SymbolByte(out);
  }
}
