/** The number theory under LegRoast: 2^127 - 1 is prime (a Lucas-Lehmer test, with its
    sufficiency proved), so every nonzero residue raised to (p - 1) / 2 is 1 or -1. */
module MersennePrime {
  import opened Counting
  import opened Numbers
  import opened LegRoastField

  // ----------------------------------------------------------------- divisibility

  ghost predicate Divides(m: int, x: int) {
    exists k: int :: Times(k, m) == x
  }

  ghost function Times(k: int, m: int): int {
    k * m
  }

  lemma DividesBy(m: int, k: int)
    ensures Divides(m, k * m)
  {
    assert Times(k, m) == k * m;
  }

  lemma DividesSum(m: int, x: int, y: int)
    requires Divides(m, x) && Divides(m, y)
    ensures Divides(m, x + y) && Divides(m, x - y)
  {
    var k: int :| Times(k, m) == x;
    var l: int :| Times(l, m) == y;
    assert (k + l) * m == x + y;
    assert (k - l) * m == x - y;
    DividesBy(m, k + l);
    DividesBy(m, k - l);
  }

  lemma DividesScale(m: int, x: int, c: int)
    requires Divides(m, x)
    ensures Divides(m, c * x)
  {
    var k: int :| Times(k, m) == x;
    assert (c * k) * m == c * x;
    DividesBy(m, c * k);
  }

  lemma DividesModP(x: int)
    ensures Divides(P, x) <==> x % P == 0
  {
    if x % P == 0 {
      assert x == (x / P) * P;
      DividesBy(P, x / P);
    }
    if Divides(P, x) {
      var k: int :| Times(k, P) == x;
    }
  }

  lemma MultipleTooBig(m: int, k: int)
    requires m > 0 && k != 0
    ensures k * m >= m || k * m <= -m
  {
    if k >= 1 {
      MulBound(k - 1, m, k - 1, m);
      assert k * m == (k - 1) * m + m;
    } else {
      MulBound(-1 - k, m, -1 - k, m);
      assert k * m == -((-1 - k) * m) - m;
    }
  }

  lemma SmallMultiple(m: int, x: int)
    requires m > 0 && -m < x < m && Divides(m, x)
    ensures x == 0
  {
    var k: int :| Times(k, m) == x;
    if k != 0 {
      MultipleTooBig(m, k);
    }
  }

  ghost predicate Prime(m: int) {
    m > 1 && forall d :: 1 < d < m ==> !Divides(d, m)
  }

  lemma Descent(m: int, u: int, v: int)
    requires 0 < u && Divides(m, u * v)
    ensures Divides(m, (m % u) * v)
  {
    var q, r := m / u, m % u;
    assert m == q * u + r;
    DividesBy(m, v);
    DividesScale(m, u * v, q);
    DividesSum(m, v * m, q * (u * v));
    assert v * m == v * (q * u) + v * r;
    assert v * (q * u) == q * (u * v);
    assert v * r == r * v;
  }

  /** Euclid's lemma, by the descent m = (m / u) * u + m % u. */
  lemma {:induction false} Euclid(m: int, u: int, v: int)
    requires Prime(m) && 0 < u < m && Divides(m, u * v)
    ensures Divides(m, v)
    decreases u
  {
    if u > 1 {
      if m % u == 0 {
        DividesBy(u, m / u);
        assert false;
      }
      Descent(m, u, v);
      Euclid(m, m % u, v);
    }
  }

  // -------------------------------------------------------- powers of 2 + sqrt(3)

  /** x + y * sqrt(3) */
  datatype Quad = Quad(x: int, y: int)

  ghost function Mul(a: Quad, b: Quad): Quad {
    Quad(a.x * b.x + 3 * (a.y * b.y), a.x * b.y + a.y * b.x)
  }

  /** (2 + sqrt(3))^n */
  ghost function Omega(n: nat): Quad {
    if n == 0 then Quad(1, 0) else Mul(Quad(2, 1), Omega(n - 1))
  }

  lemma Dist(a: int, b: int, c: int, d: int, e: int)
    ensures (a * b + 3 * (c * d)) * e == a * (b * e) + 3 * (c * (d * e))
    ensures (a * b + c * d) * e == a * (b * e) + c * (d * e)
  {
    assert (a * b) * e == a * (b * e);
    assert (c * d) * e == c * (d * e);
  }

  lemma Dist2(a: int, b: int, c: int, d: int, e: int)
    ensures a * (b * c + 3 * (d * e)) == a * (b * c) + 3 * (a * (d * e))
    ensures a * (b * c + d * e) == a * (b * c) + a * (d * e)
  {
  }

  lemma MulAssoc(a: Quad, b: Quad, c: Quad)
    ensures Mul(Mul(a, b), c) == Mul(a, Mul(b, c))
  {
    Dist(a.x, b.x, a.y, b.y, c.x);
    Dist(a.x, b.y, a.y, b.x, c.y);
    Dist(a.x, b.x, a.y, b.y, c.y);
    Dist(a.x, b.y, a.y, b.x, c.x);
    Dist2(a.x, b.x, c.x, b.y, c.y);
    Dist2(a.y, b.x, c.y, b.y, c.x);
    Dist2(a.x, b.x, c.y, b.y, c.x);
    Dist2(a.y, b.x, c.x, b.y, c.y);
  }

  lemma OneTimes(a: Quad)
    ensures Mul(Quad(1, 0), a) == a
  {
  }

  lemma {:induction false} OmegaAdd(m: nat, n: nat)
    ensures Omega(m + n) == Mul(Omega(m), Omega(n))
  {
    if m == 0 {
      OneTimes(Omega(n));
    } else {
      OmegaAdd(m - 1, n);
      hide Mul, Omega;
      OmegaStep(m + n);
      OmegaStep(m);
      MulAssoc(Quad(2, 1), Omega(m - 1), Omega(n));
    }
  }

  lemma OmegaStep(n: nat)
    requires n > 0
    ensures Omega(n) == Mul(Quad(2, 1), Omega(n - 1))
    ensures Omega(n) == Quad(2 * Omega(n - 1).x + 3 * Omega(n - 1).y, 2 * Omega(n - 1).y + Omega(n - 1).x)
  {
  }

  lemma NormStep(x: int, y: int)
    ensures (2 * x + 3 * y) * (2 * x + 3 * y) - 3 * ((2 * y + x) * (2 * y + x)) == x * x - 3 * (y * y)
  {
    var a, b := 2 * x + 3 * y, 2 * y + x;
    assert a * a == 2 * (x * a) + 3 * (y * a);
    assert x * a == 2 * (x * x) + 3 * (x * y);
    assert y * a == 2 * (x * y) + 3 * (y * y);
    assert b * b == 2 * (y * b) + x * b;
    assert y * b == 2 * (y * y) + x * y;
    assert x * b == 2 * (x * y) + x * x;
  }

  /** 2 + sqrt(3) is a unit: its norm is 1. */
  lemma {:induction false} OmegaNorm(n: nat)
    ensures Omega(n).x * Omega(n).x - 3 * (Omega(n).y * Omega(n).y) == 1
  {
    if n > 0 {
      OmegaNorm(n - 1);
      OmegaStep(n);
      hide Omega;
      NormStep(Omega(n - 1).x, Omega(n - 1).y);
    }
  }

  /** Squaring: (X + Y sqrt(3))^2 = (2 X^2 - 1) + 2 X Y sqrt(3). */
  lemma OmegaDouble(n: nat)
    ensures Omega(2 * n).x == 2 * (Omega(n).x * Omega(n).x) - 1
    ensures Omega(2 * n).y == 2 * (Omega(n).x * Omega(n).y)
  {
    OmegaAdd(n, n);
    OmegaNorm(n);
    assert n + n == 2 * n;
    hide Omega;
  }

  lemma Conjugate(x: int, y: int)
    ensures Mul(Quad(x, y), Quad(x, -y)) == Quad(x * x - 3 * (y * y), 0)
  {
    assert y * -y == -(y * y);
    assert x * -y == -(y * x);
  }

  lemma OmegaInverse(n: nat)
    ensures Mul(Omega(n), Quad(Omega(n).x, -Omega(n).y)) == Quad(1, 0)
  {
    hide Omega, Mul;
    OmegaNorm(n);
    Conjugate(Omega(n).x, Omega(n).y);
  }

  // ----------------------------------------------------------------- Lucas-Lehmer

  lemma {:induction false} Twofold(a: int, b: int)
    ensures 2 * (a * b) == (2 * a) * b
  {
  }

  lemma {:induction false} Exp2Add(j: nat, k: nat)
    ensures Exp2(j + k) == Exp2(j) * Exp2(k)
  {
    if j > 0 {
      Exp2Add(j - 1, k);
      Twofold(Exp2(j - 1), Exp2(k));
    }
  }

  lemma Exp2Step(k: nat)
    ensures Exp2(0) == 1 && Exp2(k + 1) == 2 * Exp2(k)
  {
  }

  lemma Exp2Double(k: nat, v: int)
    requires Exp2(k) == v
    ensures Exp2(2 * k) == v * v
  {
    Exp2Add(k, k);
    assert k + k == 2 * k;
  }

  lemma Exp2Of127()
    ensures Exp2(127) == P + 1
  {
    Exp2Step(127);
    Exp2Step(0);
    hide Exp2;
    Exp2Double(1, 2);
    Exp2Double(2, 4);
    Exp2Double(4, 16);
    Exp2Double(8, 0x100);
    Exp2Double(16, 0x1_0000);
    Exp2Double(32, 0x1_0000_0000);
    Exp2Double(64, TWO64);
  }

  /** k steps of the Lucas-Lehmer iteration, halved: x becomes 2 x^2 - 1 modulo p. */
  ghost function Lehmer(x: int, k: nat): int
    decreases k
  {
    if k == 0 then x else Lehmer((2 * (x * x) - 1) % P, k - 1)
  }

  lemma LehmerStep(x: int, y: int, k: nat)
    requires k > 0 && (2 * (x * x) - 1) % P == y
    ensures Lehmer(x, k) == Lehmer(y, k - 1)
  {
  }

  lemma LehmerRun1()
    ensures Lehmer(0x2, 125) == Lehmer(0x52DF95D0F89498FE7E6D08E569FA0FEE, 100)
  {
    hide Lehmer;
    LehmerStep(0x2, 0x7, 125);
    LehmerStep(0x7, 0x61, 124);
    LehmerStep(0x61, 0x4981, 123);
    LehmerStep(0x4981, 0x2A35A601, 122);
    LehmerStep(0x2A35A601, 0xDEB4B6CF81E9801, 121);
    LehmerStep(0xDEB4B6CF81E9801, 0x1837BD942F756BEC6644203D4FA6001, 120);
    LehmerStep(0x1837BD942F756BEC6644203D4FA6001, 0x77C85F0222458922D69F835B2F2CA477, 119);
    LehmerStep(0x77C85F0222458922D69F835B2F2CA477, 0x46BF0F4934F897F652D507962F66A056, 118);
    LehmerStep(0x46BF0F4934F897F652D507962F66A056, 0x20501B3A93822BB9977527017FF8841E, 117);
    LehmerStep(0x20501B3A93822BB9977527017FF8841E, 0x6BD03881BE29D5F9AB6C06D2B52F43F4, 116);
    LehmerStep(0x6BD03881BE29D5F9AB6C06D2B52F43F4, 0x52CC8A65F3799DB23DDD0F8A7739F3FD, 115);
    LehmerStep(0x52CC8A65F3799DB23DDD0F8A7739F3FD, 0x7C6FCDC004D54DD95FD2EC7D57B45BC2, 114);
    LehmerStep(0x7C6FCDC004D54DD95FD2EC7D57B45BC2, 0x2376F1B3F83A64937F859093F82A2788, 113);
    LehmerStep(0x2376F1B3F83A64937F859093F82A2788, 0x28A0C313190CD8B903C6B84D38324CE0, 112);
    LehmerStep(0x28A0C313190CD8B903C6B84D38324CE0, 0xBEFEBA68726545ABB16054424CEFABC, 111);
    LehmerStep(0xBEFEBA68726545ABB16054424CEFABC, 0xF3C4B226CDB705FB861612912FB0017, 110);
    LehmerStep(0xF3C4B226CDB705FB861612912FB0017, 0x23645AE389CACE8B1E32149745FAD9C6, 109);
    LehmerStep(0x23645AE389CACE8B1E32149745FAD9C6, 0x365A440303DA0CEB38DA674C7468E35D, 108);
    LehmerStep(0x365A440303DA0CEB38DA674C7468E35D, 0x7E1EBF9A973021C46BEF80AA8D40C2E, 107);
    LehmerStep(0x7E1EBF9A973021C46BEF80AA8D40C2E, 0x3BC6F76EF757117D4CE9A0D550431E1B, 106);
    LehmerStep(0x3BC6F76EF757117D4CE9A0D550431E1B, 0x13E33BF4AD08C5840A8E2EA22ED86010, 105);
    LehmerStep(0x13E33BF4AD08C5840A8E2EA22ED86010, 0x38FC0A0996B1F132B733D6E75628A605, 104);
    LehmerStep(0x38FC0A0996B1F132B733D6E75628A605, 0x23C3F5033711B51F480FC73BA909C8DA, 103);
    LehmerStep(0x23C3F5033711B51F480FC73BA909C8DA, 0x654EA6F7EBF9F0C4D122902022D5414, 102);
    LehmerStep(0x654EA6F7EBF9F0C4D122902022D5414, 0x52DF95D0F89498FE7E6D08E569FA0FEE, 101);
  }

  lemma LehmerRun2()
    ensures Lehmer(0x52DF95D0F89498FE7E6D08E569FA0FEE, 100) == Lehmer(0x2576691F8F0072A3B59D840E03ADCF9B, 75)
  {
    hide Lehmer;
    LehmerStep(0x52DF95D0F89498FE7E6D08E569FA0FEE, 0x364B1B134894519A4311C67D62AF645B, 100);
    LehmerStep(0x364B1B134894519A4311C67D62AF645B, 0x7135B8351F078F1FB73FE7DC965B793C, 99);
    LehmerStep(0x7135B8351F078F1FB73FE7DC965B793C, 0x66918FACE891B90A91DBDE20AC03C6D9, 98);
    LehmerStep(0x66918FACE891B90A91DBDE20AC03C6D9, 0x6AB2B4DBFD5DB2ECCD77A94A163846D1, 97);
    LehmerStep(0x6AB2B4DBFD5DB2ECCD77A94A163846D1, 0x404ED81B4311EAF8111A614E7BDB1A32, 96);
    LehmerStep(0x404ED81B4311EAF8111A614E7BDB1A32, 0x2531305123255B821934F2F9FCCE6C90, 95);
    LehmerStep(0x2531305123255B821934F2F9FCCE6C90, 0x6B513AB1595D9960256883A5BE017EB8, 94);
    LehmerStep(0x6B513AB1595D9960256883A5BE017EB8, 0x574BDAE8A8B0366A793B666916ED7A55, 93);
    LehmerStep(0x574BDAE8A8B0366A793B666916ED7A55, 0x3D06B1F5D52301B9C710086C78FB05C9, 92);
    LehmerStep(0x3D06B1F5D52301B9C710086C78FB05C9, 0x33FE4D910EB2B1D91A953F71251CF87D, 91);
    LehmerStep(0x33FE4D910EB2B1D91A953F71251CF87D, 0x4C1824B6FDFF6BFA831D52488BE3B7F, 90);
    LehmerStep(0x4C1824B6FDFF6BFA831D52488BE3B7F, 0x6893F9C5A6FEF366842EFFED672C9F79, 89);
    LehmerStep(0x6893F9C5A6FEF366842EFFED672C9F79, 0x678B6449C5757D4F468D29E341A506A8, 88);
    LehmerStep(0x678B6449C5757D4F468D29E341A506A8, 0x437E7E6D3B2D5F8A91A83BD8765FB61D, 87);
    LehmerStep(0x437E7E6D3B2D5F8A91A83BD8765FB61D, 0x487AEA7335391FB2B08EB6C8A10CB783, 86);
    LehmerStep(0x487AEA7335391FB2B08EB6C8A10CB783, 0x76AACC0CB7D09F5BB6BDA05FD6D19D07, 85);
    LehmerStep(0x76AACC0CB7D09F5BB6BDA05FD6D19D07, 0x11F5ABEF1B5EA9BB013083B9C44EB8A, 84);
    LehmerStep(0x11F5ABEF1B5EA9BB013083B9C44EB8A, 0x4E2212F2FF8D96C359E4A0BC05869446, 83);
    LehmerStep(0x4E2212F2FF8D96C359E4A0BC05869446, 0x73DBCE0129D6BD36DA4BF3F47B39419B, 82);
    LehmerStep(0x73DBCE0129D6BD36DA4BF3F47B39419B, 0x556C395ACCEE27245BAEAD183A700909, 81);
    LehmerStep(0x556C395ACCEE27245BAEAD183A700909, 0x4C92C32C5B3ABAA60B8B943C83CFEA02, 80);
    LehmerStep(0x4C92C32C5B3ABAA60B8B943C83CFEA02, 0x2842E056392CF84F4154C6CFBCCBC348, 79);
    LehmerStep(0x2842E056392CF84F4154C6CFBCCBC348, 0x54384323AE98F36967653E772B058BE3, 78);
    LehmerStep(0x54384323AE98F36967653E772B058BE3, 0x51B77ACCF255EB013BA4764E3242FF36, 77);
    LehmerStep(0x51B77ACCF255EB013BA4764E3242FF36, 0x2576691F8F0072A3B59D840E03ADCF9B, 76);
  }

  lemma LehmerRun3()
    ensures Lehmer(0x2576691F8F0072A3B59D840E03ADCF9B, 75) == Lehmer(0x7206B806321DA944EB761EC96B64DF2, 50)
  {
    hide Lehmer;
    LehmerStep(0x2576691F8F0072A3B59D840E03ADCF9B, 0x5ACE812037E1C86434563C0016794232, 75);
    LehmerStep(0x5ACE812037E1C86434563C0016794232, 0x6318CEE16BB52E7D5FDBF9A69E9CCE72, 74);
    LehmerStep(0x6318CEE16BB52E7D5FDBF9A69E9CCE72, 0x6D399B199C9752B905A11DC913CA50D8, 73);
    LehmerStep(0x6D399B199C9752B905A11DC913CA50D8, 0x6C6612A74F38D88A7941D77B03F943FD, 72);
    LehmerStep(0x6C6612A74F38D88A7941D77B03F943FD, 0xFF47E09D9FB0C5C3B163E60D1F1993, 71);
    LehmerStep(0xFF47E09D9FB0C5C3B163E60D1F1993, 0x36990B2EAC1300C1BD684EE64BEF1F11, 70);
    LehmerStep(0x36990B2EAC1300C1BD684EE64BEF1F11, 0x17B26C08A0BC7FCB6E0BCD65C270CFA3, 69);
    LehmerStep(0x17B26C08A0BC7FCB6E0BCD65C270CFA3, 0x5F421CA35FD45506374BEFC2B896E1AF, 68);
    LehmerStep(0x5F421CA35FD45506374BEFC2B896E1AF, 0x11B7D4513BC277F72FDB3A7C8092C42E, 67);
    LehmerStep(0x11B7D4513BC277F72FDB3A7C8092C42E, 0x8AF1AC3F277584CEA8C4162C3FC5898, 66);
    LehmerStep(0x8AF1AC3F277584CEA8C4162C3FC5898, 0x9EC89EDD858B5B51D495243A601141, 65);
    LehmerStep(0x9EC89EDD858B5B51D495243A601141, 0x36EB79BD8A1740DF80229D58EC97DE5D, 64);
    LehmerStep(0x36EB79BD8A1740DF80229D58EC97DE5D, 0x55D82F01AB55D759F72E988714659E22, 63);
    LehmerStep(0x55D82F01AB55D759F72E988714659E22, 0x600AEB18202950C1131CA94314F1433A, 62);
    LehmerStep(0x600AEB18202950C1131CA94314F1433A, 0x40D1CE34DBBE7F53B4C089CD4E66D7B1, 61);
    LehmerStep(0x40D1CE34DBBE7F53B4C089CD4E66D7B1, 0x75A8B26A44BED2EFBA14BF9A92946F47, 60);
    LehmerStep(0x75A8B26A44BED2EFBA14BF9A92946F47, 0x715833E59DF82AF2D983A8AF20E9B65B, 59);
    LehmerStep(0x715833E59DF82AF2D983A8AF20E9B65B, 0x48F3829357BDA07A82B6D60992072004, 58);
    LehmerStep(0x48F3829357BDA07A82B6D60992072004, 0x239E714DC9E19EA259C6C3F34077A157, 57);
    LehmerStep(0x239E714DC9E19EA259C6C3F34077A157, 0x4AE50C29EEA49055571DB2ADF58FAEBC, 56);
    LehmerStep(0x4AE50C29EEA49055571DB2ADF58FAEBC, 0x38DABF9CBE0A941B29A67EBC7333C258, 55);
    LehmerStep(0x38DABF9CBE0A941B29A67EBC7333C258, 0x5CBC7E33BF23C59178694AD309444833, 54);
    LehmerStep(0x5CBC7E33BF23C59178694AD309444833, 0x51F3C0FEAA92DE383B8C219F9B876B94, 53);
    LehmerStep(0x51F3C0FEAA92DE383B8C219F9B876B94, 0x273CEE818A40A6B17413D1F01ED4E854, 52);
    LehmerStep(0x273CEE818A40A6B17413D1F01ED4E854, 0x7206B806321DA944EB761EC96B64DF2, 51);
  }

  lemma LehmerRun4()
    ensures Lehmer(0x7206B806321DA944EB761EC96B64DF2, 50) == Lehmer(0x41A92A61E8E86E38B0B7CF48CB847043, 25)
  {
    hide Lehmer;
    LehmerStep(0x7206B806321DA944EB761EC96B64DF2, 0x7DE0350EF598D04FE92C5A15E928872C, 50);
    LehmerStep(0x7DE0350EF598D04FE92C5A15E928872C, 0x743B830F5356B98D6E42EA8D5D7F263, 49);
    LehmerStep(0x743B830F5356B98D6E42EA8D5D7F263, 0xA6EEE35E3DE0A19D856C81DA5B5D349, 48);
    LehmerStep(0xA6EEE35E3DE0A19D856C81DA5B5D349, 0x40DD7EFA4C509D3335E97ABF708DCDEA, 47);
    LehmerStep(0x40DD7EFA4C509D3335E97ABF708DCDEA, 0x37EC908F37B104A61BDE4501B3979A74, 46);
    LehmerStep(0x37EC908F37B104A61BDE4501B3979A74, 0x50CF74CBED0752275CA02C83641B3F13, 45);
    LehmerStep(0x50CF74CBED0752275CA02C83641B3F13, 0x6AFA1E0790386BCE65367168F8D6936D, 44);
    LehmerStep(0x6AFA1E0790386BCE65367168F8D6936D, 0x71C8A05F652DBBFD26D724050F1D9F73, 43);
    LehmerStep(0x71C8A05F652DBBFD26D724050F1D9F73, 0x1F2ECD8EB754F3425324E8CD814C56A9, 42);
    LehmerStep(0x1F2ECD8EB754F3425324E8CD814C56A9, 0x5F0D53BB9B3E5EBF0CBC22F861669D66, 41);
    LehmerStep(0x5F0D53BB9B3E5EBF0CBC22F861669D66, 0x5C742965A44FB849D5353581B468BBF9, 40);
    LehmerStep(0x5C742965A44FB849D5353581B468BBF9, 0x6EA320957111DBF071730CF63FA585B2, 39);
    LehmerStep(0x6EA320957111DBF071730CF63FA585B2, 0x5EF091BEB0213BAE466207171C84431E, 38);
    LehmerStep(0x5EF091BEB0213BAE466207171C84431E, 0x3423F22F3B57DF981D7084071ED18F02, 37);
    LehmerStep(0x3423F22F3B57DF981D7084071ED18F02, 0xE55E6EFA5DF37547207A2E818E56D2D, 36);
    LehmerStep(0xE55E6EFA5DF37547207A2E818E56D2D, 0x749891E9D73EB92FEAB5BCF3E1BDB606, 35);
    LehmerStep(0x749891E9D73EB92FEAB5BCF3E1BDB606, 0x625FFA49E0FE01364C43A6368E6EE655, 34);
    LehmerStep(0x625FFA49E0FE01364C43A6368E6EE655, 0x7FC43F144BC96AD9291BC4FAD0765531, 33);
    LehmerStep(0x7FC43F144BC96AD9291BC4FAD0765531, 0x3F948AC9E5F759E5EA8EB67FA28C09F2, 32);
    LehmerStep(0x3F948AC9E5F759E5EA8EB67FA28C09F2, 0x5C802731CE13FC214E5AD0F22768815F, 31);
    LehmerStep(0x5C802731CE13FC214E5AD0F22768815F, 0x52CA9C9658D2F6893149CF2F42386CAF, 30);
    LehmerStep(0x52CA9C9658D2F6893149CF2F42386CAF, 0x11B04EE8829378512FB30A9EFAA96A, 29);
    LehmerStep(0x11B04EE8829378512FB30A9EFAA96A, 0x3D941ACDA97CB83BCE47BA606A1EC42F, 28);
    LehmerStep(0x3D941ACDA97CB83BCE47BA606A1EC42F, 0x7F9A0C1AB4DC8894CFC5189C596005A5, 27);
    LehmerStep(0x7F9A0C1AB4DC8894CFC5189C596005A5, 0x41A92A61E8E86E38B0B7CF48CB847043, 26);
  }

  lemma LehmerRun5()
    ensures Lehmer(0x41A92A61E8E86E38B0B7CF48CB847043, 25) == Lehmer(0x0, 0)
  {
    hide Lehmer;
    LehmerStep(0x41A92A61E8E86E38B0B7CF48CB847043, 0x6966514A8D746493766D334ACDC1FF6E, 25);
    LehmerStep(0x6966514A8D746493766D334ACDC1FF6E, 0x1E7A8E8886E4F9B08F6DF60CBCDA08C, 24);
    LehmerStep(0x1E7A8E8886E4F9B08F6DF60CBCDA08C, 0x49E86FF564CEACC2F26D362EA38821EB, 23);
    LehmerStep(0x49E86FF564CEACC2F26D362EA38821EB, 0x62A0F148E9DC4682266E103BEE8DB156, 22);
    LehmerStep(0x62A0F148E9DC4682266E103BEE8DB156, 0x989F006FE88DCDA88FB696E4392006B, 21);
    LehmerStep(0x989F006FE88DCDA88FB696E4392006B, 0x55969C74D2BC71A1F770D6EEDB3C8B66, 20);
    LehmerStep(0x55969C74D2BC71A1F770D6EEDB3C8B66, 0x41BDB31728EF3D14F8B8AEC89F67AB17, 19);
    LehmerStep(0x41BDB31728EF3D14F8B8AEC89F67AB17, 0x57A7EEC583975E78E6A4F7B5B2AFE2A4, 18);
    LehmerStep(0x57A7EEC583975E78E6A4F7B5B2AFE2A4, 0x1F646773F415B74FF8E612B243DABA2E, 17);
    LehmerStep(0x1F646773F415B74FF8E612B243DABA2E, 0x72909207E5C9B8CEBFFDAF5DACB20C52, 16);
    LehmerStep(0x72909207E5C9B8CEBFFDAF5DACB20C52, 0x5FAFF322B5C94D4284315C767D98E53, 15);
    LehmerStep(0x5FAFF322B5C94D4284315C767D98E53, 0x3B7BBEE66EC1E3C6FE187AA7E2469A79, 14);
    LehmerStep(0x3B7BBEE66EC1E3C6FE187AA7E2469A79, 0x428741EDDD17A9F12F2079BA99C49B3A, 13);
    LehmerStep(0x428741EDDD17A9F12F2079BA99C49B3A, 0x54FDA19C7AF4EE6D83C61DC418D40B, 12);
    LehmerStep(0x54FDA19C7AF4EE6D83C61DC418D40B, 0x7CE8DC1C08A05A7D75C75CCB4320B5C4, 11);
    LehmerStep(0x7CE8DC1C08A05A7D75C75CCB4320B5C4, 0x1E3591F5C92D4CE1C3405D2F76FA162E, 10);
    LehmerStep(0x1E3591F5C92D4CE1C3405D2F76FA162E, 0x29C6CFB6DC45AC7A8906257764FA11FC, 9);
    LehmerStep(0x29C6CFB6DC45AC7A8906257764FA11FC, 0x431F473F7AD8E3826E8468300B6EC0AB, 8);
    LehmerStep(0x431F473F7AD8E3826E8468300B6EC0AB, 0x71D8C4084F082985533323FEACC1A7D9, 7);
    LehmerStep(0x71D8C4084F082985533323FEACC1A7D9, 0x51A0DBF7D1D11300D223C0142A837790, 6);
    LehmerStep(0x51A0DBF7D1D11300D223C0142A837790, 0x13526D7C26BBF3EFC85DD70948D6CD60, 5);
    LehmerStep(0x13526D7C26BBF3EFC85DD70948D6CD60, 0x35B6EEC0913C6D0A4D2AF6767E978C17, 4);
    LehmerStep(0x35B6EEC0913C6D0A4D2AF6767E978C17, 0x60FAEBD7CEE6F3BF5BB4B112D0CBDC6C, 3);
    LehmerStep(0x60FAEBD7CEE6F3BF5BB4B112D0CBDC6C, 0x8000000000000000, 2);
    LehmerStep(0x8000000000000000, 0x0, 1);
  }

  /** The Lucas-Lehmer test for p = 2^127 - 1: the 125th term vanishes. */
  lemma LehmerZero()
    ensures Lehmer(2, 125) == 0
  {
    LastTerm();
    hide Lehmer;
    LehmerRun1();
    LehmerRun2();
    LehmerRun3();
    LehmerRun4();
    LehmerRun5();
  }

  lemma LastTerm()
    ensures Lehmer(0, 0) == 0
  {
  }

  lemma ResidueStep(x: int)
    ensures (2 * (x % P * (x % P)) - 1) % P == (2 * (x * x) - 1) % P
  {
    CongMul(x % P, x, x % P, x);
    CongAdd(x % P * (x % P), x * x, x % P * (x % P), x * x);
    CongAdd(2 * (x % P * (x % P)), 2 * (x * x), 1, 1);
  }

  /** The iteration follows (2 + sqrt(3))^(2^k). */
  lemma {:induction false} LehmerFollows(j: nat, k: nat)
    ensures Lehmer(Omega(Exp2(j)).x % P, k) == Omega(Exp2(j + k)).x % P
    decreases k
  {
    if k > 0 {
      var x := Omega(Exp2(j)).x;
      hide Omega, Exp2, Lehmer;
      Exp2Step(j);
      OmegaDouble(Exp2(j));
      ResidueStep(x);
      LehmerStep(x % P, Omega(Exp2(j + 1)).x % P, k);
      LehmerFollows(j + 1, k - 1);
    }
  }

  lemma FirstTerm()
    ensures Omega(Exp2(0)) == Quad(2, 1)
  {
    assert Exp2(0) == 1;
    OmegaStep(1);
  }

  /** p divides the 125th term, so (2 + sqrt(3))^(2^126) is -1 modulo every divisor of p. */
  lemma TermDivisible()
    ensures Divides(P, Omega(Exp2(125)).x)
  {
    FirstTerm();
    hide Omega, Exp2, Lehmer;
    LehmerFollows(0, 125);
    LehmerZero();
    DividesModP(Omega(Exp2(125)).x);
  }

  // ------------------------------------------------------------ sufficiency of the test

  /** Congruence modulo q, componentwise. */
  ghost predicate Same(q: int, a: Quad, b: Quad) {
    Divides(q, a.x - b.x) && Divides(q, a.y - b.y)
  }

  lemma ProductsClose(q: int, a: int, a': int, b: int, b': int)
    requires Divides(q, a - a') && Divides(q, b - b')
    ensures Divides(q, a * b - a' * b')
  {
    DividesScale(q, a - a', b);
    DividesScale(q, b - b', a');
    DividesSum(q, b * (a - a'), a' * (b - b'));
    assert b * (a - a') == a * b - a' * b;
    assert a' * (b - b') == a' * b - a' * b';
  }

  lemma SameMul(q: int, a: Quad, a': Quad, b: Quad, b': Quad)
    requires Same(q, a, a') && Same(q, b, b')
    ensures Same(q, Mul(a, b), Mul(a', b'))
  {
    ProductsClose(q, a.x, a'.x, b.x, b'.x);
    ProductsClose(q, a.y, a'.y, b.y, b'.y);
    ProductsClose(q, a.x, a'.x, b.y, b'.y);
    ProductsClose(q, a.y, a'.y, b.x, b'.x);
    DividesScale(q, a.y * b.y - a'.y * b'.y, 3);
    DividesSum(q, a.x * b.x - a'.x * b'.x, 3 * (a.y * b.y - a'.y * b'.y));
    DividesSum(q, a.x * b.y - a'.x * b'.y, a.y * b.x - a'.y * b'.x);
  }

  lemma SameRefl(q: int, a: Quad)
    ensures Same(q, a, a)
  {
    DividesBy(q, 0);
  }

  lemma DividesTrans(q: int, m: int, x: int)
    requires Divides(q, m) && Divides(m, x)
    ensures Divides(q, x)
  {
    var k: int :| Times(k, m) == x;
    DividesScale(q, m, k);
  }

  lemma HalfwayIsMinusOne(q: int)
    requires Divides(q, P)
    ensures Same(q, Omega(Exp2(126)), Quad(-1, 0))
  {
    hide Omega, Exp2;
    Exp2Step(125);
    TermDivisible();
    var a := Omega(Exp2(125));
    OmegaDouble(Exp2(125));
    DividesTrans(q, P, a.x);
    DividesScale(q, a.x, 2 * a.x);
    DividesScale(q, a.x, 2 * a.y);
    assert 2 * a.x * a.x == 2 * (a.x * a.x);
    assert 2 * a.y * a.x == 2 * (a.x * a.y);
  }

  lemma RealProduct(a: int, b: int)
    ensures Mul(Quad(a, 0), Quad(b, 0)) == Quad(a * b, 0)
  {
  }

  lemma OmegaMultiple(n: nat, m: nat)
    requires m > 0
    ensures Omega(n * m) == Mul(Omega(n), Omega(n * (m - 1)))
  {
    hide Omega, Mul;
    assert n * m == n + n * (m - 1);
    OmegaAdd(n, n * (m - 1));
  }

  lemma OmegaZero(n: nat)
    ensures Omega(n * 0) == Quad(1, 0)
  {
  }

  /** If a power is the integer s modulo q, its m-th power is s^m. */
  lemma {:induction false} IntegerPower(q: int, n: nat, s: int, m: nat)
    requires Same(q, Omega(n), Quad(s, 0))
    ensures Same(q, Omega(n * m), Quad(Pow(s, m), 0))
    decreases m
  {
    hide Omega, Mul, Same, Divides;
    if m == 0 {
      OmegaZero(n);
      SameRefl(q, Quad(1, 0));
    } else {
      IntegerPower(q, n, s, m - 1);
      OmegaMultiple(n, m);
      RealProduct(s, Pow(s, m - 1));
      SameMul(q, Omega(n), Quad(s, 0), Omega(n * (m - 1)), Quad(Pow(s, m - 1), 0));
    }
  }

  lemma {:induction false} SignPowers(m: nat)
    ensures Pow(1, m) == 1
    ensures Pow(-1, m) == if m % 2 == 0 then 1 else -1
  {
    if m > 0 {
      SignPowers(m - 1);
    }
  }

  lemma {:induction false} OddPart(d: nat) returns (k: nat, m: nat)
    requires d > 0
    ensures d == Exp2(k) * m && m % 2 == 1
  {
    if d % 2 == 1 {
      k, m := 0, d;
    } else {
      k, m := OddPart(d / 2);
      assert d == 2 * (Exp2(k) * m) == (2 * Exp2(k)) * m;
      k := k + 1;
    }
  }

  lemma {:induction false} Exp2Grows(j: nat, k: nat)
    requires j <= k
    ensures Exp2(j) <= Exp2(k)
  {
    if j < k {
      Exp2Grows(j, k - 1);
    }
  }

  /** A number below 2^127 divides 2^126 times its odd part. */
  lemma Cofactor(d: nat, k: nat, m: nat) returns (t: nat)
    requires 0 < d < Exp2(127) && d == Exp2(k) * m
    ensures d * t == Exp2(126) * m
  {
    hide Exp2;
    if k >= 127 {
      Exp2Grows(127, k);
      MulBound(Exp2(127), 1, Exp2(k), m);
      assert false;
    }
    Exp2Add(k, 126 - k);
    t := Exp2(126 - k);
    assert (Exp2(k) * m) * t == (Exp2(k) * t) * m;
  }

  /** The order of 2 + sqrt(3) modulo a divisor q of p is at least 2^127. */
  lemma OrderIsLarge(q: int, d: nat)
    requires q > 1 && Divides(q, P) && 0 < d < Exp2(127)
    ensures !Same(q, Omega(d), Quad(1, 0))
  {
    hide Omega, Exp2, Divides, Pow;
    if Same(q, Omega(d), Quad(1, 0)) {
      var k, m := OddPart(d);
      var t := Cofactor(d, k, m);
      IntegerPower(q, d, 1, t);
      SignPowers(t);
      HalfwayIsMinusOne(q);
      IntegerPower(q, Exp2(126), -1, m);
      SignPowers(m);
      DividesSum(q, Omega(d * t).x - 1, Omega(d * t).x + 1);
      TwoNotZero(q);
    }
  }

  lemma TwoNotZero(q: int)
    requires q > 1 && Divides(q, P)
    ensures !Divides(q, -2)
  {
    if Divides(q, -2) {
      if q > 2 {
        SmallMultiple(q, -2);
        assert false;
      }
      var k: int :| Times(k, q) == P;
      assert false;
    }
  }

  lemma PowersDistinct(q: int, i: nat, j: nat)
    requires q > 1 && Divides(q, P) && i < j < Exp2(127)
    ensures !Same(q, Omega(j), Omega(i))
  {
    hide Omega, Exp2, Mul, Same, Divides;
    if Same(q, Omega(j), Omega(i)) {
      var inverse := Quad(Omega(i).x, -Omega(i).y);
      OmegaAdd(j - i, i);
      OmegaInverse(i);
      MulAssoc(Omega(j - i), Omega(i), inverse);
      TimesOne(Omega(j - i));
      SameRefl(q, inverse);
      SameMul(q, Omega(j), Omega(i), inverse, inverse);
      OrderIsLarge(q, j - i);
    }
  }

  lemma TimesOne(a: Quad)
    ensures Mul(a, Quad(1, 0)) == a
  {
  }

  // ---------------------------------------------------------------- p is prime

  /** A residue pair modulo q packed into one number below q * q. */
  ghost function Code(q: int, a: Quad): int
    requires q > 0
  {
    a.x % q * q + a.y % q
  }

  lemma CodeBound(q: int, a: Quad)
    requires q > 0
    ensures 0 <= Code(q, a) < q * q
  {
    MulBound(a.x % q, q, q - 1, q);
    assert (q - 1) * q == q * q - q;
  }

  lemma SameResidue(q: int, x: int, y: int)
    requires q > 0 && x % q == y % q
    ensures Divides(q, x - y)
  {
    assert x - y == (x / q - y / q) * q;
    DividesBy(q, x / q - y / q);
  }

  lemma CodeInjective(q: int, a: Quad, b: Quad)
    requires q > 0 && Code(q, a) == Code(q, b)
    ensures Same(q, a, b)
  {
    var k, l := a.x % q - b.x % q, b.y % q - a.y % q;
    assert k * q == l;
    if k != 0 {
      MultipleTooBig(q, k);
      assert false;
    }
    SameResidue(q, a.x, b.x);
    SameResidue(q, a.y, b.y);
  }

  lemma DivisorIsLarge(q: int)
    requires q > 1 && Divides(q, P)
    ensures P < q * q
  {
    hide Omega, Exp2, Code, Same, Divides;
    var f := (i: int) => if i >= 0 then Code(q, Omega(i)) else 0;
    forall i, j | i in Below(Exp2(127)) && j in Below(Exp2(127)) && f(i) == f(j)
      ensures i == j
    {
      CodeInjective(q, Omega(i), Omega(j));
      CodeInjective(q, Omega(j), Omega(i));
      if i < j {
        PowersDistinct(q, i, j);
      } else if j < i {
        PowersDistinct(q, j, i);
      }
    }
    forall i | 0 <= i < Exp2(127)
      ensures 0 <= f(i) < q * q
    {
      CodeBound(q, Omega(i));
    }
    Pigeonhole(f, Exp2(127), q * q);
    Exp2Of127();
  }

  lemma NotPositive(k: int, d: int)
    requires k <= 0 && d > 0
    ensures k * d <= 0
  {
  }

  lemma CofactorIsProper(k: int, d: int)
    requires 1 < d < P && k * d == P
    ensures k > 1
  {
    if k <= 0 {
      NotPositive(k, d);
    }
  }

  /** p = 2^127 - 1 is prime. */
  lemma MersenneIsPrime()
    ensures Prime(P)
  {
    forall d | 1 < d < P
      ensures !Divides(d, P)
    {
      if Divides(d, P) {
        var k: int :| Times(k, d) == P;
        DivisorIsLarge(d);
        CofactorIsProper(k, d);
        assert d * k == P;
        assert Times(d, k) == P;
        DivisorIsLarge(k);
        if k <= d {
          MulBound(k, k, k, d);
          assert false;
        } else {
          MulBound(d, d, d, k);
          assert false;
        }
      }
    }
  }

  // ------------------------------------------------------ Fermat and Euler

  /** The product of a set of numbers. */
  ghost function Product(s: set<int>): int {
    if s == {} then 1 else var x := Some(s); x * Product(s - {x})
  }

  ghost function Some<T>(s: set<T>): (x: T)
    requires s != {}
    ensures x in s
  {
    var x :| x in s; x
  }

  lemma Commute(x: int, y: int, r: int)
    ensures x * (y * r) == y * (x * r)
  {
  }

  lemma {:induction false} ProductPick(s: set<int>, x: int)
    requires x in s
    ensures Product(s) == x * Product(s - {x})
    decreases s
  {
    var y := Some(s);
    if x != y {
      ProductPick(s - {y}, x);
      assert s - {y} - {x} == s - {x} - {y};
      ProductPick(s - {x}, y);
      Commute(x, y, Product(s - {x} - {y}));
    }
  }

  /** Multiplying every member of s by a modulo p multiplies the product by a^|s|. */
  lemma {:induction false} ProductScaled(a: int, f: int -> int, s: set<int>)
    requires forall i :: i in s ==> f(i) == a * i % P
    requires InjectiveOn(f, s)
    ensures Cong(Product(Image(f, s)), Pow(a, |s|) * Product(s))
  {
    if s != {} {
      var x := Some(s);
      var t := s - {x};
      ProductScaled(a, f, t);
      assert Image(f, s) - {f(x)} == Image(f, t);
      ProductPick(Image(f, s), f(x));
      ProductPick(s, x);
      assert |s| == |t| + 1;
      CongRefl(a * x);
      CongMul(f(x), a * x, Product(Image(f, t)), Pow(a, |t|) * Product(t));
      Shuffle(a, x, Pow(a, |t|), Product(t));
    }
  }

  ghost predicate Units(s: set<int>) {
    forall i :: i in s ==> 0 < i < P
  }

  lemma {:induction false} ProductIsUnit(s: set<int>)
    requires Units(s)
    ensures !Divides(P, Product(s))
  {
    MersenneIsPrime();
    if s == {} {
      DividesModP(1);
    } else {
      var x := Some(s);
      ProductIsUnit(s - {x});
      if Divides(P, x * Product(s - {x})) {
        Euclid(P, x, Product(s - {x}));
      }
    }
  }

  /** Multiplication by a unit permutes the nonzero residues. */
  lemma ScalingPermutes(a: int, f: int -> int, s: set<int>)
    requires !Divides(P, a)
    requires s == Below(P) - {0}
    requires forall i :: i in s ==> f(i) == a * i % P
    ensures InjectiveOn(f, s) && Image(f, s) == s
  {
    hide Below, Divides, Prime;
    MersenneIsPrime();
    forall i, j | i in s && j in s && f(i) == f(j)
      ensures i == j
    {
      if i < j {
        ScaledApart(a, i, j);
      } else if j < i {
        ScaledApart(a, j, i);
      }
    }
    forall i | i in s
      ensures f(i) in s
    {
      ScaledApart(a, 0, i);
      assert a * 0 == 0;
    }
    ImageSize(f, s);
    SubsetSize(Image(f, s), s);
  }

  lemma ScaledApart(a: int, i: int, j: int)
    requires Prime(P) && !Divides(P, a) && 0 <= i < j < P
    ensures a * i % P != a * j % P
  {
    if a * i % P == a * j % P {
      SameResidue(P, a * j, a * i);
      assert a * j - a * i == (j - i) * a;
      Euclid(P, j - i, a);
    }
  }

  lemma Cancel(x: int, w: int)
    requires Prime(P) && !Divides(P, w) && Cong(w, x * w)
    ensures Cong(x, 1)
  {
    SameResidue(P, x * w, w);
    assert x * w - w == (x - 1) * w;
    var u := (x - 1) % P;
    if u != 0 {
      CongMul(u, x - 1, w, w);
      DividesModP((x - 1) * w);
      DividesModP(u * w);
      Euclid(P, u, w);
      assert false;
    }
    CongAdd(x - 1, 0, 1, 1);
  }

  lemma FermatOn(a: int, f: int -> int, s: set<int>)
    requires !Divides(P, a)
    requires s == Below(P) - {0}
    requires forall i :: i in s ==> f(i) == a * i % P
    ensures Cong(Pow(a, |s|), 1)
  {
    assert Units(s) by {
      hide Below;
    }
    hide *;
    ScalingPermutes(a, f, s);
    ProductScaled(a, f, s);
    ProductIsUnit(s);
    MersenneIsPrime();
    Cancel(Pow(a, |s|), Product(s));
  }

  /** Fermat's little theorem for p. */
  lemma Fermat(a: int)
    requires !Divides(P, a)
    ensures Cong(Pow(a, P - 1), 1)
  {
    hide Pow, Divides, Below;
    FermatOn(a, i => a * i % P, Below(P) - {0});
  }

  lemma HalfOrder()
    ensures Ones(126) + Ones(126) == P - 1
  {
    OnesExp2(127);
    Exp2Of127();
    assert Ones(127) == 2 * Ones(126) + 1;
  }

  lemma {:induction false} OnesExp2(k: nat)
    ensures Ones(k) + 1 == Exp2(k)
  {
    if k > 0 {
      OnesExp2(k - 1);
    }
  }

  lemma RootOfOne(x: int)
    requires Prime(P) && Cong(x * x, 1)
    ensures x % P == 1 || x % P == P - 1
  {
    var r := x % P;
    CongMul(r, x, r, x);
    SameResidue(P, r * r, 1);
    if r == 0 {
      assert false;
    }
    assert r * r - 1 == (r + 1) * (r - 1);
    if r != P - 1 {
      Euclid(P, r + 1, r - 1);
      SmallMultiple(P, r - 1);
    }
  }

  /** Euler's criterion, the half this code relies on. */
  lemma Euler(a: int)
    requires a % P != 0
    ensures Pow(a, Ones(126)) % P == 1 || Pow(a, Ones(126)) % P == P - 1
  {
    hide Pow, Ones;
    DividesModP(a);
    Fermat(a);
    HalfOrder();
    PowAdd(a, Ones(126), Ones(126));
    MersenneIsPrime();
    RootOfOne(Pow(a, Ones(126)));
  }
}
