/** How much money there is: what the checks of single blocks mean for the total over the chain. */
module CoinsSupply {
  import opened Numbers
  import opened AmountCodec
  import opened CoinsLayer
  import opened CoinsMoves
  import opened CoinsBlock
  import opened CoinsValue
  import opened CoinsTip
  import opened CoinsChain

  /** What the transactions pay into the shielded pool, less what they take out of it. */
  ghost function PaidIn(txs: Block): int {
    if txs == [] then 0 else PaidIn(txs[..|txs| - 1]) - txs[|txs| - 1].valueBalance
  }

  ghost function Pool(blocks: seq<Block>): int {
    if blocks == [] then 0 else Pool(blocks[..|blocks| - 1]) + PaidIn(blocks[|blocks| - 1])
  }

  /** The subsidies of the first n blocks. */
  ghost function Subsidies(net: Network, n: nat): nat {
    if n == 0 then 0 else Subsidies(net, n - 1) + GetBlockSubsidy(net, n)
  }

  // ------------------------------------------------------------------ one transaction

  /** Outputs nobody can spend are lost. */
  lemma {:induction false} SpendableSum(vout: seq<TxOut>, n: nat)
    requires n <= |vout| && forall i :: 0 <= i < |vout| ==> vout[i].value >= 0
    ensures OutSum(Spendable(vout[..n])) <= ValueOut(vout, n)
  {
    if n > 0 {
      SpendableSum(vout, n - 1);
      assert Spendable(vout[..n])[..n - 1] == Spendable(vout[..n - 1]);
    }
  }

  lemma {:induction false} TxValue(v: View, spent: set<Nullifier>, tx: Tx, height: int)
    requires AllProper(v) && AllMined(v) && Connectable(v, spent, tx) && Sound(tx)
    ensures Total(Connected(v, tx, height)) - tx.valueBalance <=
            Total(v) + ValueOutOf(tx) - if tx.IsCoinBase() then 0 else ValueInOf(v, tx)
  {
    ConnectValue(v, spent, tx, height);
    SpendableSum(tx.vout, |tx.vout|);
    assert tx.vout[..|tx.vout|] == tx.vout;
    hide AllProper, AllMined, Connectable, Connected, Total, OutSum, ValueOf, Spendable, ValueOut, Distinct, Different;
  }

  // ------------------------------------------------------------------------ one block

  lemma {:induction false} BlockValue(v: View, spent: set<Nullifier>, txs: Block, height: int, n: nat)
    requires AllProper(v) && AllMined(v) && SoundBlock(txs) && BlockConnectable(v, spent, txs, height) && height != 0 &&
      n <= |txs|
    ensures Total(Before(v, txs, height, n)) + PaidIn(txs[..n]) <=
            Total(v) + (if n == 0 then 0 else ValueOutOf(txs[0])) - Fees(v, txs, height, n)
  {
    hide AllProper, AllMined, Connectable, Connected, Total, ValueOutOf, ValueInOf, Sound, BlockConnectable;
    if n == 0 {
    } else {
      var i := n - 1;
      BlockValue(v, spent, txs, height, i);
      BlockAt(v, spent, txs, height, i);
      BlockPrefix(v, spent, txs, height, i);
      ConnectAllProper(v, spent, txs[..i], height);
      TxValue(Before(v, txs, height, i), spent + NullifiersOf(txs[..i]), txs[i], height);
      BeforeNext(v, txs, height, i);
      assert txs[..n][..i] == txs[..i];
      MoreFees(v, txs, height, i);
    }
  }

  /** A block creates no more money than its subsidy. */
  lemma {:induction false} BlockCreates(v: View, spent: set<Nullifier>, txs: Block, height: int, subsidy: int)
    requires AllProper(v) && AllMined(v) && IdsTell(txs) && Acceptable(v, spent, txs, height, subsidy) && height != 0
    ensures Total(ConnectAll(v, txs, height)) + PaidIn(txs) <= Total(v) + subsidy
  {
    hide AllProper, AllMined, Total, ValueOutOf, Fees, ConnectAll, InputsTo, NewIds, IdsTell, BlockConnectable;
    Connects(v, spent, txs, height, subsidy);
    BlockValue(v, spent, txs, height, |txs|);
    assert txs[..|txs|] == txs;
  }

  // ------------------------------------------------------------------------ the chain

  /** In every chain, the coins and the shielded pool together are worth no more than the subsidies. */
  lemma {:induction false} NoInflation(net: Network, blocks: seq<Block>)
    requires Chained(net, blocks)
    ensures Total(ViewOf(blocks)) + Pool(blocks) <= Subsidies(net, |blocks|)
  {
    hide Acceptable, IdsTell, ConnectAll, GetBlockSubsidy, AllProper, AllMined;
    if blocks == [] {
      assert ViewOf(blocks) == map[];
    } else {
      hide Total;
      var n := |blocks| - 1;
      NoInflation(net, blocks[..n]);
      ChainProper(net, blocks[..n]);
      BlockCreates(ViewOf(blocks[..n]), SpentBy(blocks[..n]), blocks[n], |blocks|, GetBlockSubsidy(net, |blocks|));
    }
  }

  // -------------------------------------------------------------------- the subsidies

  lemma {:induction false} Halves(k: nat)
    ensures 2 * Halved(k + 1) <= Halved(k)
  {
  }

  /** The rewards of n blocks, the genesis block included. */
  ghost function Rewards(net: Network, n: nat): nat {
    if n == 0 then 0 else Rewards(net, n - 1) + Halved(Period(n - 1, net.halvingInterval))
  }

  /** The reward period a height is in, and how far in it. */
  ghost function Period(height: nat, i: nat): nat
    requires i > 0
  {
    height / i
  }

  ghost function Within(height: nat, i: nat): nat
    requires i > 0
  {
    height % i
  }

  /** A bound on the rewards of r blocks of a period with reward h and of the periods before it. */
  ghost function Ceiling(i: nat, r: nat, h: nat): int {
    i * (2 * REWARD - 2 * h) + r * h
  }

  lemma {:induction false} CeilingStep(i: nat, r: nat, h: nat)
    ensures Ceiling(i, r, h) + h == Ceiling(i, r + 1, h)
  {
    assert r * h + h == (r + 1) * h;
  }

  lemma {:induction false} CeilingTurn(i: nat, h: nat, next: nat)
    requires 2 * next <= h
    ensures Ceiling(i, i, h) <= Ceiling(i, 0, next)
  {
    assert i * (2 * REWARD - 2 * h) + i * h == i * (2 * REWARD - h);
    assert i * (2 * REWARD - 2 * next) - i * (2 * REWARD - h) == i * (h - 2 * next);
  }

  lemma {:induction false} CeilingStart(i: nat)
    ensures Ceiling(i, 0, REWARD) == 0
  {
  }

  lemma {:induction false} CeilingBound(i: nat, r: nat, h: nat)
    requires r <= i
    ensures Ceiling(i, r, h) <= 2 * REWARD * i
  {
    assert i * (2 * REWARD - 2 * h) == 2 * REWARD * i - 2 * (i * h);
    assert i * h - r * h == (i - r) * h;
  }

  lemma {:induction false} RewardsTo(net: Network, n: nat)
    ensures Rewards(net, n) <= Ceiling(net.halvingInterval, Within(n, net.halvingInterval),
      Halved(Period(n, net.halvingInterval)))
  {
    var i := net.halvingInterval;
    hide Halved, Ceiling, Period, Within;
    if n == 0 {
      FirstReward(i);
      CeilingStart(i);
    } else {
      RewardsTo(net, n - 1);
      var k, r := Period(n - 1, i), Within(n - 1, i);
      NextPeriod(n - 1, i);
      CeilingStep(i, r, Halved(k));
      if r + 1 == i {
        Halves(k);
        CeilingTurn(i, Halved(k), Halved(k + 1));
      }
    }
  }

  lemma {:induction false} FirstReward(i: nat)
    requires i > 0
    ensures Halved(0) == REWARD && Period(0, i) == Within(0, i) == 0
  {
  }

  lemma {:induction false} NextPeriod(n: nat, i: nat)
    requires i > 0
    ensures var k, r := Period(n, i), Within(n, i);
            r < i && if r + 1 < i then Period(n + 1, i) == k && Within(n + 1, i) == r + 1
                     else Period(n + 1, i) == k + 1 && Within(n + 1, i) == 0
  {
    var k, r := n / i, n % i;
    if r + 1 < i {
      Division(n + 1, i, k, r + 1);
    } else {
      assert n + 1 == k * i + i == (k + 1) * i;
      Division(n + 1, i, k + 1, 0);
    }
  }

  /** All rewards together are less than twice those of the first period. */
  lemma {:induction false} RewardsBound(net: Network, n: nat)
    ensures Rewards(net, n) <= 2 * REWARD * net.halvingInterval
  {
    hide Halved, Rewards, Ceiling, Period, Within;
    var i := net.halvingInterval;
    RewardsTo(net, n);
    NextPeriod(n, i);
    CeilingBound(i, Within(n, i), Halved(Period(n, i)));
  }

  lemma {:induction false} SubsidiesTo(net: Network, n: nat)
    ensures Subsidies(net, n) <= Rewards(net, n + 1) + COIN * (if n < TOP_INGEST_BLOCK then n else TOP_INGEST_BLOCK) +
      if n == 0 then 0 else INGEST_MINING_AMOUNT
  {
    hide Halved;
    if n > 0 {
      SubsidiesTo(net, n - 1);
      assert Rewards(net, n + 1) == Rewards(net, n) + Halved(n / net.halvingInterval);
    }
  }

  const MAX_SUPPLY := INGEST_MINING_AMOUNT + TOP_INGEST_BLOCK * COIN + 2 * REWARD * 840_000

  /** On the main network the coins and the shielded pool are never worth more than this. */
  lemma {:induction false} SupplyLimit(blocks: seq<Block>)
    requires Chained(MAIN, blocks)
    ensures Total(ViewOf(blocks)) + Pool(blocks) <= MAX_SUPPLY == 21_262_198_401 * COIN
  {
    hide Chained, Total, ViewOf, Pool, Subsidies, Rewards;
    NoInflation(MAIN, blocks);
    SubsidiesTo(MAIN, |blocks|);
    RewardsBound(MAIN, |blocks| + 1);
  }

  // ------------------------------------------------- the subsidies exceed MAX_MONEY

  lemma {:induction false} WaitingSum(net: Network, n: nat)
    requires !net.regTest && 1 <= n < TOP_INGEST_BLOCK
    ensures Subsidies(net, n) == INGEST_MINING_AMOUNT + (n - 1) * COIN
  {
    if n == 1 {
      assert Subsidies(net, 0) == 0;
    } else {
      WaitingSum(net, n - 1);
    }
  }

  /** The subsidies of the heights above a up to b, all after k halvings. */
  lemma {:induction false} PeriodSum(net: Network, k: nat, a: nat, b: nat)
    requires TOP_INGEST_BLOCK - 1 <= a <= b && k * net.halvingInterval <= a + 1 && b < (k + 1) * net.halvingInterval
    ensures Subsidies(net, b) == Subsidies(net, a) + (b - a) * Halved(k)
  {
    hide Halved;
    if a < b {
      PeriodSum(net, k, a, b - 1);
      Division(b, net.halvingInterval, k, b - k * net.halvingInterval);
      assert GetBlockSubsidy(net, b) == Halved(k);
      assert (b - 1 - a) * Halved(k) + Halved(k) == (b - a) * Halved(k);
    }
  }

  lemma {:induction false} HalvedValues()
    ensures Halved(0) == REWARD && Halved(1) == REWARD / 2 && Halved(2) == REWARD / 4
    ensures Halved(3) == REWARD / 8 && Halved(4) == REWARD / 16 && Halved(5) == REWARD / 32
  {
    assert Shifted(1) == REWARD / 2;
    assert Shifted(2) == REWARD / 4;
    assert Shifted(3) == REWARD / 8;
    assert Shifted(4) == REWARD / 16;
  }

  lemma {:induction false} SubsidiesGrow(net: Network, m: nat, n: nat)
    requires m <= n
    ensures Subsidies(net, m) <= Subsidies(net, n)
    decreases n
  {
    hide GetBlockSubsidy;
    if m < n {
      SubsidiesGrow(net, m, n - 1);
    }
  }

  /** The subsidies of the main network in the first five reward periods. */
  lemma {:induction false} FivePeriods(i: nat)
    requires i == 840_000
    ensures Subsidies(MAIN, 5 * i - 1) == 2_092_781_714_900_000
  {
    hide Subsidies, Halved;
    HalvedValues();
    WaitingSum(MAIN, TOP_INGEST_BLOCK - 1);
    PeriodSum(MAIN, 0, TOP_INGEST_BLOCK - 1, i - 1);
    PeriodSum(MAIN, 1, i - 1, 2 * i - 1);
    PeriodSum(MAIN, 2, 2 * i - 1, 3 * i - 1);
    PeriodSum(MAIN, 3, 3 * i - 1, 4 * i - 1);
    PeriodSum(MAIN, 4, 4 * i - 1, 5 * i - 1);
  }

  /** And up to a height of the sixth. */
  lemma {:induction false} SixthPeriod(n: nat)
    requires 5 * 840_000 <= n < 6 * 840_000
    ensures Subsidies(MAIN, n) == 2_092_781_714_900_000 + (n - 4_199_999) * (REWARD / 32)
  {
    hide Subsidies, Halved;
    HalvedValues();
    FivePeriods(840_000);
    PeriodSum(MAIN, 5, 4_199_999, n);
  }

  /** The limit on single amounts is no limit on the supply: on the main network the subsidies are
      more exactly from height 4569576 on. */
  lemma {:induction false} SubsidiesPassMaxMoney(n: nat)
    ensures MAX_MONEY < Subsidies(MAIN, n) <==> n >= 4_569_576
  {
    var last := 4_569_575;
    hide Subsidies, Halved;
    SixthPeriod(last);
    SixthPeriod(last + 1);
    if n <= last {
      SubsidiesGrow(MAIN, n, last);
    } else {
      SubsidiesGrow(MAIN, last + 1, n);
    }
  }
}
