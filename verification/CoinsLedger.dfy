/** What a chain is as a ledger: every transaction in it is paid for, and the coins are exactly the
    outputs created and not yet spent. */
module CoinsLedger {
  import opened AmountCodec
  import opened CoinsLayer
  import opened CoinsMoves
  import opened CoinsCache
  import opened CoinsBlock
  import opened CoinsTip
  import opened CoinsChain
  import opened CoinsHistory

  // ------------------------------------------------------------- each transaction

  ghost predicate AllSound(steps: seq<Step>) {
    forall i :: 0 <= i < |steps| ==> Sound(steps[i].tx)
  }

  lemma {:induction false} HistorySound(net: Network, blocks: seq<Block>)
    requires Chained(net, blocks)
    ensures AllSound(History(blocks))
  {
    hide IdsTell, InputsTo, NewIds, Sound, GetBlockSubsidy, Fees, ValueOutOf;
    if blocks != [] {
      HistorySound(net, blocks[..|blocks| - 1]);
    }
  }

  /** Every transaction of the chain creates amounts of money only, spends nothing twice and, unless
      it is a coinbase, pays for all it creates. */
  lemma {:induction false} EveryTransaction(net: Network, blocks: seq<Block>, p: nat)
    requires Chained(net, blocks) && p < |History(blocks)|
    ensures var tx := History(blocks)[p].tx;
            && (forall i :: 0 <= i < |tx.vout| ==> 0 <= tx.vout[i].value <= 2_100_000_000_000_000)
            && (forall i, j :: 0 <= i < j < |tx.vin| ==> tx.vin[i] != tx.vin[j])
            && (forall i, j :: 0 <= i < j < |tx.nullifiers| ==> tx.nullifiers[i] != tx.nullifiers[j])
            && (tx.IsCoinBase() || NULL_POINT !in tx.vin)
            && (!tx.IsCoinBase() ==>
                 ValueOutOf(tx) <= ValueInOf(After(History(blocks)[..p]), tx) <= 2_100_000_000_000_000)
  {
    hide Chained, History, After, SpentAfter, ValueOut, ValueOf;
    HistorySound(net, blocks);
    HistoryFunded(net, blocks);
    var h := History(blocks);
    assert Sound(h[p].tx);
  }

  /** An available output of a coinbase may be spent exactly from a hundred blocks later on. */
  lemma {:induction false} MatureExactly(v: View, o: OutPoint, height: int)
    requires Available(v, o) && Money(ValueAt(v, o))
    ensures Mature(v, o, height) <==> !v[o.hash].coinBase || height >= v[o.hash].height + 100
  {
  }

  // ----------------------------------------------------------------- the coins, exactly

  /** Output n of a transaction can be spent at all: its script does not start with OP_RETURN and is
      not oversize. */
  predicate CanBeSpent(tx: Tx, n: nat) {
    n < |tx.vout| && (tx.vout[n].script == [] || tx.vout[n].script[0] != 0x6a) && |tx.vout[n].script| <= 10_000
  }

  lemma {:induction false} CreatedOutput(v: View, tx: Tx, height: int, n: nat)
    requires forall i :: 0 <= i < |tx.vout| ==> tx.vout[i].value >= 0
    ensures Available(Connected(v, tx, height), OutPoint(tx.txid, n)) <==> CanBeSpent(tx, n)
  {
    hide SpendAll;
    var s := Spendable(tx.vout);
    if CanBeSpent(tx, n) {
      assert !s[n].IsNull();
      assert n < |Trim(s)|;
    }
  }

  /** It is available as long as nobody spends it. */
  lemma {:induction false} StaysAvailable(steps: seq<Step>, i: nat, k: nat, o: OutPoint)
    requires Runs(steps) && i <= k <= |steps| && Available(After(steps[..i]), o)
    requires forall m :: i <= m < k ==>
               steps[m].tx.txid != o.hash && (steps[m].tx.IsCoinBase() || o !in steps[m].tx.vin)
    ensures Available(After(steps[..k]), o)
    decreases k
  {
    hide After, SpentAfter, Connectable, Connected;
    if i < k {
      StaysAvailable(steps, i, k - 1, o);
      StepAt(steps, k - 1);
      StillThere(After(steps[..k - 1]), SpentAfter(steps[..k - 1]), steps[k - 1].tx, steps[k - 1].height, o);
    }
  }

  lemma {:induction false} StillThere(v: View, spent: set<Nullifier>, tx: Tx, height: int, o: OutPoint)
    requires Connectable(v, spent, tx) && Available(v, o) && o.hash != tx.txid && (tx.IsCoinBase() || o !in tx.vin)
    ensures Available(Connected(v, tx, height), o)
  {
    hide FromTx, Available, SpendAll, Put;
    if !tx.IsCoinBase() {
      SpendAllEffect(v, tx.vin, o);
    }
    Elsewhere(SpentInputs(v, tx), tx, height, o);
  }

  /** Transaction j of the history created output o, and nobody spent it since. */
  ghost predicate Unspent(steps: seq<Step>, j: nat, o: OutPoint) {
    j < |steps| && steps[j].tx.txid == o.hash && CanBeSpent(steps[j].tx, o.n) &&
    forall p :: j < p < |steps| ==> steps[p].tx.IsCoinBase() || o !in steps[p].tx.vin
  }

  lemma {:induction false} AvailableIsUnspent(steps: seq<Step>, o: OutPoint) returns (j: nat)
    requires Runs(steps) && UniqueIds(steps, |steps|) && Available(After(steps), o)
    ensures Unspent(steps, j, o)
  {
    hide After, SpentAfter, Available, Connectable, Connected;
    j := Origin(steps, o);
    RunsBefore(steps, j);
    assert steps[..|steps|] == steps;
    forall p | j < p < |steps|
      ensures steps[p].tx.IsCoinBase() || o !in steps[p].tx.vin
    {
      if !steps[p].tx.IsCoinBase() && o in steps[p].tx.vin {
        SpentForGood(steps, p, |steps|, o);
      }
    }
    StepAt(steps, j);
    Outputs(After(steps[..j]), SpentAfter(steps[..j]), steps[j].tx, steps[j].height, o.n);
    if !CanBeSpent(steps[j].tx, o.n) {
      GoneFrom(steps, j + 1, |steps|, o);
    }
  }

  lemma {:induction false} Outputs(v: View, spent: set<Nullifier>, tx: Tx, height: int, n: nat)
    requires Connectable(v, spent, tx)
    ensures Available(Connected(v, tx, height), OutPoint(tx.txid, n)) <==> CanBeSpent(tx, n)
  {
    hide Available, Connected, CanBeSpent;
    CreatedOutput(v, tx, height, n);
  }

  lemma {:induction false} UnspentIsAvailable(steps: seq<Step>, j: nat, o: OutPoint)
    requires Runs(steps) && UniqueIds(steps, |steps|) && Unspent(steps, j, o)
    ensures Available(After(steps), o)
  {
    hide After, SpentAfter, Available, Connectable, Connected;
    RunsBefore(steps, j);
    StepAt(steps, j);
    Outputs(After(steps[..j]), SpentAfter(steps[..j]), steps[j].tx, steps[j].height, o.n);
    StaysAvailable(steps, j + 1, |steps|, o);
    assert steps[..|steps|] == steps;
  }

  /** The coins of a chain are exactly the outputs its transactions created, can be spent and were
      not spent since. */
  lemma {:induction false} CoinsExactly(net: Network, blocks: seq<Block>, o: OutPoint)
    requires Chained(net, blocks) && HashedIds(History(blocks))
    ensures Available(ViewOf(blocks), o) <==> exists j :: Unspent(History(blocks), j, o)
  {
    hide Chained, History, HashedIds, Spends, After, SpentAfter, Available, Runs, Unspent;
    var h := History(blocks);
    HistoryRuns(net, blocks);
    SoundSpends(net, blocks);
    IdsUnique(h, |h|);
    if Available(ViewOf(blocks), o) {
      var j := AvailableIsUnspent(h, o);
    }
    if j :| Unspent(h, j, o) {
      UnspentIsAvailable(h, j, o);
    }
  }
}
