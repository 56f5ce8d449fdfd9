/** The total value of the unspent outputs, and how transactions change it. */
module CoinsValue {
  import opened CoinsLayer
  import opened CoinsMoves
  import opened CoinsBlock

  /** The value of the outputs not spent yet. */
  ghost function OutSum(vout: seq<TxOut>): int {
    if vout == [] then 0
    else OutSum(vout[..|vout| - 1]) + if vout[|vout| - 1].IsNull() then 0 else vout[|vout| - 1].value
  }

  /** The value of all unspent outputs of the view. */
  ghost function Total(v: View): int {
    if v == map[] then 0
    else
      var k :| k in v;
      OutSum(v[k].vout) + Total(v - {k})
  }

  lemma {:induction false} TrimSum(vout: seq<TxOut>)
    ensures OutSum(Trim(vout)) == OutSum(vout)
  {
    if vout != [] && vout[|vout| - 1].IsNull() {
      TrimSum(vout[..|vout| - 1]);
    }
  }

  lemma {:induction false} SpendSum(vout: seq<TxOut>, n: nat)
    requires n < |vout| && !vout[n].IsNull()
    ensures OutSum(vout[n := NULL_OUT]) == OutSum(vout) - vout[n].value
  {
    var m := |vout| - 1;
    if n == m {
      assert vout[n := NULL_OUT][..m] == vout[..m];
    } else {
      assert vout[n := NULL_OUT][..m] == vout[..m][n := NULL_OUT];
      SpendSum(vout[..m], n);
    }
  }

  lemma {:induction false} NullSum(vout: seq<TxOut>)
    requires forall i :: 0 <= i < |vout| ==> vout[i].IsNull()
    ensures OutSum(vout) == 0
  {
    if vout != [] {
      NullSum(vout[..|vout| - 1]);
    }
  }

  /** Any record can be split off the total. */
  lemma {:induction false} TotalSplit(v: View, k: TxId)
    requires k in v
    ensures Total(v) == OutSum(v[k].vout) + Total(v - {k})
    decreases |v|
  {
    var j :| j in v && Total(v) == OutSum(v[j].vout) + Total(v - {j});
    if j != k {
      TotalSplit(v - {j}, k);
      TotalSplit(v - {k}, j);
      assert v - {j} - {k} == v - {k} - {j};
    }
  }

  /** Setting a record changes the total by the difference of the records. */
  lemma {:induction false} TotalPut(v: View, k: TxId, c: Coins)
    ensures Total(Put(v, k, c)) == Total(v) + OutSum(c.vout) - if k in v then OutSum(v[k].vout) else 0
  {
    var w := Put(v, k, c);
    if k in v {
      TotalSplit(v, k);
    }
    assert v - {k} == if k in v then v - {k} else v;
    if c.IsPruned() {
      NullSum(c.vout);
    } else {
      TotalSplit(w, k);
      assert w - {k} == v - {k};
    }
  }

  lemma {:induction false} SpendOneValue(v: View, o: OutPoint)
    requires Available(v, o)
    ensures Total(SpendOne(v, o)) == Total(v) - ValueAt(v, o)
  {
    var c := v[o.hash];
    SpendSum(c.vout, o.n);
    TrimSum(c.vout[o.n := NULL_OUT]);
    TotalPut(v, o.hash, Without(c, o.n));
  }

  /** Spending the inputs lowers the total by exactly their value in the view before. */
  lemma {:induction false} SpendAllValue(v: View, vin: seq<OutPoint>)
    requires AllAvailable(v, vin) && Distinct(vin)
    ensures Total(SpendAll(v, vin)) == Total(v) - ValueOf(v, vin)
  {
    if vin != [] {
      var init, last := vin[..|vin| - 1], vin[|vin| - 1];
      SpendAllValue(v, init);
      NextAvailable(v, vin, |vin| - 1);
      SpendOneValue(SpendAll(v, init), last);
    }
  }

  /** A transaction moves its inputs' value out and its spendable outputs' value in; nothing else. */
  lemma {:induction false} ConnectValue(v: View, spent: set<Nullifier>, tx: Tx, height: int)
    requires AllProper(v) && AllMined(v) && Connectable(v, spent, tx)
    ensures Total(Connected(v, tx, height)) ==
            Total(v) - (if tx.IsCoinBase() then 0 else ValueOf(v, tx.vin)) + OutSum(Spendable(tx.vout))
  {
    if !tx.IsCoinBase() {
      SpendAllValue(v, tx.vin);
    }
    SpendAllProper(v, tx.vin);
    TotalPut(SpentInputs(v, tx), tx.txid, FromTx(tx, height));
    TrimSum(Spendable(tx.vout));
  }
}
