/** What the checks of single blocks mean for the history of the chain: nothing is spent twice, and
    nothing is spent that was not created. */
module CoinsHistory {
  import opened CoinsLayer
  import opened CoinsMoves
  import opened CoinsCache
  import opened CoinsBlock
  import opened CoinsTip
  import opened CoinsChain

  /** A transaction and the height of its block. */
  datatype Step = Step(tx: Tx, height: int)

  ghost function After(steps: seq<Step>): View {
    if steps == [] then map[]
      else Connected(After(steps[..|steps| - 1]), steps[|steps| - 1].tx, steps[|steps| - 1].height)
  }

  ghost function SpentAfter(steps: seq<Step>): set<Nullifier> {
    if steps == [] then {} else SpentAfter(steps[..|steps| - 1]) + Range(steps[|steps| - 1].tx.nullifiers)
  }

  /** Each transaction could be connected after those before it. */
  ghost predicate Runs(steps: seq<Step>) {
    forall i :: 0 <= i < |steps| ==> Connectable(After(steps[..i]), SpentAfter(steps[..i]), steps[i].tx)
  }

  // ------------------------------------------------------ the transactions of a chain

  ghost function StepsOf(txs: Block, height: int): (r: seq<Step>)
    ensures |r| == |txs|
  {
    seq(|txs|, i requires 0 <= i < |txs| => Step(txs[i], height))
  }

  /** All transactions of the chain in order. */
  ghost function History(blocks: seq<Block>): seq<Step> {
    if blocks == [] then [] else History(blocks[..|blocks| - 1]) + StepsOf(blocks[|blocks| - 1], |blocks|)
  }

  lemma {:induction false} AfterNext(steps: seq<Step>, s: Step)
    ensures After(steps + [s]) == Connected(After(steps), s.tx, s.height)
    ensures SpentAfter(steps + [s]) == SpentAfter(steps) + Range(s.tx.nullifiers)
  {
    hide Connected, Range;
    assert (steps + [s])[..|steps|] == steps;
  }

  lemma {:induction false} RunsNext(steps: seq<Step>, s: Step)
    requires Runs(steps) && Connectable(After(steps), SpentAfter(steps), s.tx)
    ensures Runs(steps + [s])
  {
    hide Connectable;
    var more := steps + [s];
    forall i | 0 <= i < |more|
      ensures Connectable(After(more[..i]), SpentAfter(more[..i]), more[i].tx)
    {
      assert more[..i] == steps[..i];
      if i == |steps| {
        assert steps[..i] == steps;
      }
    }
  }

  /** A block appended to a history. */
  lemma {:induction false} BlockSteps(steps: seq<Step>, txs: Block, height: int)
    requires Runs(steps) && BlockConnectable(After(steps), SpentAfter(steps), txs, height)
    ensures Runs(steps + StepsOf(txs, height))
    ensures After(steps + StepsOf(txs, height)) == ConnectAll(After(steps), txs, height)
    ensures SpentAfter(steps + StepsOf(txs, height)) == SpentAfter(steps) + NullifiersOf(txs)
  {
    hide Runs, BlockConnectable, Connectable, Connected, After, SpentAfter, Range;
    if txs == [] {
      assert steps + StepsOf(txs, height) == steps;
    } else {
      var n := |txs| - 1;
      BlockPrefix(After(steps), SpentAfter(steps), txs, height, n);
      BlockSteps(steps, txs[..n], height);
      BlockAt(After(steps), SpentAfter(steps), txs, height, n);
      var before, last := steps + StepsOf(txs[..n], height), Step(txs[n], height);
      assert steps + StepsOf(txs, height) == before + [last];
      AfterNext(before, last);
      RunsNext(before, last);
    }
  }

  /** The coins of the chain are those its transactions leave, connected one by one. */
  lemma {:induction false} HistoryRuns(net: Network, blocks: seq<Block>)
    requires Chained(net, blocks)
    ensures Runs(History(blocks)) && After(History(blocks)) == ViewOf(blocks) &&
      SpentAfter(History(blocks)) == SpentBy(blocks)
  {
    hide IdsTell, Acceptable, GetBlockSubsidy, BlockConnectable, StepsOf, ConnectAll, NullifiersOf;
    if blocks != [] {
      var n := |blocks| - 1;
      HistoryRuns(net, blocks[..n]);
      Connects(ViewOf(blocks[..n]), SpentBy(blocks[..n]), blocks[n], |blocks|, GetBlockSubsidy(net, |blocks|));
      BlockSteps(History(blocks[..n]), blocks[n], |blocks|);
    }
  }

  // ------------------------------------------------------------------- nothing twice

  ghost predicate UniqueIds(steps: seq<Step>, n: nat)
    requires n <= |steps|
  {
    forall i, j :: 0 <= i < j < n ==> steps[i].tx.txid != steps[j].tx.txid
  }

  /** An id is the hash of the transaction, and coinbases differ in the height they contain. */
  ghost predicate HashedIds(steps: seq<Step>) {
    forall i, j :: 0 <= i < j < |steps| && steps[i].tx.txid == steps[j].tx.txid ==>
      steps[i].tx == steps[j].tx && !steps[i].tx.IsCoinBase()
  }

  lemma {:induction false} StepAt(steps: seq<Step>, i: nat)
    requires i < |steps|
    ensures After(steps[..i + 1]) == Connected(After(steps[..i]), steps[i].tx, steps[i].height)
    ensures SpentAfter(steps[..i + 1]) == SpentAfter(steps[..i]) + Range(steps[i].tx.nullifiers)
  {
    assert steps[..i + 1] == steps[..i] + [steps[i]];
    AfterNext(steps[..i], steps[i]);
  }

  lemma {:induction false} CreatedBefore(steps: seq<Step>, k: TxId)
    requires k in After(steps)
    ensures exists j :: 0 <= j < |steps| && steps[j].tx.txid == k
  {
    hide Connected;
    var n := |steps| - 1;
    assert steps != [];
    if steps[n].tx.txid != k {
      FromBefore(After(steps[..n]), steps[n].tx, steps[n].height, k);
      CreatedBefore(steps[..n], k);
      var j :| 0 <= j < n && steps[..n][j].tx.txid == k;
      assert steps[j].tx.txid == k;
    }
  }

  lemma {:induction false} GoneFrom(steps: seq<Step>, i: nat, k: nat, o: OutPoint)
    requires Runs(steps) && i <= k <= |steps| && !Available(After(steps[..i]), o)
    requires forall m :: i <= m < k ==> steps[m].tx.txid != o.hash
    ensures !Available(After(steps[..k]), o)
    decreases k
  {
    hide After, SpentAfter, Available, Connectable, Connected;
    if i < k {
      GoneFrom(steps, i, k - 1, o);
      StepAt(steps, k - 1);
      StaysGone(After(steps[..k - 1]), SpentAfter(steps[..k - 1]), steps[k - 1].tx, steps[k - 1].height, o);
    }
  }

  /** An output once spent is not available again. */
  lemma {:induction false} SpentForGood(steps: seq<Step>, i: nat, k: nat, o: OutPoint)
    requires Runs(steps) && i < k <= |steps| && UniqueIds(steps, k) && !steps[i].tx.IsCoinBase() && o in steps[i].tx.vin
    ensures !Available(After(steps[..k]), o)
  {
    hide After, SpentAfter, Available, Connectable, Connected;
    StepAt(steps, i);
    SpentIsGone(After(steps[..i]), SpentAfter(steps[..i]), steps[i].tx, steps[i].height, o);
    AvailableKey(After(steps[..i]), o);
    CreatedBefore(steps[..i], o.hash);
    var j :| 0 <= j < i && steps[..i][j].tx.txid == o.hash;
    assert steps[j].tx.txid == o.hash;
    GoneFrom(steps, i + 1, k, o);
  }

  lemma {:induction false} NullifierStays(steps: seq<Step>, i: nat, k: nat, n: Nullifier)
    requires i < k <= |steps| && n in steps[i].tx.nullifiers
    ensures n in SpentAfter(steps[..k])
    decreases k
  {
    hide After;
    StepAt(steps, k - 1);
    if i < k - 1 {
      NullifierStays(steps, i, k - 1, n);
    }
  }

  /** Something is spent by every transaction but a coinbase. */
  ghost predicate Spends(steps: seq<Step>) {
    forall i :: 0 <= i < |steps| ==> steps[i].tx.vin != [] || steps[i].tx.nullifiers != []
  }

  lemma {:induction false} NoSecond(steps: seq<Step>, i: nat, k: nat)
    requires Runs(steps) && Spends(steps) && HashedIds(steps) && i < k < |steps| && UniqueIds(steps, k)
    ensures steps[i].tx.txid != steps[k].tx.txid
  {
    hide After, SpentAfter, Available;
    if steps[i].tx.txid == steps[k].tx.txid {
      assert Connectable(After(steps[..k]), SpentAfter(steps[..k]), steps[k].tx);
      if steps[i].tx.vin != [] {
        SpentForGood(steps, i, k, steps[i].tx.vin[0]);
        assert false;
      } else {
        NullifierStays(steps, i, k, steps[i].tx.nullifiers[0]);
        assert false;
      }
    }
  }

  /** No transaction comes twice in the chain. */
  lemma {:induction false} IdsUnique(steps: seq<Step>, n: nat)
    requires Runs(steps) && Spends(steps) && HashedIds(steps) && n <= |steps|
    ensures UniqueIds(steps, n)
  {
    hide Runs, Spends, HashedIds;
    if n > 0 {
      IdsUnique(steps, n - 1);
      forall i | 0 <= i < n - 1
        ensures steps[i].tx.txid != steps[n - 1].tx.txid
      {
        NoSecond(steps, i, n - 1);
      }
    }
  }

  lemma {:induction false} SoundSpends(net: Network, blocks: seq<Block>)
    requires Chained(net, blocks)
    ensures Spends(History(blocks))
  {
    hide IdsTell, InputsTo, NewIds, AmountsOk, GetBlockSubsidy, Fees, ValueOutOf;
    if blocks != [] {
      SoundSpends(net, blocks[..|blocks| - 1]);
    }
  }

  /** No output is spent twice in the chain. */
  lemma {:induction false} NoDoubleSpend(net: Network, blocks: seq<Block>, p: nat, q: nat, o: OutPoint)
    requires Chained(net, blocks) && HashedIds(History(blocks)) && p < q < |History(blocks)|
    requires var h := History(blocks); !h[p].tx.IsCoinBase() && !h[q].tx.IsCoinBase() && o in h[p].tx.vin
    ensures o !in History(blocks)[q].tx.vin
  {
    hide Chained, History, HashedIds, Spends, After, SpentAfter, Available;
    HistoryRuns(net, blocks);
    SoundSpends(net, blocks);
    var h := History(blocks);
    IdsUnique(h, |h|);
    SpentForGood(h, p, q, o);
    assert Connectable(After(h[..q]), SpentAfter(h[..q]), h[q].tx);
  }

  /** No shielded note is spent twice in the chain. */
  lemma {:induction false} NoNullifierTwice(net: Network, blocks: seq<Block>, p: nat, q: nat, n: Nullifier)
    requires Chained(net, blocks) && p < q < |History(blocks)| && n in History(blocks)[p].tx.nullifiers
    ensures n !in History(blocks)[q].tx.nullifiers
  {
    hide Chained, History, After, SpentAfter;
    HistoryRuns(net, blocks);
    var h := History(blocks);
    NullifierStays(h, p, q, n);
    assert Connectable(After(h[..q]), SpentAfter(h[..q]), h[q].tx);
  }

  // -------------------------------------------------------------- nothing out of nothing

  lemma {:induction false} NewOutput(tx: Tx, height: int, n: nat)
    requires FromTx(tx, height).IsAvailable(n)
    ensures n < |tx.vout| && FromTx(tx, height).vout[n] == tx.vout[n]
  {
  }

  /** An output of the transaction connected last. */
  lemma {:induction false} NewestOutput(v: View, tx: Tx, height: int, o: OutPoint)
    requires o.hash == tx.txid && Available(Connected(v, tx, height), o)
    ensures o.n < |tx.vout| && Connected(v, tx, height)[o.hash].vout[o.n] == tx.vout[o.n]
    ensures Connected(v, tx, height)[o.hash].coinBase == tx.IsCoinBase()
    ensures Connected(v, tx, height)[o.hash].height == height
  {
    hide SpendAll, Trim;
    NewOutput(tx, height, o.n);
  }

  lemma {:induction false} RunsBefore(steps: seq<Step>, n: nat)
    requires Runs(steps) && n <= |steps|
    ensures Runs(steps[..n])
    ensures n < |steps| ==> Connectable(After(steps[..n]), SpentAfter(steps[..n]), steps[n].tx)
  {
    hide Connectable, After, SpentAfter;
    forall i | 0 <= i < n
      ensures steps[..n][..i] == steps[..i]
    {
    }
  }

  lemma {:induction false} NothingAfter(o: OutPoint)
    ensures !Available(After([]), o)
  {
  }

  /** Every available output was created, with this content, by a transaction of the history. */
  lemma {:induction false} Origin(steps: seq<Step>, o: OutPoint) returns (j: nat)
    requires Runs(steps) && Available(After(steps), o)
    ensures o.hash in After(steps) && o.n < |After(steps)[o.hash].vout|
    ensures j < |steps| && steps[j].tx.txid == o.hash && o.n < |steps[j].tx.vout|
    ensures After(steps)[o.hash].vout[o.n] == steps[j].tx.vout[o.n]
    ensures After(steps)[o.hash].coinBase == steps[j].tx.IsCoinBase() && After(steps)[o.hash].height == steps[j].height
  {
    hide Runs, After, SpentAfter, Connectable, Connected;
    NothingAfter(o);
    var n := |steps| - 1;
    assert steps[..n + 1] == steps;
    StepAt(steps, n);
    RunsBefore(steps, n);
    if steps[n].tx.txid == o.hash {
      j := n;
      NewestOutput(After(steps[..n]), steps[n].tx, steps[n].height, o);
    } else {
      OlderOutput(After(steps[..n]), SpentAfter(steps[..n]), steps[n].tx, steps[n].height, o);
      j := Origin(steps[..n], o);
    }
  }

  lemma {:induction false} OlderOutput(v: View, spent: set<Nullifier>, tx: Tx, height: int, o: OutPoint)
    requires Connectable(v, spent, tx) && o.hash != tx.txid && Available(Connected(v, tx, height), o)
    ensures Available(v, o) && Connected(v, tx, height)[o.hash].vout[o.n] == v[o.hash].vout[o.n]
    ensures Connected(v, tx, height)[o.hash].coinBase == v[o.hash].coinBase
    ensures Connected(v, tx, height)[o.hash].height == v[o.hash].height
  {
    hide FromTx, SpendAll;
    Elsewhere(SpentInputs(v, tx), tx, height, o);
    if !tx.IsCoinBase() {
      SpendAllEffect(v, tx.vin, o);
      SpendKeeps(v, tx.vin, o.hash);
    }
  }

  /** Spending leaves the rest of a record alone. */
  lemma {:induction false} SpendKeeps(v: View, vin: seq<OutPoint>, k: TxId)
    requires k in SpendAll(v, vin)
    ensures k in v && SpendAll(v, vin)[k].coinBase == v[k].coinBase && SpendAll(v, vin)[k].height == v[k].height
  {
    hide Trim;
    if vin != [] {
      SpendKeeps(v, vin[..|vin| - 1], k);
    }
  }

  /** Every input in the chain spends an output created earlier in the chain, for its value. */
  lemma {:induction false} SpentWasCreated(net: Network, blocks: seq<Block>, p: nat, o: OutPoint) returns (j: nat)
    requires Chained(net, blocks) && p < |History(blocks)| && !History(blocks)[p].tx.IsCoinBase() &&
      o in History(blocks)[p].tx.vin
    ensures j < p && History(blocks)[j].tx.txid == o.hash && o.n < |History(blocks)[j].tx.vout|
    ensures ValueAt(After(History(blocks)[..p]), o) == History(blocks)[j].tx.vout[o.n].value
  {
    hide Chained, History, After, SpentAfter, Connected;
    HistoryRuns(net, blocks);
    var h := History(blocks);
    assert Connectable(After(h[..p]), SpentAfter(h[..p]), h[p].tx);
    forall i | 0 <= i < p
      ensures h[..p][..i] == h[..i]
    {
    }
    j := Origin(h[..p], o);
  }

  // ----------------------------------------------------------------- coinbases mature

  /** Every transaction was paid for when it was connected, with mature inputs. */
  ghost predicate AllFunded(steps: seq<Step>) {
    forall i :: 0 <= i < |steps| && !steps[i].tx.IsCoinBase() ==>
      Funded(After(steps[..i]), SpentAfter(steps[..i]), steps[i].tx, steps[i].height)
  }

  lemma {:induction false} FundedNext(steps: seq<Step>, s: Step)
    requires AllFunded(steps) && InputsOk(After(steps), SpentAfter(steps), s.tx, s.height)
    ensures AllFunded(steps + [s])
  {
    hide Funded, After, SpentAfter;
    var more := steps + [s];
    forall i | 0 <= i < |more| && !more[i].tx.IsCoinBase()
      ensures Funded(After(more[..i]), SpentAfter(more[..i]), more[i].tx, more[i].height)
    {
      assert more[..i] == steps[..i];
      if i == |steps| {
        assert steps[..i] == steps;
      }
    }
  }

  lemma {:induction false} BlockFunded(steps: seq<Step>, txs: Block, height: int, n: nat)
    requires AllFunded(steps) && n <= |txs| && InputsTo(After(steps), SpentAfter(steps), txs, height, |txs|)
    requires Runs(steps) && BlockConnectable(After(steps), SpentAfter(steps), txs, height)
    ensures AllFunded(steps + StepsOf(txs[..n], height))
  {
    hide AllFunded, Runs, BlockConnectable, After, SpentAfter, InputsOk, ConnectAll, NullifiersOf;
    if n == 0 {
      assert steps + StepsOf(txs[..0], height) == steps;
    } else {
      BlockFunded(steps, txs, height, n - 1);
      BlockPrefix(After(steps), SpentAfter(steps), txs, height, n - 1);
      BlockSteps(steps, txs[..n - 1], height);
      var before, last := steps + StepsOf(txs[..n - 1], height), Step(txs[n - 1], height);
      assert steps + StepsOf(txs[..n], height) == before + [last];
      FundedNext(before, last);
    }
  }

  lemma {:induction false} HistoryFunded(net: Network, blocks: seq<Block>)
    requires Chained(net, blocks)
    ensures AllFunded(History(blocks))
  {
    hide IdsTell, GetBlockSubsidy, BlockConnectable, StepsOf, ConnectAll, NullifiersOf, Runs, InputsTo, SoundBlock,
         NewIds, Fees, ValueOutOf, After, SpentAfter;
    if blocks != [] {
      var n := |blocks| - 1;
      var h := History(blocks[..n]);
      HistoryFunded(net, blocks[..n]);
      HistoryRuns(net, blocks[..n]);
      Connects(ViewOf(blocks[..n]), SpentBy(blocks[..n]), blocks[n], |blocks|, GetBlockSubsidy(net, |blocks|));
      BlockFunded(h, blocks[n], |blocks|, |blocks[n]|);
      assert blocks[n][..|blocks[n]|] == blocks[n];
    }
  }

  /** Where transaction i of block h is in the history. */
  lemma {:induction false} InHistory(blocks: seq<Block>, h: nat, i: nat) returns (p: nat)
    requires h < |blocks| && i < |blocks[h]|
    ensures p < |History(blocks)| && History(blocks)[p] == Step(blocks[h][i], h + 1)
  {
    var n := |blocks| - 1;
    if h == n {
      p := |History(blocks[..n])| + i;
    } else {
      p := InHistory(blocks[..n], h, i);
    }
  }

  /** A transaction spends from a coinbase only if at least a hundred blocks lie between: counting
      from 0, block h spends from the coinbase of block g. */
  lemma {:induction false} CoinbaseMatures(net: Network, blocks: seq<Block>, h: nat, i: nat, g: nat, o: OutPoint)
    requires Chained(net, blocks) && HashedIds(History(blocks))
    requires h < |blocks| && i < |blocks[h]| && !blocks[h][i].IsCoinBase() && o in blocks[h][i].vin
    requires g < |blocks| && 0 < |blocks[g]| && blocks[g][0].IsCoinBase() && o.hash == blocks[g][0].txid
    ensures h - g >= 100
  {
    hide Chained, History, HashedIds, After, SpentAfter, Spends, AllFunded, Runs;
    var s := History(blocks);
    var p := InHistory(blocks, h, i);
    var c := InHistory(blocks, g, 0);
    HistoryRuns(net, blocks);
    HistoryFunded(net, blocks);
    SoundSpends(net, blocks);
    IdsUnique(s, |s|);
    RunsBefore(s, p);
    MatureAt(s, p, o);
    var j := Origin(s[..p], o);
    assert s[j].tx.txid == s[c].tx.txid;
    assert j == c;
  }

  lemma {:induction false} MatureAt(steps: seq<Step>, p: nat, o: OutPoint)
    requires AllFunded(steps) && p < |steps| && !steps[p].tx.IsCoinBase() && o in steps[p].tx.vin
    ensures var v := After(steps[..p]);
            Available(v, o) && (v[o.hash].coinBase ==> steps[p].height - v[o.hash].height >= 100)
  {
    hide After, SpentAfter, ValueOf, ValueOut;
    var i :| 0 <= i < |steps[p].tx.vin| && steps[p].tx.vin[i] == o;
    assert Mature(After(steps[..p]), steps[p].tx.vin[i], steps[p].height);
  }
}
