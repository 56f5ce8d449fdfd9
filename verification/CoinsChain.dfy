/** The coins of the active chain over whole runs: whatever is connected to the tip and
    disconnected from it again, the coins are those of the blocks in the chain. */
module CoinsChain {
  import opened CoinsLayer
  import opened CoinsMoves
  import opened CoinsCache
  import opened CoinsBlock
  import opened CoinsTip

  type Block = seq<Tx>

  const COIN := 100_000
  const REWARD := 6_250 * COIN
  const INGEST_MINING_BLOCK := 1
  const TOP_INGEST_BLOCK := 1_001
  const INGEST_MINING_AMOUNT := (9_888_920 * 95 + 103_271_000 * 95 + 5_000 + 12_000_000) * COIN

  datatype NetworkParams = NetworkParams(regTest: bool, halvingInterval: nat)

  type Network = n: NetworkParams | n.halvingInterval > 0 witness NetworkParams(true, 150)

  const MAIN: Network := NetworkParams(false, 840_000)

  /** GetBlockSubsidy */
  function GetBlockSubsidy(net: Network, height: nat): nat {
    if !net.regTest && height == INGEST_MINING_BLOCK then INGEST_MINING_AMOUNT
    else if !net.regTest && height < TOP_INGEST_BLOCK then COIN
    else Halved(height / net.halvingInterval)
  }

  /** The reward shifted right; the code does not shift by 64 or more. */
  function Halved(halvings: nat): nat {
    if halvings >= 64 then 0 else Shifted(halvings)
  }

  function Shifted(k: nat): nat {
    if k == 0 then REWARD else Shifted(k - 1) / 2
  }

  /** The coins after these blocks; those of the genesis block are never entered. */
  ghost function ViewOf(blocks: seq<Block>): View {
    if blocks == [] then map[] else ConnectAll(ViewOf(blocks[..|blocks| - 1]), blocks[|blocks| - 1], |blocks|)
  }

  ghost function SpentBy(blocks: seq<Block>): set<Nullifier> {
    if blocks == [] then {} else SpentBy(blocks[..|blocks| - 1]) + NullifiersOf(blocks[|blocks| - 1])
  }

  /** The undo data kept on disk. */
  ghost function UndosOf(blocks: seq<Block>): seq<seq<seq<Undo>>> {
    if blocks == [] then []
    else UndosOf(blocks[..|blocks| - 1]) + [BlockUndo(ViewOf(blocks[..|blocks| - 1]), blocks[|blocks| - 1], |blocks|)]
  }

  /** Every block was acceptable after those before it. */
  ghost predicate Chained(net: Network, blocks: seq<Block>) {
    blocks == [] ||
    (Chained(net, blocks[..|blocks| - 1]) && IdsTell(blocks[|blocks| - 1]) &&
     Acceptable(ViewOf(blocks[..|blocks| - 1]), SpentBy(blocks[..|blocks| - 1]), blocks[|blocks| - 1],
                |blocks|, GetBlockSubsidy(net, |blocks|)))
  }

  lemma {:induction false} NoBlocks(net: Network)
    ensures ViewOf([]) == map[] && SpentBy([]) == {} && UndosOf([]) == [] && Chained(net, [])
  {
  }

  lemma {:induction false} OneMore(net: Network, blocks: seq<Block>, txs: Block)
    ensures var more := blocks + [txs];
            ViewOf(more) == ConnectAll(ViewOf(blocks), txs, |more|) &&
            SpentBy(more) == SpentBy(blocks) + NullifiersOf(txs) &&
            UndosOf(more) == UndosOf(blocks) + [BlockUndo(ViewOf(blocks), txs, |more|)] &&
            (Chained(net, more) <==> Chained(net, blocks) && IdsTell(txs) &&
                                     Acceptable(ViewOf(blocks), SpentBy(blocks), txs, |more|,
                                       GetBlockSubsidy(net, |more|)))
  {
    hide ConnectAll, NullifiersOf, BlockUndo, IdsTell, Acceptable, GetBlockSubsidy;
    var more := blocks + [txs];
    assert more[..|more| - 1] == blocks;
  }

  lemma {:induction false} Connects(v: View, spent: set<Nullifier>, txs: Block, height: int, subsidy: int)
    requires IdsTell(txs) && Acceptable(v, spent, txs, height, subsidy)
    ensures txs != [] && BlockConnectable(v, spent, txs, height)
  {
    hide InputsTo, NewIds, IdsTell;
    NothingOverwritten(v, spent, txs, height, |txs|);
    assert txs[..|txs|] == txs;
  }

  /** The records of the chain are as the node keeps them. */
  lemma {:induction false} ChainProper(net: Network, blocks: seq<Block>)
    requires Chained(net, blocks)
    ensures AllProper(ViewOf(blocks)) && AllMined(ViewOf(blocks))
  {
    if blocks != [] {
      hide AllProper, AllMined, IdsTell, Acceptable, BlockConnectable, GetBlockSubsidy;
      var n := |blocks| - 1;
      ChainProper(net, blocks[..n]);
      Connects(ViewOf(blocks[..n]), SpentBy(blocks[..n]), blocks[n], |blocks|, GetBlockSubsidy(net, |blocks|));
      ConnectAllProper(ViewOf(blocks[..n]), SpentBy(blocks[..n]), blocks[n], |blocks|);
    }
  }

  /** Disconnecting the last block of a chain, with its undo data, gives the chain before it. */
  lemma {:induction false} LastUndone(net: Network, blocks: seq<Block>, txs: Block)
    requires Chained(net, blocks + [txs])
    ensures var v := ViewOf(blocks + [txs]); var height := |blocks| + 1;
            var undos := BlockUndo(ViewOf(blocks), txs, height);
            Shaped(txs, undos) && BlockFits(v, txs, undos, height) && DisconnectAll(v, txs, undos) == ViewOf(blocks)
    ensures SpentBy(blocks + [txs]) - NullifiersOf(txs) == SpentBy(blocks)
  {
    hide ConnectAll, NullifiersOf, BlockUndo, IdsTell, Acceptable, AllProper, AllMined, BlockConnectable, Shaped,
         BlockFits, DisconnectAll, ViewOf, SpentBy, UndosOf, Chained, GetBlockSubsidy;
    OneMore(net, blocks, txs);
    ChainProper(net, blocks);
    Connects(ViewOf(blocks), SpentBy(blocks), txs, |blocks| + 1, GetBlockSubsidy(net, |blocks| + 1));
    DisconnectAllExact(ViewOf(blocks), SpentBy(blocks), txs, |blocks| + 1);
    NullifiersNew(ViewOf(blocks), SpentBy(blocks), txs, |blocks| + 1);
  }

  /** The tip cache and the blocks of the active chain after the genesis block. */
  class ChainState {
    const net: Network
    const tip: CoinsViewCache
    var blocks: seq<Block>
    var undos: seq<seq<seq<Undo>>>

    /** The coins are those of the chain. */
    ghost predicate Valid()
      reads this, tip, tip.Repr
    {
      this !in tip.Repr && tip.Valid() && tip.modifier == NoModifier &&
      Chained(net, blocks) && tip.view == ViewOf(blocks) && tip.spent == SpentBy(blocks) && undos == UndosOf(blocks)
    }

    /** A chain of the genesis block only. */
    constructor (net: Network, db: CoinsViewDB)
      requires db.coins == map[] && db.nullifiers == {}
      ensures Valid() && this.net == net && blocks == [] && fresh(tip) && tip.Repr == {tip, db}
    {
      this.net := net;
      tip := new CoinsViewCache(Db(db));
      blocks, undos := [], [];
      NoBlocks(net);
    }

    /** ConnectTip: the block is connected if it is acceptable after the chain, and nothing changes
        otherwise. */
    method ConnectTip(txs: Block) returns (ok: bool)
      requires Valid() && IdsTell(txs)
      modifies this, tip.Repr
      ensures Valid()
      ensures ok <==> Acceptable(ViewOf(old(blocks)), SpentBy(old(blocks)), txs, |old(blocks)| + 1,
        GetBlockSubsidy(net, |old(blocks)| + 1))
      ensures blocks == if ok then old(blocks) + [txs] else old(blocks)
    {
      hide CoinsViewCache.Valid, CoinsViewCache.Beneath, ConnectAll, NullifiersOf, BlockUndo, IdsTell, Acceptable,
           GetBlockSubsidy, ViewOf, SpentBy, UndosOf, Chained;
      var cache := new CoinsViewCache(Cache(tip));
      BaseValid(cache);
      var undo: seq<seq<Undo>>;
      ok, undo := ConnectBlock(cache, txs, |blocks| + 1, GetBlockSubsidy(net, |blocks| + 1));
      OneMore(net, blocks, txs);
      if ok {
        cache.Flush();
        blocks, undos := blocks + [txs], undos + [undo];
      }
      BaseValid(cache);
    }

    /** DisconnectTip: always succeeds, and leaves the chain before the last block. */
    method DisconnectTip() returns (ok: bool)
      requires Valid() && blocks != []
      modifies this, tip.Repr
      ensures ok && Valid() && blocks == old(blocks)[..|old(blocks)| - 1]
    {
      hide CoinsViewCache.Valid, CoinsViewCache.Beneath, ConnectAll, NullifiersOf, BlockUndo, IdsTell, Acceptable,
           GetBlockSubsidy, ViewOf, SpentBy, UndosOf, Chained, Shaped, BlockFits, DisconnectAll;
      var n := |blocks| - 1;
      var txs, left := blocks[n], blocks[..n];
      assert blocks == left + [txs];
      OneMore(net, left, txs);
      LastUndone(net, left, txs);
      var cache := new CoinsViewCache(Cache(tip));
      BaseValid(cache);
      var r := DisconnectBlock(cache, txs, undos[|undos| - 1], n + 1);
      ok := r == Ok;
      if ok {
        cache.Flush();
        blocks, undos := left, undos[..|undos| - 1];
      }
      BaseValid(cache);
    }

    /** FlushStateToDisk: the database then holds the coins of the chain. */
    method FlushStateToDisk()
      requires Valid()
      modifies tip.Repr
      ensures Valid() && blocks == old(blocks) && tip.Beneath() == (ViewOf(blocks), SpentBy(blocks))
    {
      hide CoinsViewCache.Valid, ViewOf, SpentBy, UndosOf, Chained;
      tip.Flush();
    }
  }
}
