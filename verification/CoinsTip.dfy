/** The coins of the active chain: blocks checked, connected to the tip and disconnected from it,
    ConnectTip and DisconnectTip of src/main.cpp. */
module CoinsTip {
  import opened AmountCodec
  import opened CoinsLayer
  import opened CoinsMoves
  import opened CoinsCache
  import opened CoinsBlock

  // ------------------------------------------------------------- checks without context

  ghost predicate Different(ns: seq<Nullifier>) {
    forall i, j :: 0 <= i < j < |ns| ==> ns[i] != ns[j]
  }

  method NoDuplicateNullifiers(ns: seq<Nullifier>) returns (ok: bool)
    ensures ok <==> Different(ns)
  {
    var seen := {};
    for i := 0 to |ns|
      invariant seen == set j | 0 <= j < i :: ns[j]
      invariant Different(ns[..i])
    {
      if ns[i] in seen {
        return false;
      }
      seen := seen + {ns[i]};
    }
    assert ns[..|ns|] == ns;
    ok := true;
  }

  /** What CheckTransaction demands: something spent, something created, the amounts money, nothing
      spent twice, and a coinbase or real inputs. */
  ghost predicate Sound(tx: Tx) {
    (tx.vin != [] || tx.nullifiers != []) && (tx.vout != [] || tx.shieldedOutputs > 0) && AmountsOk(tx) &&
    Distinct(tx.vin) && Different(tx.nullifiers) &&
    if tx.IsCoinBase() then tx.nullifiers == [] && tx.shieldedOutputs == 0 else NULL_POINT !in tx.vin
  }

  /** CheckTransaction */
  method CheckTransaction(tx: Tx) returns (ok: bool)
    ensures ok <==> Sound(tx)
  {
    hide AmountsOk, Distinct, Different;
    if tx.vin == [] && tx.nullifiers == [] {
      return false;
    }
    if tx.vout == [] && tx.shieldedOutputs == 0 {
      return false;
    }
    ok := CheckAmounts(tx);
    if !ok {
      return;
    }
    ok := NoDuplicateInputs(tx.vin);
    if !ok {
      return;
    }
    ok := NoDuplicateNullifiers(tx.nullifiers);
    if !ok {
      return;
    }
    if tx.IsCoinBase() {
      return tx.nullifiers == [] && tx.shieldedOutputs == 0;
    }
    for i := 0 to |tx.vin|
      invariant forall k :: 0 <= k < i ==> tx.vin[k] != NULL_POINT
    {
      if tx.vin[i] == NULL_POINT {
        return false;
      }
    }
  }

  /** What CheckBlock demands of the transactions: exactly the first is a coinbase. */
  ghost predicate SoundBlock(txs: seq<Tx>) {
    txs != [] && (forall i :: 0 <= i < |txs| ==> Sound(txs[i])) && forall i :: 0 <= i < |txs| ==>
      (txs[i].IsCoinBase() <==> i == 0)
  }

  /** CheckBlock */
  method CheckBlock(txs: seq<Tx>) returns (ok: bool)
    ensures ok <==> SoundBlock(txs)
  {
    hide Sound;
    if txs == [] || !txs[0].IsCoinBase() {
      return false;
    }
    var coinBases := 0;
    for i := 0 to |txs|
      invariant coinBases == if i == 0 then 0 else 1
      invariant forall k :: 0 <= k < i ==> Sound(txs[k]) && (txs[k].IsCoinBase() <==> k == 0)
    {
      if txs[i].IsCoinBase() {
        coinBases := coinBases + 1;
        if coinBases > 1 {
          return false;
        }
      }
      ok := CheckTransaction(txs[i]);
      if !ok {
        return;
      }
    }
    ok := true;
  }

  // ------------------------------------------------------------ checks against the view

  const COINBASE_MATURITY := 100

  /** What a transaction creates; a negative value balance is a payment into the shielded pool. */
  ghost function ValueOutOf(tx: Tx): int {
    ValueOut(tx.vout, |tx.vout|) + if tx.valueBalance <= 0 then -tx.valueBalance else 0
  }

  /** What it spends; a positive value balance is a payment out of the shielded pool. */
  ghost function ValueInOf(v: View, tx: Tx): int {
    ValueOf(v, tx.vin) + if tx.valueBalance >= 0 then tx.valueBalance else 0
  }

  /** An input may be spent at this height: a coinbase has to be mature. */
  ghost predicate Mature(v: View, o: OutPoint, height: int) {
    Available(v, o) && (v[o.hash].coinBase ==> height - v[o.hash].height >= COINBASE_MATURITY) && Money(ValueAt(v, o))
  }

  /** Available and mature inputs with amounts in range, and unspent nullifiers. */
  ghost predicate InputsReady(v: View, spent: set<Nullifier>, tx: Tx, height: int) {
    (forall i :: 0 <= i < |tx.vin| ==> Mature(v, tx.vin[i], height)) &&
    (forall n :: n in tx.nullifiers ==> n !in spent) && Money(ValueOf(v, tx.vin))
  }

  /** And no more created than spent. */
  ghost predicate Funded(v: View, spent: set<Nullifier>, tx: Tx, height: int) {
    InputsReady(v, spent, tx, height) && Money(ValueInOf(v, tx)) && ValueInOf(v, tx) >= ValueOutOf(tx)
  }

  /** What ConnectBlock demands of the inputs of a transaction. */
  ghost predicate InputsOk(v: View, spent: set<Nullifier>, tx: Tx, height: int) {
    tx.IsCoinBase() || Funded(v, spent, tx, height)
  }

  /** Each of the first n transactions finds its inputs after those before it. */
  ghost predicate InputsTo(v: View, spent: set<Nullifier>, txs: seq<Tx>, height: int, n: nat)
    requires n <= |txs|
  {
    forall i :: 0 <= i < n ==> InputsOk(ConnectAll(v, txs[..i], height), spent + NullifiersOf(txs[..i]), txs[i], height)
  }

  /** The check that no transaction of the block overwrites an unspent one. */
  ghost predicate NewIds(v: View, txs: seq<Tx>) {
    forall i :: 0 <= i < |txs| ==> txs[i].txid !in v
  }

  /** The fees of the first n transactions. */
  ghost function Fees(v: View, txs: seq<Tx>, height: int, n: nat): int
    requires n <= |txs|
  {
    if n == 0 then 0
    else
      var tx := txs[n - 1];
      Fees(v, txs, height, n - 1) +
      if tx.IsCoinBase() then 0 else ValueInOf(ConnectAll(v, txs[..n - 1], height), tx) - ValueOutOf(tx)
  }

  /** All ConnectBlock checks of the coins; the coinbase pays out no more than fees and subsidy. */
  ghost predicate Acceptable(v: View, spent: set<Nullifier>, txs: seq<Tx>, height: int, subsidy: int) {
    SoundBlock(txs) && NewIds(v, txs) && InputsTo(v, spent, txs, height, |txs|) &&
    ValueOutOf(txs[0]) <= Fees(v, txs, height, |txs|) + subsidy
  }

  /** An id is the hash of the transaction. */
  ghost predicate IdsTell(txs: seq<Tx>) {
    forall i, j :: 0 <= i < j < |txs| && txs[i].txid == txs[j].txid ==> txs[i] == txs[j]
  }

  ghost predicate UniqueTo(txs: seq<Tx>, n: nat)
    requires n <= |txs|
  {
    forall i, j :: 0 <= i < j < n ==> txs[i].txid != txs[j].txid
  }

  // ------------------------------------------------- nothing in a block is overwritten

  /** Records come from the view before or from the block. */
  lemma {:induction false} KeysFrom(v: View, txs: seq<Tx>, height: int, k: TxId)
    requires k in ConnectAll(v, txs, height) && k !in v
    ensures exists j :: 0 <= j < |txs| && txs[j].txid == k
  {
    hide SpendAll, FromTx;
    if txs != [] {
      var n := |txs| - 1;
      var w := ConnectAll(v, txs[..n], height);
      if txs[n].txid != k {
        FromBefore(w, txs[n], height, k);
        KeysFrom(v, txs[..n], height, k);
        var j :| 0 <= j < n && txs[..n][j].txid == k;
        assert txs[j].txid == k;
      }
    }
  }

  lemma {:induction false} FromBefore(v: View, tx: Tx, height: int, k: TxId)
    requires k in Connected(v, tx, height) && k != tx.txid
    ensures k in v
  {
    hide FromTx;
    if !tx.IsCoinBase() {
      SpendKeys(v, tx.vin, k);
    }
  }

  lemma {:induction false} SpendKeys(v: View, vin: seq<OutPoint>, k: TxId)
    requires k in SpendAll(v, vin)
    ensures k in v
  {
    if vin != [] {
      SpendKeys(v, vin[..|vin| - 1], k);
    }
  }

  /** A spent output is gone. */
  lemma {:induction false} SpentIsGone(v: View, spent: set<Nullifier>, tx: Tx, height: int, o: OutPoint)
    requires Connectable(v, spent, tx) && !tx.IsCoinBase() && o in tx.vin
    ensures Available(v, o) && o.hash != tx.txid && !Available(Connected(v, tx, height), o)
  {
    hide FromTx;
    assert Available(v, o);
    SpendAllEffect(v, tx.vin, o);
    Elsewhere(SpentInputs(v, tx), tx, height, o);
  }

  lemma {:induction false} Elsewhere(v: View, tx: Tx, height: int, o: OutPoint)
    requires o.hash != tx.txid
    ensures Available(Put(v, tx.txid, FromTx(tx, height)), o) <==> Available(v, o)
  {
    hide FromTx;
  }

  /** What is gone stays gone, unless the transaction comes again. */
  lemma {:induction false} StaysGone(v: View, spent: set<Nullifier>, tx: Tx, height: int, o: OutPoint)
    requires Connectable(v, spent, tx) && !Available(v, o) && o.hash != tx.txid
    ensures !Available(Connected(v, tx, height), o)
  {
    hide FromTx, Available, SpendAll, Put;
    if !tx.IsCoinBase() {
      SpendAllEffect(v, tx.vin, o);
    }
    Elsewhere(SpentInputs(v, tx), tx, height, o);
  }

  /** The view before transaction i of the block. */
  ghost function Before(v: View, txs: seq<Tx>, height: int, i: nat): View
    requires i <= |txs|
  {
    ConnectAll(v, txs[..i], height)
  }

  lemma {:induction false} BeforeNext(v: View, txs: seq<Tx>, height: int, i: nat)
    requires i < |txs|
    ensures Before(v, txs, height, i + 1) == Connected(Before(v, txs, height, i), txs[i], height)
  {
    hide Connected;
    assert txs[..i + 1][..i] == txs[..i];
  }

  /** With different ids so far, what has its inputs can be connected. */
  lemma {:induction false} NextConnectable(v: View, spent: set<Nullifier>, txs: seq<Tx>, height: int, i: nat)
    requires SoundBlock(txs) && NewIds(v, txs) && i < |txs| && InputsTo(v, spent, txs, height, i + 1) &&
      UniqueTo(txs, i + 1)
    ensures Connectable(Before(v, txs, height, i), spent + NullifiersOf(txs[..i]), txs[i])
  {
    hide ConnectAll, NullifiersOf, AllAvailable;
    if txs[i].txid in Before(v, txs, height, i) {
      KeysFrom(v, txs[..i], height, txs[i].txid);
      assert false;
    }
    assert Sound(txs[i]);
    FundedAvailable(Before(v, txs, height, i), spent + NullifiersOf(txs[..i]), txs[i], height);
  }

  /** Between i and k nothing with the id of o comes again: what is gone at i is gone at k. */
  lemma {:induction false} GoneTo(v: View, spent: set<Nullifier>, txs: seq<Tx>, height: int, i: nat, k: nat,
          o: OutPoint)
    requires SoundBlock(txs) && NewIds(v, txs) && i <= k <= |txs| && InputsTo(v, spent, txs, height, k) &&
      UniqueTo(txs, k)
    requires !Available(Before(v, txs, height, i), o) && forall m :: i <= m < k ==> txs[m].txid != o.hash
    ensures !Available(Before(v, txs, height, k), o)
    decreases k
  {
    hide Before, Available, Connectable, Connected, SoundBlock, NewIds, InputsOk;
    if i < k {
      GoneTo(v, spent, txs, height, i, k - 1, o);
      NextConnectable(v, spent, txs, height, k - 1);
      BeforeNext(v, txs, height, k - 1);
      StaysGone(Before(v, txs, height, k - 1), spent + NullifiersOf(txs[..k - 1]), txs[k - 1], height, o);
    }
  }

  /** An input of transaction i is not available again before transaction k. */
  lemma {:induction false} SpentInBlock(v: View, spent: set<Nullifier>, txs: seq<Tx>, height: int, i: nat, k: nat,
          o: OutPoint)
    requires SoundBlock(txs) && NewIds(v, txs) && i < k <= |txs| && InputsTo(v, spent, txs, height, k) &&
      UniqueTo(txs, k)
    requires !txs[i].IsCoinBase() && o in txs[i].vin
    ensures !Available(Before(v, txs, height, k), o)
  {
    hide SoundBlock, InputsOk, Connectable, Connected, ConnectAll, Available;
    NextConnectable(v, spent, txs, height, i);
    SpentIsGone(Before(v, txs, height, i), spent + NullifiersOf(txs[..i]), txs[i], height, o);
    BeforeNext(v, txs, height, i);
    AvailableKey(Before(v, txs, height, i), o);
    forall m | i + 1 <= m < k
      ensures txs[m].txid != o.hash
    {
      if o.hash !in v {
        KeysFrom(v, txs[..i], height, o.hash);
        var j :| 0 <= j < i && txs[..i][j].txid == o.hash;
        assert txs[j].txid == o.hash;
      }
    }
    GoneTo(v, spent, txs, height, i + 1, k, o);
  }

  lemma {:induction false} AvailableKey(v: View, o: OutPoint)
    requires Available(v, o)
    ensures o.hash in v
  {
  }

  lemma {:induction false} NullifierIn(txs: seq<Tx>, i: nat, n: Nullifier)
    requires i < |txs| && n in txs[i].nullifiers
    ensures n in NullifiersOf(txs)
  {
    if i < |txs| - 1 {
      NullifierIn(txs[..|txs| - 1], i, n);
    }
  }

  /** A transaction does not come twice in a block: the second time its inputs would be spent. */
  lemma {:induction false} NotAgain(v: View, spent: set<Nullifier>, txs: seq<Tx>, height: int, i: nat, k: nat)
    requires SoundBlock(txs) && NewIds(v, txs) && i < k < |txs| && InputsTo(v, spent, txs, height, k + 1) &&
      UniqueTo(txs, k)
    ensures txs[i] != txs[k]
  {
    hide ConnectAll, NullifiersOf, Available, AmountsOk, Distinct, Different;
    if txs[i] == txs[k] {
      assert Sound(txs[k]) && !txs[k].IsCoinBase();
      assert InputsOk(Before(v, txs, height, k), spent + NullifiersOf(txs[..k]), txs[k], height);
      if txs[k].vin != [] {
        SpentInBlock(v, spent, txs, height, i, k, txs[i].vin[0]);
        assert false;
      } else {
        NullifierIn(txs[..k], i, txs[i].nullifiers[0]);
        assert false;
      }
    }
  }

  lemma {:induction false} UniqueMore(txs: seq<Tx>, n: nat)
    requires 0 < n <= |txs| && UniqueTo(txs, n - 1) && forall i :: 0 <= i < n - 1 ==> txs[i].txid != txs[n - 1].txid
    ensures UniqueTo(txs, n)
  {
  }

  lemma {:induction false} IdTells(txs: seq<Tx>, i: nat, j: nat)
    requires IdsTell(txs) && i < j < |txs| && txs[i] != txs[j]
    ensures txs[i].txid != txs[j].txid
  {
  }

  lemma {:induction false} UniqueNone(txs: seq<Tx>)
    ensures UniqueTo(txs, 0)
  {
  }

  lemma {:induction false} AllUnique(v: View, spent: set<Nullifier>, txs: seq<Tx>, height: int, n: nat)
    requires SoundBlock(txs) && NewIds(v, txs) && IdsTell(txs) && n <= |txs| && InputsTo(v, spent, txs, height, n)
    ensures UniqueTo(txs, n)
  {
    hide SoundBlock, NewIds, InputsTo, IdsTell, UniqueTo;
    if n == 0 {
      UniqueNone(txs);
    } else {
      InputsLess(v, spent, txs, height, n);
      AllUnique(v, spent, txs, height, n - 1);
      forall i | 0 <= i < n - 1
        ensures txs[i].txid != txs[n - 1].txid
      {
        NotAgain(v, spent, txs, height, i, n - 1);
        IdTells(txs, i, n - 1);
      }
      UniqueMore(txs, n);
    }
  }

  lemma {:induction false} InputsLess(v: View, spent: set<Nullifier>, txs: seq<Tx>, height: int, n: nat)
    requires 0 < n <= |txs| && InputsTo(v, spent, txs, height, n)
    ensures InputsTo(v, spent, txs, height, n - 1)
  {
    hide InputsOk, ConnectAll, NullifiersOf;
  }

  /** The check against overwriting looks at the view before the block only. It suffices: in a
      block that passes it and has its inputs, no transaction overwrites an unspent one. */
  lemma {:induction false} NothingOverwritten(v: View, spent: set<Nullifier>, txs: seq<Tx>, height: int, n: nat)
    requires SoundBlock(txs) && NewIds(v, txs) && IdsTell(txs) && n <= |txs| && InputsTo(v, spent, txs, height, n)
    ensures BlockConnectable(v, spent, txs[..n], height)
  {
    hide NewIds, InputsOk, Connectable, ConnectAll, NullifiersOf, Sound;
    AllUnique(v, spent, txs, height, n);
    forall i | 0 <= i < n
      ensures Connectable(ConnectAll(v, txs[..n][..i], height), spent + NullifiersOf(txs[..n][..i]), txs[..n][i])
    {
      NextConnectable(v, spent, txs, height, i);
      assert txs[..n][..i] == txs[..i];
    }
  }

  // ----------------------------------------------------------------------- connecting

  /** The loop of ConnectBlock against overwriting. */
  method OverwritesNothing(cache: CoinsViewCache, txs: seq<Tx>) returns (ok: bool)
    requires cache.Valid() && cache.modifier == NoModifier
    modifies cache.Repr
    ensures cache.Valid() && cache.modifier == NoModifier && cache.Beneath() == old(cache.Beneath())
    ensures cache.view == old(cache.view) && cache.spent == old(cache.spent)
    ensures ok <==> NewIds(cache.view, txs)
  {
    hide CoinsViewCache.Valid, CoinsViewCache.Beneath, Shows, Grown;
    for i := 0 to |txs|
      invariant cache.Valid() && cache.modifier == NoModifier && cache.Beneath() == old(cache.Beneath())
      invariant cache.view == old(cache.view) && cache.spent == old(cache.spent)
      invariant forall k :: 0 <= k < i ==> txs[k].txid !in cache.view
    {
      var found, c := cache.GetCoins(txs[i].txid);
      if found {
        ShownPruned(cache.view, c, OutPoint(txs[i].txid, 0));
      }
      if found && !c.IsPruned() {
        return false;
      }
    }
    ok := true;
  }

  /** Every amount GetValueOut adds up, and the total, is money. */
  ghost predicate OutputsOk(tx: Tx) {
    (forall i :: 0 <= i < |tx.vout| ==> Money(tx.vout[i].value)) && Money(ValueOut(tx.vout, |tx.vout|)) &&
    (tx.valueBalance <= 0 ==> Money(-tx.valueBalance) && Money(ValueOutOf(tx)))
  }

  /** GetValueOut; it throws exactly when an amount or the total is out of range. */
  method GetValueOut(tx: Tx) returns (ok: bool, value: int)
    ensures ok <==> OutputsOk(tx)
    ensures AmountsOk(tx) ==> ok
    ensures ok ==> value == ValueOutOf(tx) && Money(value)
  {
    value := 0;
    for i := 0 to |tx.vout|
      invariant value == ValueOut(tx.vout, i) && Money(value)
      invariant forall k :: 0 <= k < i ==> Money(tx.vout[k].value)
    {
      value := value + tx.vout[i].value;
      if !Money(tx.vout[i].value) || !Money(value) {
        if forall k :: 0 <= k < |tx.vout| ==> Money(tx.vout[k].value) {
          ValueGrows(tx.vout, i + 1, |tx.vout|);
        }
        return false, value;
      }
    }
    ok := true;
    if tx.valueBalance <= 0 {
      value := value - tx.valueBalance;
      ok := Money(-tx.valueBalance) && Money(value);
    }
  }

  /** Input values add up to no more with every input. */
  lemma {:induction false} ValueOfGrows(v: View, vin: seq<OutPoint>, m: nat)
    requires m <= |vin| && forall i :: 0 <= i < |vin| ==> ValueAt(v, vin[i]) >= 0
    ensures 0 <= ValueOf(v, vin[..m]) <= ValueOf(v, vin)
    decreases |vin|
  {
    hide ValueAt;
    if m == |vin| {
      assert vin[..m] == vin;
      if vin != [] {
        ValueOfGrows(v, vin[..m - 1], m - 1);
        assert vin[..m - 1][..m - 1] == vin[..m - 1];
      }
    } else {
      ValueOfGrows(v, vin[..|vin| - 1], m);
      assert vin[..|vin| - 1][..m] == vin[..m];
    }
  }

  lemma {:induction false} ValueNext(v: View, vin: seq<OutPoint>, i: nat)
    requires i < |vin|
    ensures ValueOf(v, vin[..i + 1]) == ValueOf(v, vin[..i]) + ValueAt(v, vin[i])
  {
    assert vin[..i + 1][..i] == vin[..i];
  }

  /** The loop of CheckTxInputs: stopping at the first bad total decides about all of them. */
  method InputValues(cache: CoinsViewCache, tx: Tx, height: int) returns (ok: bool, value: int)
    requires cache.Valid() && cache.modifier == NoModifier && AllAvailable(cache.view, tx.vin)
    modifies cache.Repr
    ensures cache.Valid() && cache.modifier == NoModifier && cache.Beneath() == old(cache.Beneath())
    ensures cache.view == old(cache.view) && cache.spent == old(cache.spent)
    ensures ok <==>
      (forall i :: 0 <= i < |tx.vin| ==> Mature(cache.view, tx.vin[i], height)) &&
      Money(ValueOf(cache.view, tx.vin))
    ensures ok ==> value == ValueOf(cache.view, tx.vin)
  {
    hide CoinsViewCache.Valid, CoinsViewCache.Beneath, Shows, Grown, ValueOf;
    value := 0;
    NoValue(cache.view);
    assert tx.vin[..0] == [];
    for i := 0 to |tx.vin|
      invariant cache.Valid() && cache.modifier == NoModifier && cache.Beneath() == old(cache.Beneath())
      invariant cache.view == old(cache.view) && cache.spent == old(cache.spent)
      invariant value == ValueOf(cache.view, tx.vin[..i]) && Money(value)
      invariant forall k :: 0 <= k < i ==> Mature(cache.view, tx.vin[k], height)
    {
      var o := tx.vin[i];
      var found, c := cache.GetCoins(o.hash);
      assert found;
      ShownAvailable(cache.view, c, o);
      if c.coinBase && height - c.height < COINBASE_MATURITY {
        assert !Mature(cache.view, tx.vin[i], height);
        return false, value;
      }
      value := value + c.vout[o.n].value;
      ValueNext(cache.view, tx.vin, i);
      if !Money(c.vout[o.n].value) || !Money(value) {
        if forall k :: 0 <= k < |tx.vin| ==> Mature(cache.view, tx.vin[k], height) {
          ValueOfGrows(cache.view, tx.vin, i + 1);
        }
        return false, value;
      }
    }
    assert tx.vin[..|tx.vin|] == tx.vin;
    ok := true;
  }

  lemma {:induction false} NoValue(v: View)
    ensures ValueOf(v, []) == 0
  {
  }

  /** CheckTxInputs; it throws when it comes to an amount of the transaction that is out of range. */
  method CheckTxInputs(cache: CoinsViewCache, tx: Tx, height: int) returns (ok: bool, thrown: bool)
    requires cache.Valid() && cache.modifier == NoModifier && !tx.IsCoinBase()
    modifies cache.Repr
    ensures cache.Valid() && cache.modifier == NoModifier && cache.Beneath() == old(cache.Beneath())
    ensures cache.view == old(cache.view) && cache.spent == old(cache.spent)
    ensures ok <==> Funded(cache.view, cache.spent, tx, height) && OutputsOk(tx)
    ensures thrown <==> InputsReady(cache.view, cache.spent, tx, height) &&
                        (tx.valueBalance > MAX_MONEY || (Money(ValueInOf(cache.view, tx)) && !OutputsOk(tx)))
  {
    hide CoinsViewCache.Valid, CoinsViewCache.Beneath, ValueOf, ValueOut, OutputsOk;
    thrown := false;
    ok := HaveInputs(cache, tx);
    if !ok {
      return;
    }
    ok := NullifiersUnspent(cache, tx);
    if !ok {
      return;
    }
    var value: int;
    ok, value := InputValues(cache, tx, height);
    if !ok {
      return;
    }
    if tx.valueBalance >= 0 {
      if !Money(tx.valueBalance) {
        return false, true;
      }
      value := value + tx.valueBalance;
    }
    if !Money(value) {
      return false, false;
    }
    var inRange, valueOut := GetValueOut(tx);
    if !inRange {
      return false, true;
    }
    if value < valueOut {
      return false, false;
    }
    ok := Money(value - valueOut);
  }

  /** What ConnectBlock asks of one transaction, and its fee. */
  method CheckInputs(cache: CoinsViewCache, tx: Tx, height: int) returns (ok: bool, fee: int)
    requires cache.Valid() && cache.modifier == NoModifier && AmountsOk(tx)
    modifies cache.Repr
    ensures cache.Valid() && cache.modifier == NoModifier && cache.Beneath() == old(cache.Beneath())
    ensures cache.view == old(cache.view) && cache.spent == old(cache.spent)
    ensures ok <==> InputsOk(cache.view, cache.spent, tx, height)
    ensures ok ==> fee == if tx.IsCoinBase() then 0 else ValueInOf(cache.view, tx) - ValueOutOf(tx)
  {
    hide CoinsViewCache.Valid, CoinsViewCache.Beneath, ValueOf, ValueOut, Mature;
    fee := 0;
    if tx.IsCoinBase() {
      return true, 0;
    }
    ok := HaveInputs(cache, tx);
    if !ok {
      FundedAvailable(cache.view, cache.spent, tx, height);
      return;
    }
    ok := NullifiersUnspent(cache, tx);
    if !ok {
      return;
    }
    var inRange, valueIn := GetValueIn(cache, tx);
    assert inRange;
    var outRange, valueOut := GetValueOut(tx);
    fee := valueIn - valueOut;
    var thrown: bool;
    ok, thrown := CheckTxInputs(cache, tx, height);
    assert !thrown;
  }

  lemma {:induction false} FundedAvailable(v: View, spent: set<Nullifier>, tx: Tx, height: int)
    ensures Funded(v, spent, tx, height) ==> AllAvailable(v, tx.vin)
  {
  }

  /** ConnectBlock, on a new cache: the block is connected exactly if it is acceptable. */
  method ConnectBlock(cache: CoinsViewCache, txs: seq<Tx>, height: int, subsidy: int)
    returns (ok: bool, undos: seq<seq<Undo>>)
    requires cache.Valid() && cache.modifier == NoModifier && cache.view == cache.Beneath().0 && IdsTell(txs)
    modifies cache.Repr
    ensures cache.Valid() && cache.modifier == NoModifier && cache.Beneath() == old(cache.Beneath())
    ensures ok <==> Acceptable(old(cache.view), old(cache.spent), txs, height, subsidy)
    ensures ok ==>
      cache.view == ConnectAll(old(cache.view), txs, height) &&
      cache.spent == old(cache.spent) + NullifiersOf(txs)
    ensures ok ==> undos == BlockUndo(old(cache.view), txs, height)
  {
    hide CoinsViewCache.Valid, CoinsViewCache.Beneath, Sound, InputsOk, InputsTo, IdsTell, ValueInOf, ValueOutOf,
         Connectable, ConnectAll, NullifiersOf, BlockUndo, Range, Fees, BlockConnectable, Connected;
    undos := [];
    ok := CheckBlock(txs);
    if !ok {
      return;
    }
    ok := OverwritesNothing(cache, txs);
    if !ok {
      return;
    }
    ghost var v, spent := cache.view, cache.spent;
    NothingConnected(v, height);
    assert txs[..0] == [];
    var fees := 0;
    NoFees(v, txs, height);
    NoInputs(v, spent, txs, height);
    for i := 0 to |txs|
      invariant cache.Valid() && cache.modifier == NoModifier && cache.Beneath() == old(cache.Beneath())
      invariant InputsTo(v, spent, txs, height, i) && fees == Fees(v, txs, height, i)
      invariant cache.view == ConnectAll(v, txs[..i], height) && cache.spent == spent + NullifiersOf(txs[..i])
      invariant undos == BlockUndo(v, txs[..i], height)
    {
      SoundAmounts(txs[i]);
      var fee: int;
      ok, fee := CheckInputs(cache, txs[i], height);
      InputsNext(v, spent, txs, height, i);
      if !ok {
        return;
      }
      MoreFees(v, txs, height, i);
      fees := fees + fee;
      NothingOverwritten(v, spent, txs, height, i + 1);
      BlockAt(v, spent, txs[..i + 1], height, i);
      ConnectNext(v, txs[..i + 1], height);
      assert txs[..i + 1][..i] == txs[..i];
      var undo := UpdateCoins(cache, txs[i], height);
      if i != 0 {
        undos := undos + [undo];
      }
    }
    assert txs[..|txs|] == txs;
    SoundAmounts(txs[0]);
    var inRange, paid := GetValueOut(txs[0]);
    ok := paid <= fees + subsidy;
  }

  lemma {:induction false} SoundAmounts(tx: Tx)
    ensures Sound(tx) ==> AmountsOk(tx)
  {
  }

  lemma {:induction false} NoInputs(v: View, spent: set<Nullifier>, txs: seq<Tx>, height: int)
    ensures InputsTo(v, spent, txs, height, 0)
  {
  }

  lemma {:induction false} InputsNext(v: View, spent: set<Nullifier>, txs: seq<Tx>, height: int, i: nat)
    requires i < |txs| && InputsTo(v, spent, txs, height, i)
    ensures var now := InputsOk(ConnectAll(v, txs[..i], height), spent + NullifiersOf(txs[..i]), txs[i], height);
            (now ==> InputsTo(v, spent, txs, height, i + 1)) && (!now ==> !InputsTo(v, spent, txs, height, |txs|))
  {
    hide InputsOk, ConnectAll, NullifiersOf;
  }

  lemma {:induction false} NoFees(v: View, txs: seq<Tx>, height: int)
    ensures Fees(v, txs, height, 0) == 0
  {
  }

  lemma {:induction false} MoreFees(v: View, txs: seq<Tx>, height: int, i: nat)
    requires i < |txs|
    ensures Fees(v, txs, height, i + 1) == Fees(v, txs, height, i) +
            if txs[i].IsCoinBase() then 0 else ValueInOf(ConnectAll(v, txs[..i], height), txs[i]) - ValueOutOf(txs[i])
  {
  }
}
