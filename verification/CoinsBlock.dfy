/** Blocks of transactions connected to and disconnected from a stack of coins caches. */
module CoinsBlock {
  import opened AmountCodec
  import opened CoinsLayer
  import opened CoinsMoves
  import opened CoinsCache

  // ----------------------------------------------------------- checking the inputs

  /** The duplicate check of CheckTransaction. */
  method NoDuplicateInputs(vin: seq<OutPoint>) returns (ok: bool)
    ensures ok <==> Distinct(vin)
  {
    var seen := {};
    for i := 0 to |vin|
      invariant seen == set j | 0 <= j < i :: vin[j]
      invariant Distinct(vin[..i])
    {
      if vin[i] in seen {
        return false;
      }
      seen := seen + {vin[i]};
    }
    assert vin[..|vin|] == vin;
    ok := true;
  }

  /** A record the view shows answers for the view. */
  lemma {:induction false} ShownAvailable(v: View, c: Coins, o: OutPoint)
    requires Shows(v, o.hash, c)
    ensures Available(v, o) <==> c.IsAvailable(o.n)
    ensures Available(v, o) ==> v[o.hash] == c
  {
  }

  /** HaveInputs */
  method HaveInputs(cache: CoinsViewCache, tx: Tx) returns (ok: bool)
    requires cache.Valid() && cache.modifier == NoModifier
    modifies cache.Repr
    ensures cache.Valid() && cache.view == old(cache.view) && cache.spent == old(cache.spent) &&
      cache.modifier == NoModifier && cache.Beneath() == old(cache.Beneath())
    ensures ok <==> tx.IsCoinBase() || AllAvailable(cache.view, tx.vin)
  {
    hide CoinsViewCache.Valid, Shows, Grown;
    if tx.IsCoinBase() {
      return true;
    }
    for i := 0 to |tx.vin|
      invariant cache.Valid() && cache.view == old(cache.view) && cache.spent == old(cache.spent) &&
        cache.modifier == NoModifier && cache.Beneath() == old(cache.Beneath())
      invariant AllAvailable(cache.view, tx.vin[..i])
    {
      var found, c := cache.GetCoins(tx.vin[i].hash);
      if found {
        ShownAvailable(cache.view, c, tx.vin[i]);
      }
      if !found || !c.IsAvailable(tx.vin[i].n) {
        assert !Available(cache.view, tx.vin[i]);
        return false;
      }
    }
    assert tx.vin[..|tx.vin|] == tx.vin;
    ok := true;
  }

  /** The value of an available output. */
  ghost function ValueAt(v: View, o: OutPoint): int {
    if Available(v, o) then v[o.hash].vout[o.n].value else 0
  }

  ghost function ValueOf(v: View, vin: seq<OutPoint>): int {
    if vin == [] then 0 else ValueOf(v, vin[..|vin| - 1]) + ValueAt(v, vin[|vin| - 1])
  }

  /** GetValueIn; it throws when the shielded value balance is out of range. */
  method GetValueIn(cache: CoinsViewCache, tx: Tx) returns (ok: bool, value: int)
    requires cache.Valid() && cache.modifier == NoModifier
    requires tx.IsCoinBase() || AllAvailable(cache.view, tx.vin)
    modifies cache.Repr
    ensures cache.Valid() && cache.view == old(cache.view) && cache.spent == old(cache.spent) &&
      cache.modifier == NoModifier && cache.Beneath() == old(cache.Beneath())
    ensures ok <==> tx.IsCoinBase() || tx.valueBalance <= MAX_MONEY
    ensures ok ==> value == if tx.IsCoinBase() then 0
                            else ValueOf(cache.view, tx.vin) + if tx.valueBalance >= 0 then tx.valueBalance else 0
  {
    hide CoinsViewCache.Valid, Shows, Grown;
    if tx.IsCoinBase() {
      return true, 0;
    }
    value := 0;
    for i := 0 to |tx.vin|
      invariant cache.Valid() && cache.view == old(cache.view) && cache.spent == old(cache.spent) &&
        cache.modifier == NoModifier && cache.Beneath() == old(cache.Beneath())
      invariant value == ValueOf(cache.view, tx.vin[..i])
    {
      var found, c := cache.GetCoins(tx.vin[i].hash);
      assert found;
      ShownAvailable(cache.view, c, tx.vin[i]);
      value := value + c.vout[tx.vin[i].n].value;
      assert tx.vin[..i + 1][..i] == tx.vin[..i];
    }
    assert tx.vin[..|tx.vin|] == tx.vin;
    ok := true;
    if tx.valueBalance >= 0 {
      value := value + tx.valueBalance;
      ok := tx.valueBalance <= MAX_MONEY;
    }
  }

  /** The total of the first n output values. */
  function ValueOut(vout: seq<TxOut>, n: nat): int
    requires n <= |vout|
  {
    if n == 0 then 0 else ValueOut(vout, n - 1) + vout[n - 1].value
  }

  predicate Money(x: int) {
    0 <= x <= MAX_MONEY
  }

  /** Every output value and every total is money; the value balance too, either way. */
  ghost predicate AmountsOk(tx: Tx) {
    (forall i :: 0 <= i < |tx.vout| ==> Money(tx.vout[i].value)) && Money(ValueOut(tx.vout, |tx.vout|)) &&
    (tx.nullifiers != [] || tx.shieldedOutputs > 0 || tx.valueBalance == 0) &&
      -MAX_MONEY <= tx.valueBalance <= MAX_MONEY &&
    (tx.valueBalance <= 0 ==> Money(ValueOut(tx.vout, |tx.vout|) - tx.valueBalance))
  }

  lemma {:induction false} ValueGrows(vout: seq<TxOut>, m: nat, n: nat)
    requires m <= n <= |vout| && forall i :: 0 <= i < n ==> vout[i].value >= 0
    ensures 0 <= ValueOut(vout, m) <= ValueOut(vout, n)
    decreases n
  {
    if m < n {
      ValueGrows(vout, m, n - 1);
    } else if n > 0 {
      ValueGrows(vout, n - 1, n - 1);
    }
  }

  /** The amount checks of CheckTransaction: stopping at the first bad total decides about the
      whole, and no sum leaves 64 bits. */
  method CheckAmounts(tx: Tx) returns (ok: bool)
    ensures ok <==> AmountsOk(tx)
  {
    var value := 0;
    for i := 0 to |tx.vout|
      invariant value == ValueOut(tx.vout, i) && Money(value)
      invariant forall k :: 0 <= k < i ==> Money(tx.vout[k].value)
    {
      if tx.vout[i].value < 0 || tx.vout[i].value > MAX_MONEY {
        return false;
      }
      value := value + tx.vout[i].value;
      assert value < 0x8000_0000_0000_0000;
      if !Money(value) {
        if forall k :: 0 <= k < |tx.vout| ==> Money(tx.vout[k].value) {
          ValueGrows(tx.vout, i + 1, |tx.vout|);
        }
        return false;
      }
    }
    if tx.nullifiers == [] && tx.shieldedOutputs == 0 && tx.valueBalance != 0 {
      return false;
    }
    if tx.valueBalance > MAX_MONEY || tx.valueBalance < -MAX_MONEY {
      return false;
    }
    if tx.valueBalance <= 0 {
      value := value - tx.valueBalance;
      assert value < 0x8000_0000_0000_0000;
      if !Money(value) {
        return false;
      }
    }
    ok := true;
  }

  /** The nullifier half of HaveShieldedRequirements. */
  method NullifiersUnspent(cache: CoinsViewCache, tx: Tx) returns (ok: bool)
    requires cache.Valid() && cache.modifier == NoModifier
    modifies cache.Repr
    ensures cache.Valid() && cache.view == old(cache.view) && cache.spent == old(cache.spent) &&
      cache.modifier == NoModifier && cache.Beneath() == old(cache.Beneath())
    ensures ok <==> forall n :: n in tx.nullifiers ==> n !in cache.spent
  {
    hide CoinsViewCache.Valid;
    for i := 0 to |tx.nullifiers|
      invariant cache.Valid() && cache.view == old(cache.view) && cache.spent == old(cache.spent) &&
        cache.modifier == NoModifier && cache.Beneath() == old(cache.Beneath())
      invariant forall k :: 0 <= k < i ==> tx.nullifiers[k] !in cache.spent
    {
      var entered := cache.GetNullifier(tx.nullifiers[i]);
      if entered {
        assert tx.nullifiers[i] in tx.nullifiers;
        return false;
      }
    }
    ok := true;
  }

  // ------------------------------------------------------------- connecting

  /** One input of UpdateCoins. The assertion in the code holds: the output is available. */
  method SpendInput(cache: CoinsViewCache, o: OutPoint) returns (u: Undo)
    requires cache.Valid() && cache.modifier == NoModifier && Available(cache.view, o)
    modifies cache.Repr
    ensures cache.Valid() && cache.modifier == NoModifier && cache.spent == old(cache.spent) &&
      cache.Beneath() == old(cache.Beneath())
    ensures cache.view == SpendOne(old(cache.view), o) && u == UndoOf(old(cache.view), o)
  {
    hide CoinsViewCache.Valid, CoinsViewCache.Beneath, Shows, Put, Trim;
    ghost var v := cache.view;
    cache.ModifyCoins(o.hash);
    var c := cache.cacheCoins[o.hash].coins;
    ShownAvailable(v, c, o);
    var ok, left := Spend(c, o.n);
    assert ok;
    u := UndoFor(c, c.vout[o.n], left);
    SpendEffect(c, o.n);
    CleanIsTrimmed(left);
    cache.Assign(left);
    cache.Release();
    PutTwice(v, o.hash, left);
  }

  lemma {:induction false} PutTwice(v: View, k: TxId, c: Coins)
    ensures Put(Put(v, k, c), k, c) == Put(v, k, c)
  {
  }

  /** UpdateCoins: the inputs spent, the nullifiers entered, the outputs added. */
  method UpdateCoins(cache: CoinsViewCache, tx: Tx, height: int) returns (undo: seq<Undo>)
    requires cache.Valid() && cache.modifier == NoModifier
    requires Connectable(cache.view, cache.spent, tx) && tx.txid !in cache.Beneath().0
    modifies cache.Repr
    ensures cache.Valid() && cache.modifier == NoModifier && cache.Beneath() == old(cache.Beneath())
    ensures cache.view == Connected(old(cache.view), tx, height)
    ensures cache.spent == old(cache.spent) + Range(tx.nullifiers)
    ensures undo == TxUndo(old(cache.view), tx)
  {
    hide CoinsViewCache.Valid, CoinsViewCache.Beneath, Put, FromTx, Trim, Spendable;
    undo := [];
    if !tx.IsCoinBase() {
      undo := SpendInputs(cache, tx.vin);
    }
    cache.SetNullifiers(tx.nullifiers, true);
    ghost var v := cache.view;
    cache.ModifyNewCoins(tx.txid);
    var c := ClearUnspendable(Coins(tx.IsCoinBase(), tx.vout, height, tx.version));
    assert c == FromTx(tx, height) by { FromTxShape(tx, height); }
    cache.Assign(c);
    cache.Release();
    FromTxClean(tx, height);
    PutThrice(v, tx.txid, c);
  }

  lemma {:induction false} FromTxShape(tx: Tx, height: int)
    ensures FromTx(tx, height) == Coins(tx.IsCoinBase(), Trim(Spendable(tx.vout)), height, tx.version)
  {
  }

  lemma {:induction false} FromTxClean(tx: Tx, height: int)
    ensures FromTx(tx, height).(vout := Trim(FromTx(tx, height).vout)) == FromTx(tx, height)
  {
    CleanIsTrimmed(FromTx(tx, height));
  }

  lemma {:induction false} PutThrice(v: View, k: TxId, c: Coins)
    ensures Put(Put(v - {k}, k, c), k, c) == Put(v, k, c)
  {
  }

  /** The loop over the inputs. */
  method SpendInputs(cache: CoinsViewCache, vin: seq<OutPoint>) returns (undo: seq<Undo>)
    requires cache.Valid() && cache.modifier == NoModifier
    requires AllAvailable(cache.view, vin) && Distinct(vin)
    modifies cache.Repr
    ensures cache.Valid() && cache.modifier == NoModifier && cache.spent == old(cache.spent) &&
      cache.Beneath() == old(cache.Beneath())
    ensures cache.view == SpendAll(old(cache.view), vin) && undo == UndoAll(old(cache.view), vin)
  {
    hide CoinsViewCache.Valid, CoinsViewCache.Beneath, SpendOne, UndoOf, Available, Distinct;
    undo := [];
    ghost var v := cache.view;
    for i := 0 to |vin|
      invariant cache.Valid() && cache.modifier == NoModifier && cache.spent == old(cache.spent) &&
        cache.Beneath() == old(cache.Beneath())
      invariant cache.view == SpendAll(v, vin[..i]) && undo == UndoAll(v, vin[..i])
    {
      NextAvailable(v, vin, i);
      var u := SpendInput(cache, vin[i]);
      undo := undo + [u];
      assert vin[..i + 1][..i] == vin[..i];
    }
    assert vin[..|vin|] == vin;
  }

  // ---------------------------------------------------------- disconnecting

  /** ApplyTxInUndo: clean exactly when the undo record fits. The input is then back, and also when
      something is overwritten; only an output added to a missing record finds it in whatever state
      it was left. */
  method ApplyTxInUndo(cache: CoinsViewCache, u: Undo, o: OutPoint) returns (clean: bool)
    requires cache.Valid() && cache.modifier == NoModifier
    modifies cache.Repr
    ensures cache.Valid() && cache.modifier == NoModifier && cache.spent == old(cache.spent) &&
      cache.Beneath() == old(cache.Beneath())
    ensures clean <==> Restorable(old(cache.view), o, u)
    ensures clean || u.height != 0 || o.hash in old(cache.view) ==> cache.view == RestoreOne(old(cache.view), o, u)
    ensures cache.view - {o.hash} == old(cache.view) - {o.hash}
  {
    hide CoinsViewCache.Valid, CoinsViewCache.Beneath, Shows, Put, Trim, Resized;
    ghost var v := cache.view;
    cache.ModifyCoins(o.hash);
    var c := cache.cacheCoins[o.hash].coins;
    ShownAvailable(v, c, o);
    ShownPruned(v, c, o);
    ghost var was := c;
    clean := true;
    if u.height != 0 {
      if !c.IsPruned() {
        clean := false;
      }
      c := Coins(u.coinBase, [], u.height, u.version);
    } else if c.IsPruned() {
      clean := false;
    }
    if c.IsAvailable(o.n) {
      clean := false;
    }
    c := c.(vout := Resized(c.vout, o.n));
    c := c.(vout := c.vout[o.n := u.out]);
    assert c == Refilled(was, o, u);
    cache.Assign(c);
    cache.Release();
    PutTrimmed(v, o.hash, c);
    PutElsewhere(v, o.hash, c.(vout := Trim(c.vout)));
  }

  lemma {:induction false} PutElsewhere(v: View, k: TxId, c: Coins)
    ensures Put(v, k, c) - {k} == v - {k}
  {
  }

  lemma {:induction false} ShownPruned(v: View, c: Coins, o: OutPoint)
    requires Shows(v, o.hash, c)
    ensures c.IsPruned() <==> o.hash !in v
    ensures o.hash in v ==> v[o.hash] == c
  {
  }

  lemma {:induction false} PutTrimmed(v: View, k: TxId, c: Coins)
    ensures Put(Put(v, k, c), k, c.(vout := Trim(c.vout))) == Put(v, k, c.(vout := Trim(c.vout)))
  {
  }

  /** What disconnecting one transaction does to the view when everything fits. */
  ghost function Disconnected(v: View, tx: Tx, us: seq<Undo>, first: bool): View
    requires first || |us| == |tx.vin|
  {
    var w := Put(v, tx.txid, NO_COINS);
    if first then w else RestoreAll(w, tx.vin, us)
  }

  /** Everything fits. */
  ghost predicate Fits(v: View, tx: Tx, us: seq<Undo>, height: int, first: bool)
    requires first || |us| == |tx.vin|
  {
    Unchanged(if tx.txid in v then v[tx.txid] else NO_COINS, tx, height) &&
    (first || AllRestorable(Put(v, tx.txid, NO_COINS), tx.vin, us))
  }

  /** The outputs removed; clean when the record is what the block wrote. */
  method RemoveOutputs(cache: CoinsViewCache, tx: Tx, height: int) returns (clean: bool)
    requires cache.Valid() && cache.modifier == NoModifier
    modifies cache.Repr
    ensures cache.Valid() && cache.modifier == NoModifier && cache.spent == old(cache.spent) &&
      cache.Beneath() == old(cache.Beneath())
    ensures clean <==> Unchanged(if tx.txid in old(cache.view) then old(cache.view)[tx.txid] else NO_COINS, tx, height)
    ensures cache.view == Put(old(cache.view), tx.txid, NO_COINS)
  {
    hide CoinsViewCache.Valid, CoinsViewCache.Beneath, Shows, Put, Trim, Spendable;
    ghost var v := cache.view;
    cache.ModifyCoins(tx.txid);
    var was := cache.cacheCoins[tx.txid].coins;
    ShownPruned(v, was, OutPoint(tx.txid, 0));
    var c := ClearUnspendable(was);
    var block := ClearUnspendable(Coins(tx.IsCoinBase(), tx.vout, height, tx.version));
    if block.version < 0 {
      c := c.(version := block.version);
    }
    clean := (c.IsPruned() && block.IsPruned()) || c == block;
    assert clean <==> Unchanged(was, tx, height);
    PrunedUnchanged(was, tx, height);
    cache.Assign(NO_COINS);
    cache.Release();
    assert NO_COINS.(vout := Trim([])) == NO_COINS by { CleanIsTrimmed(NO_COINS); }
    PutTwice(v, tx.txid, NO_COINS);
  }

  /** All pruned records compare alike. */
  lemma {:induction false} PrunedUnchanged(c: Coins, tx: Tx, height: int)
    ensures c.IsPruned() ==> (Unchanged(c, tx, height) <==> Unchanged(NO_COINS, tx, height))
  {
    if c.IsPruned() {
      StaysPruned(c);
      StaysPruned(NO_COINS);
      hide Spendable, Trim;
      var t := Trim(Spendable(c.vout));
      assert forall i :: 0 <= i < |t| ==> t[i].IsNull();
    }
  }

  lemma {:induction false} StaysPruned(c: Coins)
    requires c.IsPruned()
    ensures forall i :: 0 <= i < |Trim(Spendable(c.vout))| ==> Trim(Spendable(c.vout))[i].IsNull()
  {
  }

  /** The inputs restored from the last to the first. */
  method RestoreInputs(cache: CoinsViewCache, vin: seq<OutPoint>, us: seq<Undo>) returns (clean: bool)
    requires cache.Valid() && cache.modifier == NoModifier && |us| == |vin|
    modifies cache.Repr
    ensures cache.Valid() && cache.modifier == NoModifier && cache.spent == old(cache.spent) &&
      cache.Beneath() == old(cache.Beneath())
    ensures clean <==> AllRestorable(old(cache.view), vin, us)
    ensures clean ==> cache.view == RestoreAll(old(cache.view), vin, us)
  {
    hide CoinsViewCache.Valid, CoinsViewCache.Beneath, RestoreOne, Restorable;
    ghost var v := cache.view;
    clean := true;
    var i := |vin|;
    assert vin[..|vin|] == vin && us[..|us|] == us;
    while i > 0
      invariant 0 <= i <= |vin|
      invariant cache.Valid() && cache.modifier == NoModifier && cache.spent == old(cache.spent) &&
        cache.Beneath() == old(cache.Beneath())
      invariant clean ==> (AllRestorable(v, vin, us) <==> AllRestorable(cache.view, vin[..i], us[..i]))
      invariant clean ==> RestoreAll(cache.view, vin[..i], us[..i]) == RestoreAll(v, vin, us)
      invariant !clean ==> !AllRestorable(v, vin, us)
    {
      i := i - 1;
      var ok := ApplyTxInUndo(cache, us[i], vin[i]);
      assert vin[..i + 1][..i] == vin[..i] && us[..i + 1][..i] == us[..i];
      if !ok {
        clean := false;
      }
    }
  }

  /** One transaction of DisconnectBlock. If there are not as many undo records as inputs, only the
      outputs and nullifiers are gone. */
  method DisconnectTx(cache: CoinsViewCache, tx: Tx, us: seq<Undo>, height: int, first: bool)
    returns (ok: bool, clean: bool)
    requires cache.Valid() && cache.modifier == NoModifier
    modifies cache.Repr
    ensures cache.Valid() && cache.modifier == NoModifier && cache.Beneath() == old(cache.Beneath())
    ensures cache.spent == old(cache.spent) - Range(tx.nullifiers)
    ensures ok <==> first || |us| == |tx.vin|
    ensures !ok ==> cache.view == Put(old(cache.view), tx.txid, NO_COINS)
    ensures ok ==> (clean <==> Fits(old(cache.view), tx, us, height, first))
    ensures ok && clean ==> cache.view == Disconnected(old(cache.view), tx, us, first)
  {
    hide CoinsViewCache.Valid, CoinsViewCache.Beneath, Put, Unchanged, RestoreAll, AllRestorable;
    clean := RemoveOutputs(cache, tx, height);
    cache.SetNullifiers(tx.nullifiers, false);
    if first {
      return true, clean;
    }
    if |us| != |tx.vin| {
      return false, clean;
    }
    var restored := RestoreInputs(cache, tx.vin, us);
    ok, clean := true, clean && restored;
  }

  // ------------------------------------------------------------------ blocks

  /** The view after the transactions of a block. */
  ghost function ConnectAll(v: View, txs: seq<Tx>, height: int): View {
    if txs == [] then v else Connected(ConnectAll(v, txs[..|txs| - 1], height), txs[|txs| - 1], height)
  }

  ghost function NullifiersOf(txs: seq<Tx>): set<Nullifier> {
    if txs == [] then {} else NullifiersOf(txs[..|txs| - 1]) + Range(txs[|txs| - 1].nullifiers)
  }

  /** Every transaction can be connected after those before it; exactly the first is a coinbase. */
  ghost predicate BlockConnectable(v: View, spent: set<Nullifier>, txs: seq<Tx>, height: int) {
    forall i :: 0 <= i < |txs| ==>
      Connectable(ConnectAll(v, txs[..i], height), spent + NullifiersOf(txs[..i]), txs[i]) &&
      (txs[i].IsCoinBase() <==> i == 0)
  }

  /** The undo records of a block: none for the coinbase. */
  ghost function BlockUndo(v: View, txs: seq<Tx>, height: int): (r: seq<seq<Undo>>)
    ensures |r| == if txs == [] then 0 else |txs| - 1
  {
    if |txs| <= 1 then []
    else BlockUndo(v, txs[..|txs| - 1], height) + [TxUndo(ConnectAll(v, txs[..|txs| - 1], height), txs[|txs| - 1])]
  }

  lemma {:induction false} NothingConnected(v: View, height: int)
    ensures ConnectAll(v, [], height) == v && NullifiersOf([]) == {} && BlockUndo(v, [], height) == []
  {
  }

  lemma {:induction false} ConnectNext(v: View, txs: seq<Tx>, height: int)
    requires txs != []
    ensures var n := |txs| - 1;
            ConnectAll(v, txs, height) == Connected(ConnectAll(v, txs[..n], height), txs[n], height) &&
            NullifiersOf(txs) == NullifiersOf(txs[..n]) + Range(txs[n].nullifiers) &&
            BlockUndo(v, txs, height) ==
            if n == 0 then BlockUndo(v, txs[..n], height)
              else BlockUndo(v, txs[..n], height) + [TxUndo(ConnectAll(v, txs[..n], height), txs[n])]
  {
  }

  datatype DisconnectResult = Ok | Unclean | Failed

  /** The undo data has one entry for every input of every transaction but the coinbase. */
  ghost predicate Shaped(txs: seq<Tx>, undos: seq<seq<Undo>>) {
    |undos| + 1 == |txs| && forall i :: 0 < i < |txs| ==> |undos[i - 1]| == |txs[i].vin|
  }

  /** The view after DisconnectBlock, from the last transaction to the coinbase. */
  ghost function DisconnectAll(v: View, txs: seq<Tx>, undos: seq<seq<Undo>>): View
    requires Shaped(txs, undos)
    decreases |txs|
  {
    var n := |txs| - 1;
    if n == 0 then Disconnected(v, txs[0], [], true)
    else DisconnectAll(Disconnected(v, txs[n], undos[n - 1], false), txs[..n], undos[..n - 1])
  }

  /** Every transaction fits the view it is disconnected from. */
  ghost predicate BlockFits(v: View, txs: seq<Tx>, undos: seq<seq<Undo>>, height: int)
    requires Shaped(txs, undos)
    decreases |txs|
  {
    var n := |txs| - 1;
    if n == 0 then Fits(v, txs[0], [], height, true)
    else Fits(v, txs[n], undos[n - 1], height, false) &&
         BlockFits(Disconnected(v, txs[n], undos[n - 1], false), txs[..n], undos[..n - 1], height)
  }

  /** The loop of DisconnectBlock down to the coinbase. */
  ghost predicate Progress(v: View, w: View, txs: seq<Tx>, undos: seq<seq<Undo>>, height: int, i: nat, clean: bool)
    requires Shaped(txs, undos) && 1 <= i <= |txs|
  {
    Shaped(txs[..i], undos[..i - 1]) &&
    if clean then
      (BlockFits(v, txs, undos, height) <==> BlockFits(w, txs[..i], undos[..i - 1], height)) &&
      DisconnectAll(v, txs, undos) == DisconnectAll(w, txs[..i], undos[..i - 1])
    else !BlockFits(v, txs, undos, height)
  }

  lemma {:induction false} ProgressStart(v: View, txs: seq<Tx>, undos: seq<seq<Undo>>, height: int)
    requires Shaped(txs, undos)
    ensures Progress(v, v, txs, undos, height, |txs|, true)
  {
    assert txs[..|txs|] == txs && undos[..|txs| - 1] == undos;
  }

  lemma {:induction false} ProgressStep(v: View, w: View, u: View, txs: seq<Tx>, undos: seq<seq<Undo>>, height: int,
          i: nat, clean: bool, ok: bool)
    requires Shaped(txs, undos) && 1 <= i < |txs| && Progress(v, w, txs, undos, height, i + 1, clean)
    requires ok <==> Fits(w, txs[i], undos[i - 1], height, false)
    requires ok ==> u == Disconnected(w, txs[i], undos[i - 1], false)
    ensures Progress(v, u, txs, undos, height, i, clean && ok)
  {
    hide Fits, Disconnected;
    assert txs[..i + 1][..i] == txs[..i] && undos[..i][..i - 1] == undos[..i - 1];
  }

  /** DisconnectBlock on the coins. */
  method DisconnectBlock(cache: CoinsViewCache, txs: seq<Tx>, undos: seq<seq<Undo>>, height: int)
    returns (r: DisconnectResult)
    requires cache.Valid() && cache.modifier == NoModifier
    modifies cache.Repr
    ensures cache.Valid() && cache.modifier == NoModifier && cache.Beneath() == old(cache.Beneath())
    ensures r == Failed <==> !Shaped(txs, undos)
    ensures Shaped(txs, undos) ==> (r == Ok <==> BlockFits(old(cache.view), txs, undos, height))
    ensures r == Ok ==> cache.view == DisconnectAll(old(cache.view), txs, undos)
    ensures r == Ok ==> cache.spent == old(cache.spent) - NullifiersOf(txs)
  {
    hide CoinsViewCache.Valid, CoinsViewCache.Beneath, Fits, Disconnected, BlockFits, DisconnectAll, Range;
    if |undos| + 1 != |txs| {
      return Failed;
    }
    var clean := true;
    ghost var v := cache.view;
    var i := |txs|;
    if Shaped(txs, undos) {
      ProgressStart(v, txs, undos, height);
    }
    assert txs[..|txs|] == txs;
    while i > 1
      invariant 1 <= i <= |txs|
      invariant cache.Valid() && cache.modifier == NoModifier && cache.Beneath() == old(cache.Beneath())
      invariant Shaped(txs, undos) ==> Progress(v, cache.view, txs, undos, height, i, clean)
      invariant cache.spent - NullifiersOf(txs[..i]) == old(cache.spent) - NullifiersOf(txs)
      invariant forall j :: i <= j < |txs| ==> |undos[j - 1]| == |txs[j].vin|
    {
      i := i - 1;
      ghost var w := cache.view;
      var ok, fits := DisconnectTx(cache, txs[i], undos[i - 1], height, false);
      if !ok {
        return Failed;
      }
      if Shaped(txs, undos) {
        ProgressStep(v, w, cache.view, txs, undos, height, i, clean, fits);
      }
      assert txs[..i + 1][..i] == txs[..i];
      clean := clean && fits;
    }
    ghost var w := cache.view;
    assert txs[..1][..0] == [] && txs[..1][0] == txs[0];
    var _, fits := DisconnectTx(cache, txs[0], [], height, true);
    LastStep(v, w, txs, undos, height, clean);
    r := if clean && fits then Ok else Unclean;
  }

  lemma {:induction false} LastStep(v: View, w: View, txs: seq<Tx>, undos: seq<seq<Undo>>, height: int, clean: bool)
    requires Shaped(txs, undos) && Progress(v, w, txs, undos, height, 1, clean)
    ensures BlockFits(v, txs, undos, height) <==> clean && Fits(w, txs[0], [], height, true)
    ensures clean ==> DisconnectAll(v, txs, undos) == Disconnected(w, txs[0], [], true)
  {
  }

  // --------------------------------------------------- disconnecting undoes connecting

  lemma {:induction false} ConnectAllProper(v: View, spent: set<Nullifier>, txs: seq<Tx>, height: int)
    requires AllProper(v) && AllMined(v) && BlockConnectable(v, spent, txs, height) && height != 0
    ensures AllProper(ConnectAll(v, txs, height)) && AllMined(ConnectAll(v, txs, height))
  {
    if txs != [] {
      var n := |txs| - 1;
      BlockPrefix(v, spent, txs, height, n);
      ConnectAllProper(v, spent, txs[..n], height);
      ConnectProper(ConnectAll(v, txs[..n], height), spent + NullifiersOf(txs[..n]), txs[n], height);
    }
  }

  lemma {:induction false} BlockPrefix(v: View, spent: set<Nullifier>, txs: seq<Tx>, height: int, n: nat)
    requires BlockConnectable(v, spent, txs, height) && n <= |txs|
    ensures BlockConnectable(v, spent, txs[..n], height)
  {
    forall i | 0 <= i < n
      ensures txs[..n][..i] == txs[..i]
    {
    }
  }

  lemma {:induction false} UndoSize(v: View, spent: set<Nullifier>, txs: seq<Tx>, height: int, n: nat)
    requires BlockConnectable(v, spent, txs, height) && 0 < n < |txs|
    ensures |TxUndo(ConnectAll(v, txs[..n], height), txs[n])| == |txs[n].vin|
  {
  }

  lemma {:induction false} ShapedMore(txs: seq<Tx>, undos: seq<seq<Undo>>, us: seq<Undo>)
    requires |txs| > 1 && Shaped(txs[..|txs| - 1], undos) && |us| == |txs[|txs| - 1].vin|
    ensures Shaped(txs, undos + [us])
  {
    forall i | 0 < i < |txs|
      ensures |(undos + [us])[i - 1]| == |txs[i].vin|
    {
      if i < |txs| - 1 {
        assert txs[..|txs| - 1][i] == txs[i];
      }
    }
  }

  lemma {:induction false} BlockUndoShaped(v: View, spent: set<Nullifier>, txs: seq<Tx>, height: int)
    requires BlockConnectable(v, spent, txs, height) && txs != []
    ensures Shaped(txs, BlockUndo(v, txs, height))
  {
    hide BlockConnectable, ConnectAll, TxUndo, Shaped;
    if |txs| > 1 {
      var n := |txs| - 1;
      BlockPrefix(v, spent, txs, height, n);
      BlockUndoShaped(v, spent, txs[..n], height);
      UndoSize(v, spent, txs, height, n);
      ShapedMore(txs, BlockUndo(v, txs[..n], height), TxUndo(ConnectAll(v, txs[..n], height), txs[n]));
    } else {
      ShapedOne(txs);
    }
  }

  lemma {:induction false} ShapedOne(txs: seq<Tx>)
    requires |txs| == 1
    ensures Shaped(txs, [])
  {
  }

  /** One transaction, disconnected from the view right after it was connected. */
  lemma {:induction false} DisconnectOne(v: View, spent: set<Nullifier>, tx: Tx, height: int)
    requires AllProper(v) && AllMined(v) && Connectable(v, spent, tx)
    ensures var us := TxUndo(v, tx); var first := tx.IsCoinBase();
            (first || |us| == |tx.vin|) &&
            Fits(Connected(v, tx, height), tx, us, height, first) &&
            Disconnected(Connected(v, tx, height), tx, us, first) == v
  {
    DisconnectExact(v, spent, tx, height);
    hide Connectable, AllProper, AllMined, Unchanged, RestoreAll, AllRestorable, Put, Connected;
  }

  lemma {:induction false} BlockAt(v: View, spent: set<Nullifier>, txs: seq<Tx>, height: int, i: nat)
    requires BlockConnectable(v, spent, txs, height) && i < |txs|
    ensures Connectable(ConnectAll(v, txs[..i], height), spent + NullifiersOf(txs[..i]), txs[i])
    ensures txs[i].IsCoinBase() <==> i == 0
  {
  }

  /** Disconnecting a block, with the undo data of connecting it, gives the view back. */
  lemma {:induction false} DisconnectAllExact(v: View, spent: set<Nullifier>, txs: seq<Tx>, height: int)
    requires AllProper(v) && AllMined(v) && BlockConnectable(v, spent, txs, height) && height != 0 && txs != []
    ensures Shaped(txs, BlockUndo(v, txs, height))
    ensures BlockFits(ConnectAll(v, txs, height), txs, BlockUndo(v, txs, height), height)
    ensures DisconnectAll(ConnectAll(v, txs, height), txs, BlockUndo(v, txs, height)) == v
  {
    hide BlockConnectable, Connectable, AllProper, AllMined, Fits, Disconnected, Connected, Shaped;
    hide ConnectAll, DisconnectAll, BlockFits, BlockUndo, UndoAll, NullifiersOf;
    BlockUndoShaped(v, spent, txs, height);
    var n := |txs| - 1;
    var before := ConnectAll(v, txs[..n], height);
    BlockPrefix(v, spent, txs, height, n);
    BlockAt(v, spent, txs, height, n);
    ConnectAllProper(v, spent, txs[..n], height);
    DisconnectOne(before, spent + NullifiersOf(txs[..n]), txs[n], height);
    ConnectNext(v, txs, height);
    if n > 0 {
      DisconnectAllExact(v, spent, txs[..n], height);
      DisconnectLast(ConnectAll(v, txs, height), before, txs, BlockUndo(v, txs[..n], height), TxUndo(before, txs[n]),
        height);
    } else {
      assert txs[..n] == [];
      NothingConnected(v, height);
      DisconnectOnly(ConnectAll(v, txs, height), txs, height);
    }
  }

  /** The last transaction disconnected first. */
  lemma {:induction false} DisconnectLast(v: View, before: View, txs: seq<Tx>, undos: seq<seq<Undo>>, us: seq<Undo>,
          height: int)
    requires |txs| > 1 && Shaped(txs, undos + [us]) && Shaped(txs[..|txs| - 1], undos) && |us| == |txs[|txs| - 1].vin|
    requires Fits(v, txs[|txs| - 1], us, height, false) && Disconnected(v, txs[|txs| - 1], us, false) == before
    ensures DisconnectAll(v, txs, undos + [us]) == DisconnectAll(before, txs[..|txs| - 1], undos)
    ensures BlockFits(v, txs, undos + [us], height) <==> BlockFits(before, txs[..|txs| - 1], undos, height)
  {
    hide Fits, Disconnected;
    assert (undos + [us])[..|undos|] == undos;
  }

  lemma {:induction false} DisconnectOnly(v: View, txs: seq<Tx>, height: int)
    requires |txs| == 1
    ensures Shaped(txs, []) && DisconnectAll(v, txs, []) == Disconnected(v, txs[0], [], true)
    ensures BlockFits(v, txs, [], height) <==> Fits(v, txs[0], [], height, true)
  {
    hide Fits, Disconnected;
  }

  /** No nullifier of the block was spent before it. */
  lemma {:induction false} NullifiersNew(v: View, spent: set<Nullifier>, txs: seq<Tx>, height: int)
    requires BlockConnectable(v, spent, txs, height)
    ensures spent !! NullifiersOf(txs)
  {
    hide BlockConnectable, Connectable, ConnectAll, Range;
    if txs != [] {
      var n := |txs| - 1;
      BlockPrefix(v, spent, txs, height, n);
      NullifiersNew(v, spent, txs[..n], height);
      BlockAt(v, spent, txs, height, n);
      SpendsNew(ConnectAll(v, txs[..n], height), spent + NullifiersOf(txs[..n]), txs[n]);
    }
  }

  lemma {:induction false} SpendsNew(v: View, spent: set<Nullifier>, tx: Tx)
    requires Connectable(v, spent, tx)
    ensures spent !! Range(tx.nullifiers)
  {
  }
}
