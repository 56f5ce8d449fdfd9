/** What connecting and disconnecting transactions does to a coins view, on values. */
module CoinsMoves {
  import opened VarIntCodec
  import opened CoinsLayer

  datatype OutPoint = OutPoint(hash: TxId, n: nat)

  const NULL_POINT := OutPoint(TxId(0), 0xFFFF_FFFF)

  /** The parts of a CTransaction the coins depend on; nullifiers are those of its shielded spends. */
  datatype Tx = Tx(txid: TxId, vin: seq<OutPoint>, vout: seq<TxOut>, version: int,
                   nullifiers: seq<Nullifier>, shieldedOutputs: nat, valueBalance: int) {
    predicate IsCoinBase() {
      |vin| == 1 && vin[0] == NULL_POINT
    }
  }

  const OP_RETURN := 0x6a
  const MAX_SCRIPT_SIZE := 10_000

  predicate IsUnspendable(script: seq<Byte>) {
    (|script| > 0 && script[0] == OP_RETURN) || |script| > MAX_SCRIPT_SIZE
  }

  function Kept(out: TxOut): TxOut {
    if IsUnspendable(out.script) then NULL_OUT else out
  }

  /** Outputs nobody can spend replaced by the null output. */
  function Spendable(vout: seq<TxOut>): seq<TxOut> {
    seq(|vout|, i requires 0 <= i < |vout| => Kept(vout[i]))
  }

  /** CCoins::ClearUnspendable */
  method ClearUnspendable(c: Coins) returns (r: Coins)
    ensures r == c.(vout := Trim(Spendable(c.vout)))
  {
    hide Trim;
    var vout := c.vout;
    for i := 0 to |vout|
      invariant |vout| == |c.vout|
      invariant forall j :: 0 <= j < |vout| ==> vout[j] == if j < i then Kept(c.vout[j]) else c.vout[j]
    {
      if IsUnspendable(vout[i].script) {
        vout := vout[i := NULL_OUT];
      }
    }
    assert vout == Spendable(c.vout);
    r := Cleanup(c.(vout := vout));
  }

  /** CCoins::FromTx */
  function FromTx(tx: Tx, height: int): Coins {
    Coins(tx.IsCoinBase(), Trim(Spendable(tx.vout)), height, tx.version)
  }

  // -------------------------------------------------------------- one input, and back

  ghost predicate Available(v: View, o: OutPoint) {
    o.hash in v && v[o.hash].IsAvailable(o.n)
  }

  ghost function SpendOne(v: View, o: OutPoint): View {
    if Available(v, o) then Put(v, o.hash, Without(v[o.hash], o.n)) else v
  }

  /** CTxInUndo: height is 0 unless this was the last unspent output. */
  datatype Undo = Undo(out: TxOut, height: int, coinBase: bool, version: int)

  function UndoFor(c: Coins, out: TxOut, left: Coins): Undo {
    if |left.vout| == 0 then Undo(out, c.height, c.coinBase, c.version) else Undo(out, 0, false, 0)
  }

  ghost function UndoOf(v: View, o: OutPoint): Undo {
    if Available(v, o) then UndoFor(v[o.hash], v[o.hash].vout[o.n], Without(v[o.hash], o.n))
    else Undo(NULL_OUT, 0, false, 0)
  }

  /** vout made long enough to hold index n. */
  function Resized(vout: seq<TxOut>, n: nat): (r: seq<TxOut>)
    ensures |r| > n && |r| >= |vout| && r[..|vout|] == vout
    ensures forall i :: |vout| <= i < |r| ==> r[i] == NULL_OUT
    ensures |r| == if |vout| > n then |vout| else n + 1
    decreases n - |vout|
  {
    if |vout| > n then vout else Resized(vout + [NULL_OUT], n)
  }

  /** The undo record fits the view: it neither overwrites nor misses anything. */
  ghost predicate Restorable(v: View, o: OutPoint, u: Undo) {
    (u.height != 0 <==> o.hash !in v) && !Available(v, o)
  }

  /** c with the undone output back in place, before cleaning up. */
  function Refilled(c: Coins, o: OutPoint, u: Undo): Coins {
    var b := if u.height != 0 then Coins(u.coinBase, [], u.height, u.version) else c;
    b.(vout := Resized(b.vout, o.n)[o.n := u.out])
  }

  ghost function RestoreOne(v: View, o: OutPoint, u: Undo): View {
    var c := Refilled(if o.hash in v then v[o.hash] else NO_COINS, o, u);
    Put(v, o.hash, c.(vout := Trim(c.vout)))
  }

  /** A record as the node keeps it: no trailing spent output, and spent outputs are all alike. */
  ghost predicate Proper(c: Coins) {
    c.Clean() && !c.IsPruned() && forall i :: 0 <= i < |c.vout| && c.vout[i].IsNull() ==> c.vout[i] == NULL_OUT
  }

  ghost predicate AllProper(v: View) {
    forall k :: k in v ==> Proper(v[k])
  }

  lemma {:induction false} TrimProper(c: Coins)
    requires Proper(c)
    ensures Trim(c.vout) == c.vout
  {
  }

  /** Trimming after output n is spent stops short only if n was the last output. */
  lemma {:induction false} TrimLength(vout: seq<TxOut>, n: nat)
    requires n < |vout| && !vout[|vout| - 1].IsNull()
    ensures n < |vout| - 1 ==> Trim(vout[n := NULL_OUT]) == vout[n := NULL_OUT]
    ensures n == |vout| - 1 ==> |Trim(vout[n := NULL_OUT])| <= n
  {
  }

  /** Refilling what was left of vout after output n was spent gives vout back. */
  lemma {:induction false} ResizeExact(vout: seq<TxOut>, n: nat)
    requires n < |vout| && !vout[|vout| - 1].IsNull()
    requires forall i :: 0 <= i < |vout| && vout[i].IsNull() ==> vout[i] == NULL_OUT
    ensures Resized(Trim(vout[n := NULL_OUT]), n)[n := vout[n]] == vout
  {
    TrimLength(vout, n);
    var t := vout[n := NULL_OUT];
    var w := Trim(t);
    hide Trim, Resized;
    var r := Resized(w, n)[n := vout[n]];
    forall i | 0 <= i < |r|
      ensures r[i] == vout[i]
    {
      if i != n {
        assert t[i] == vout[i];
        if i < |w| {
          assert w[i] == t[i];
        } else {
          assert t[i].IsNull();
        }
      }
    }
  }

  lemma {:induction false} RefillExact(c: Coins, n: nat, o: OutPoint, u: Undo)
    requires Proper(c) && c.IsAvailable(n) && o.n == n && u.out == c.vout[n]
    requires u.height != 0 ==>
      Without(c, n).vout == [] && u.height == c.height && u.coinBase == c.coinBase && u.version == c.version
    ensures Refilled(Without(c, n), o, u) == c
  {
    ResizeExact(c.vout, n);
  }

  lemma {:induction false} RefillBack(c: Coins, o: OutPoint)
    requires Proper(c) && c.IsAvailable(o.n) && (c.height != 0 || !Without(c, o.n).IsPruned())
    ensures var left := Without(c, o.n); var u := UndoFor(c, c.vout[o.n], left);
            (u.height != 0 <==> left.IsPruned()) &&
            Refilled(if left.IsPruned() then NO_COINS else left, o, u) == c
  {
    var left := Without(c, o.n);
    SpendEffect(c, o.n);
    CleanPruned(left);
    RefillExact(c, o.n, o, UndoFor(c, c.vout[o.n], left));
  }

  lemma {:induction false} PutBack(v: View, k: TxId, left: Coins)
    requires AllProper(v) && k in v
    ensures Put(Put(v, k, left), k, v[k]) == v
  {
  }

  lemma {:induction false} UndoOneBack(v: View, o: OutPoint)
    requires AllProper(v) && Available(v, o)
    requires v[o.hash].height != 0 || o.hash in SpendOne(v, o)
    ensures Restorable(SpendOne(v, o), o, UndoOf(v, o)) && RestoreOne(SpendOne(v, o), o, UndoOf(v, o)) == v
  {
    var c := v[o.hash];
    var left := Without(c, o.n);
    SpendOneEffect(v, o, o);
    PutShows(v, o.hash, left);
    RefillBack(c, o);
    TrimProper(c);
    PutBack(v, o.hash, left);
    hide Trim, Without, Put, UndoFor, Refilled, AllProper;
  }

  /** Undoing one spent input restores the view exactly when the record survives the spending or
      its height is not 0: a height of 0 in the undo record means "not the last output". */
  lemma {:induction false} UndoOneExact(v: View, o: OutPoint)
    requires AllProper(v) && Available(v, o)
    ensures var w := SpendOne(v, o); var u := UndoOf(v, o);
            (Restorable(w, o, u) && RestoreOne(w, o, u) == v) <==> (v[o.hash].height != 0 || o.hash in w)
  {
    if v[o.hash].height != 0 || o.hash in SpendOne(v, o) {
      UndoOneBack(v, o);
    }
  }

  /** Spending an output keeps the other records as the node keeps them. */
  lemma {:induction false} SpendProper(v: View, o: OutPoint)
    requires AllProper(v)
    ensures AllProper(SpendOne(v, o))
    ensures forall k :: k in SpendOne(v, o) ==> k in v && SpendOne(v, o)[k].height == v[k].height
  {
    if Available(v, o) {
      var c := v[o.hash];
      SpendEffect(c, o.n);
      var left := Without(c, o.n);
      assert left.IsPruned() || Proper(left);
    }
  }

  // ------------------------------------------------------------- one transaction, and back

  ghost predicate Distinct(vin: seq<OutPoint>) {
    forall i, j :: 0 <= i < j < |vin| ==> vin[i] != vin[j]
  }

  ghost predicate AllAvailable(v: View, vin: seq<OutPoint>) {
    forall i :: 0 <= i < |vin| ==> Available(v, vin[i])
  }

  /** The view after the inputs are spent one by one. */
  ghost function SpendAll(v: View, vin: seq<OutPoint>): View {
    if vin == [] then v else SpendOne(SpendAll(v, vin[..|vin| - 1]), vin[|vin| - 1])
  }

  /** The undo records, in the order of the inputs. */
  ghost function UndoAll(v: View, vin: seq<OutPoint>): (r: seq<Undo>)
    ensures |r| == |vin|
  {
    if vin == [] then []
    else UndoAll(v, vin[..|vin| - 1]) + [UndoOf(SpendAll(v, vin[..|vin| - 1]), vin[|vin| - 1])]
  }

  /** Inputs restored from the last to the first. */
  ghost function RestoreAll(v: View, vin: seq<OutPoint>, us: seq<Undo>): View
    requires |us| == |vin|
    decreases |vin|
  {
    if vin == [] then v
    else RestoreAll(RestoreOne(v, vin[|vin| - 1], us[|us| - 1]), vin[..|vin| - 1], us[..|us| - 1])
  }

  ghost predicate AllRestorable(v: View, vin: seq<OutPoint>, us: seq<Undo>)
    requires |us| == |vin|
    decreases |vin|
  {
    vin == [] ||
    (Restorable(v, vin[|vin| - 1], us[|us| - 1]) &&
     AllRestorable(RestoreOne(v, vin[|vin| - 1], us[|us| - 1]), vin[..|vin| - 1], us[..|us| - 1]))
  }

  /** Spending o leaves the availability of every other output as it was. */
  lemma {:induction false} SpendOneEffect(v: View, o: OutPoint, p: OutPoint)
    requires Available(v, o)
    ensures Available(SpendOne(v, o), p) <==> Available(v, p) && p != o
    ensures Available(SpendOne(v, o), p) ==> SpendOne(v, o)[p.hash].vout[p.n] == v[p.hash].vout[p.n]
  {
    var left := Without(v[o.hash], o.n);
    SpendEffect(v[o.hash], o.n);
    PutShows(v, o.hash, left);
    hide Without, Put;
    if p.hash == o.hash {
      if left.IsPruned() {
        assert !left.IsAvailable(p.n);
      }
    } else {
      assert SameAt(SpendOne(v, o), v, p.hash);
    }
  }

  /** Spending distinct available inputs one by one succeeds at each step, makes exactly them
      unavailable, and keeps every other output. */
  lemma {:induction false} SpendAllEffect(v: View, vin: seq<OutPoint>, p: OutPoint)
    requires AllAvailable(v, vin) && Distinct(vin)
    ensures Available(SpendAll(v, vin), p) <==> Available(v, p) && p !in vin
    ensures Available(SpendAll(v, vin), p) ==> SpendAll(v, vin)[p.hash].vout[p.n] == v[p.hash].vout[p.n]
  {
    if vin != [] {
      var init, last := vin[..|vin| - 1], vin[|vin| - 1];
      SpendAllEffect(v, init, p);
      SpendAllEffect(v, init, last);
      SpendOneEffect(SpendAll(v, init), last, p);
      assert vin == init + [last];
    }
  }

  lemma {:induction false} NextAvailable(v: View, vin: seq<OutPoint>, i: nat)
    requires AllAvailable(v, vin) && Distinct(vin) && i < |vin|
    ensures Available(SpendAll(v, vin[..i]), vin[i])
    ensures SpendAll(v, vin[..i])[vin[i].hash].vout[vin[i].n] == v[vin[i].hash].vout[vin[i].n]
  {
    SpendAllEffect(v, vin[..i], vin[i]);
  }

  ghost predicate AllMined(v: View) {
    forall k :: k in v ==> v[k].height != 0
  }

  lemma {:induction false} MinedAvailable(v: View, o: OutPoint)
    requires AllMined(v) && Available(v, o)
    ensures o.hash in v && v[o.hash].height != 0
  {
  }

  lemma {:induction false} SpendAllProper(v: View, vin: seq<OutPoint>)
    requires AllProper(v) && AllMined(v)
    ensures AllProper(SpendAll(v, vin)) && AllMined(SpendAll(v, vin))
    ensures forall k :: k in SpendAll(v, vin) ==> k in v
  {
    if vin != [] {
      SpendAllProper(v, vin[..|vin| - 1]);
      SpendProper(SpendAll(v, vin[..|vin| - 1]), vin[|vin| - 1]);
    }
  }

  /** Restoring the inputs in reverse order, from the undo records, gives the view back. */
  lemma {:induction false} UndoAllExact(v: View, vin: seq<OutPoint>)
    requires AllProper(v) && AllMined(v) && AllAvailable(v, vin) && Distinct(vin)
    ensures AllRestorable(SpendAll(v, vin), vin, UndoAll(v, vin))
    ensures RestoreAll(SpendAll(v, vin), vin, UndoAll(v, vin)) == v
  {
    hide AllProper, Proper, Available, SpendOne, UndoOf, RestoreOne, Restorable;
    if vin != [] {
      var init, last := vin[..|vin| - 1], vin[|vin| - 1];
      var us := UndoAll(v, vin);
      NextAvailable(v, vin, |vin| - 1);
      SpendAllProper(v, init);
      MinedAvailable(SpendAll(v, init), last);
      UndoOneExact(SpendAll(v, init), last);
      assert us[..|us| - 1] == UndoAll(v, init);
      UndoAllExact(v, init);
    }
  }

  /** What ConnectBlock has checked before it updates the coins with a transaction. */
  ghost predicate Connectable(v: View, spent: set<Nullifier>, tx: Tx) {
    tx.txid !in v && (tx.IsCoinBase() || (AllAvailable(v, tx.vin) && Distinct(tx.vin))) &&
    (forall n :: n in tx.nullifiers ==> n !in spent) &&
    (forall i :: 0 <= i < |tx.vout| ==> tx.vout[i].value >= 0)
  }

  ghost function SpentInputs(v: View, tx: Tx): View {
    if tx.IsCoinBase() then v else SpendAll(v, tx.vin)
  }

  ghost function Connected(v: View, tx: Tx, height: int): View {
    Put(SpentInputs(v, tx), tx.txid, FromTx(tx, height))
  }

  ghost function TxUndo(v: View, tx: Tx): seq<Undo> {
    if tx.IsCoinBase() then [] else UndoAll(v, tx.vin)
  }

  /** The record of tx is still what connecting it would write, up to the sign of its version. */
  predicate Unchanged(c: Coins, tx: Tx, height: int) {
    var block := FromTx(tx, height);
    var cleared := c.(vout := Trim(Spendable(c.vout)),
      version := if block.version < 0 then block.version else c.version);
    (cleared.IsPruned() && block.IsPruned()) || cleared == block
  }

  lemma {:induction false} NewProper(tx: Tx, height: int)
    requires forall i :: 0 <= i < |tx.vout| ==> tx.vout[i].value >= 0
    ensures FromTx(tx, height).IsPruned() || Proper(FromTx(tx, height))
    ensures Unchanged(FromTx(tx, height), tx, height)
    ensures FromTx(tx, height).IsPruned() ==> Unchanged(NO_COINS, tx, height)
  {
    var s := Spendable(tx.vout);
    var t := Trim(s);
    assert forall i :: 0 <= i < |t| ==> t[i] == s[i];
    assert Spendable(t) == t;
    assert Trim(t) == t;
  }

  /** Connecting keeps the view as the node keeps it. */
  lemma {:induction false} ConnectProper(v: View, spent: set<Nullifier>, tx: Tx, height: int)
    requires AllProper(v) && AllMined(v) && Connectable(v, spent, tx) && height != 0
    ensures AllProper(Connected(v, tx, height)) && AllMined(Connected(v, tx, height))
  {
    SpendAllProper(v, tx.vin);
    NewProper(tx, height);
  }

  lemma {:induction false} PutPut(v: View, k: TxId, c: Coins)
    requires k !in v
    ensures Put(Put(v, k, c), k, NO_COINS) == v
  {
  }

  /** Clearing the outputs and restoring the inputs undoes connecting a transaction. */
  lemma {:induction false} DisconnectExact(v: View, spent: set<Nullifier>, tx: Tx, height: int)
    requires AllProper(v) && AllMined(v) && Connectable(v, spent, tx)
    ensures Put(Connected(v, tx, height), tx.txid, NO_COINS) == SpentInputs(v, tx)
    ensures Unchanged(if tx.txid in Connected(v, tx, height) then Connected(v, tx, height)[tx.txid] else NO_COINS, tx,
      height)
    ensures !tx.IsCoinBase() ==> AllRestorable(SpentInputs(v, tx), tx.vin, TxUndo(v, tx))
    ensures !tx.IsCoinBase() ==> RestoreAll(SpentInputs(v, tx), tx.vin, TxUndo(v, tx)) == v
  {
    SpendAllProper(v, tx.vin);
    NewProper(tx, height);
    PutShows(SpentInputs(v, tx), tx.txid, FromTx(tx, height));
    PutPut(SpentInputs(v, tx), tx.txid, FromTx(tx, height));
    hide AllProper, AllMined, FromTx, Put;
    if !tx.IsCoinBase() {
      UndoAllExact(v, tx.vin);
    }
  }
}
