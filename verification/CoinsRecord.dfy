/** The record of a transaction's unspent outputs, CCoins::Serialize and Unserialize of src/coins.h. */
module CoinsRecord {
  import opened Numbers
  import opened VarIntCodec
  import opened CoinsLayer
  import opened CoinsCodec

  // --------------------------------------------------------------------------- bits

  /** Bits as a number, the first one lowest. */
  function PackBits(bits: seq<bool>): (x: nat)
    ensures x < Exp2(|bits|)
  {
    if bits == [] then 0 else (if bits[0] then 1 else 0) + 2 * PackBits(bits[1..])
  }

  function UnpackBits(x: nat, n: nat): (r: seq<bool>)
    ensures |r| == n
  {
    if n == 0 then [] else [x % 2 == 1] + UnpackBits(x / 2, n - 1)
  }

  lemma {:induction false} BitsBack(bits: seq<bool>)
    ensures UnpackBits(PackBits(bits), |bits|) == bits
  {
    if bits != [] {
      BitsBack(bits[1..]);
    }
  }

  lemma {:induction false} PackMore(bits: seq<bool>, b: bool)
    ensures PackBits(bits + [b]) == PackBits(bits) + if b then Exp2(|bits|) else 0
  {
    if bits == [] {
      assert [b][1..] == [];
    } else {
      PackMore(bits[1..], b);
      assert (bits + [b])[1..] == bits[1..] + [b];
    }
  }

  lemma {:induction false} Exp2Of8()
    ensures Exp2(8) == 256
  {
  }

  // ----------------------------------------------------------------------- the mask

  predicate Avail(vout: seq<TxOut>, i: nat) {
    i < |vout| && !vout[i].IsNull()
  }

  /** The outputs from i on, n of them: which are unspent. */
  function AvailFrom(vout: seq<TxOut>, i: nat, n: nat): (r: seq<bool>)
    ensures |r| == n
    ensures forall k :: 0 <= k < n ==> r[k] == Avail(vout, i + k)
  {
    if n == 0 then [] else AvailFrom(vout, i, n - 1) + [Avail(vout, i + n - 1)]
  }

  /** Byte b of the mask covers eight outputs, after the first two. */
  function MaskByte(vout: seq<TxOut>, b: nat): Byte {
    Exp2Of8();
    PackBits(AvailFrom(vout, 2 + 8 * b, 8))
  }

  /** The mask bytes there may be. */
  function Blocks(vout: seq<TxOut>): nat {
    if |vout| <= 2 then 0 else (|vout| - 2 + 7) / 8
  }

  /** One past the last byte that is not zero, among the first n. */
  function LastUsed(vout: seq<TxOut>, n: nat): (r: nat)
    ensures r <= n && (r > 0 ==> MaskByte(vout, r - 1) != 0)
  {
    if n == 0 then 0 else if MaskByte(vout, n - 1) != 0 then n else LastUsed(vout, n - 1)
  }

  /** Bytes that are not zero, from byte b up to n. */
  function NonZero(vout: seq<TxOut>, b: nat, n: nat): nat
    requires b <= n
  {
    if b == n then 0 else NonZero(vout, b, n - 1) + if MaskByte(vout, n - 1) != 0 then 1 else 0
  }

  /** No output from lo up to hi is unspent. */
  predicate NoneFrom(vout: seq<TxOut>, lo: nat, hi: nat)
    requires lo <= hi
  {
    lo == hi || (NoneFrom(vout, lo, hi - 1) && !Avail(vout, hi - 1))
  }

  lemma {:induction false} ZeroBits(vout: seq<TxOut>, lo: nat, n: nat)
    ensures PackBits(AvailFrom(vout, lo, n)) == 0 <==> NoneFrom(vout, lo, lo + n)
  {
    if n > 0 {
      ZeroBits(vout, lo, n - 1);
      PackMore(AvailFrom(vout, lo, n - 1), Avail(vout, lo + n - 1));
    }
  }

  lemma {:induction false} NoneBeyond(vout: seq<TxOut>, lo: nat, mid: nat, hi: nat)
    requires lo <= mid <= hi && mid >= |vout|
    ensures NoneFrom(vout, lo, hi) <==> NoneFrom(vout, lo, mid)
  {
    if mid < hi {
      NoneBeyond(vout, lo, mid, hi - 1);
    }
  }

  /** CalcMaskSize */
  method CalcMaskSize(vout: seq<TxOut>) returns (bytes: nat, nonZero: nat)
    ensures bytes == LastUsed(vout, Blocks(vout)) && nonZero == NonZero(vout, 0, Blocks(vout))
  {
    hide MaskByte;
    bytes, nonZero := 0, 0;
    var b := 0;
    while 2 + b * 8 < |vout|
      invariant b <= Blocks(vout) && bytes == LastUsed(vout, b) && nonZero == NonZero(vout, 0, b)
      decreases |vout| - b
    {
      var fZero := ZeroBlock(vout, b);
      if !fZero {
        bytes := b + 1;
        nonZero := nonZero + 1;
      }
      b := b + 1;
    }
  }

  /** The inner loop of CalcMaskSize. */
  method ZeroBlock(vout: seq<TxOut>, b: nat) returns (fZero: bool)
    ensures fZero <==> MaskByte(vout, b) == 0
  {
    hide PackBits, AvailFrom;
    fZero := true;
    var i := 0;
    while i < 8 && 2 + b * 8 + i < |vout|
      invariant 0 <= i <= 8 && (fZero <==> NoneFrom(vout, 2 + 8 * b, 2 + 8 * b + i))
    {
      if !vout[2 + b * 8 + i].IsNull() {
        fZero := false;
      }
      i := i + 1;
    }
    ZeroBits(vout, 2 + 8 * b, 8);
    if i < 8 {
      NoneBeyond(vout, 2 + 8 * b, 2 + 8 * b + i, 2 + 8 * b + 8);
    }
  }

  /** The first n bytes of the mask. */
  function Masks(vout: seq<TxOut>, n: nat): (r: seq<Byte>)
    ensures |r| == n
  {
    if n == 0 then [] else Masks(vout, n - 1) + [MaskByte(vout, n - 1)]
  }

  // ---------------------------------------------------------------------- the record

  /** An output in the record: nothing if it is spent. */
  function OutAt(curve: Curve, vout: seq<TxOut>, i: nat): seq<Byte>
    requires Payable(vout) && i < |vout|
  {
    if vout[i].IsNull() then [] else EncodeOut(curve, vout[i])
  }

  /** The unspent outputs among the first n. */
  function Outs(curve: Curve, vout: seq<TxOut>, n: nat): seq<Byte>
    requires Payable(vout) && n <= |vout|
  {
    if n == 0 then [] else Outs(curve, vout, n - 1) + OutAt(curve, vout, n - 1)
  }

  /** Unspent outputs have values that are not negative. */
  ghost predicate Payable(vout: seq<TxOut>) {
    forall i :: 0 <= i < |vout| ==> vout[i].value >= -1
  }

  /** A record whose numbers are in the range of their types, and small enough to be counted. */
  ghost predicate Storable(c: Coins) {
    -(TWO32 / 2) <= c.version < TWO32 / 2 && -(TWO32 / 2) <= c.height < TWO32 / 2 && |c.vout| + 12 < TWO32 &&
    AllFit(c.vout)
  }

  /** The unspent outputs can be written without loss. */
  ghost predicate AllFit(vout: seq<TxOut>) {
    Payable(vout) && forall i :: 0 <= i < |vout| && !vout[i].IsNull() ==> Fits(vout[i])
  }

  lemma {:induction false} NonZeroBound(vout: seq<TxOut>, n: nat)
    ensures NonZero(vout, 0, n) <= n
  {
    if n > 0 {
      NonZeroBound(vout, n - 1);
    }
  }

  /** The header code: coinbase, the first two outputs, and how many mask bytes are not zero. */
  function HeaderCode(coinBase: bool, first: bool, second: bool, nonZero: nat): nat
    requires first || second || nonZero > 0
  {
    8 * (nonZero - if first || second then 0 else 1) + Flags(coinBase, first, second)
  }

  /** Something is unspent if the record is not pruned. */
  lemma {:induction false} SomethingLeft(c: Coins)
    requires !c.IsPruned()
    ensures Avail(c.vout, 0) || Avail(c.vout, 1) || NonZero(c.vout, 0, Blocks(c.vout)) > 0
  {
    var i :| 0 <= i < |c.vout| && !c.vout[i].IsNull();
    if i >= 2 {
      var b := (i - 2) / 8;
      ByteUsed(c.vout, i);
      CountUsed(c.vout, b, Blocks(c.vout));
    }
  }

  lemma {:induction false} ByteUsed(vout: seq<TxOut>, i: nat)
    requires i >= 2 && Avail(vout, i)
    ensures (i - 2) / 8 < Blocks(vout) && MaskByte(vout, (i - 2) / 8) != 0
  {
    var b := (i - 2) / 8;
    ZeroBits(vout, 2 + 8 * b, 8);
    if NoneFrom(vout, 2 + 8 * b, 2 + 8 * b + 8) {
      NoneAt(vout, 2 + 8 * b, 2 + 8 * b + 8, i);
      assert false;
    }
  }

  lemma {:induction false} NoneAt(vout: seq<TxOut>, lo: nat, hi: nat, i: nat)
    requires lo <= i < hi && NoneFrom(vout, lo, hi)
    ensures !Avail(vout, i)
  {
    if i < hi - 1 {
      NoneAt(vout, lo, hi - 1, i);
    }
  }

  lemma {:induction false} CountUsed(vout: seq<TxOut>, b: nat, n: nat)
    requires b < n && MaskByte(vout, b) != 0
    ensures NonZero(vout, 0, n) > 0
  {
    if b < n - 1 {
      CountUsed(vout, b, n - 1);
    }
  }

  /** Serialize */
  function Encode(curve: Curve, c: Coins): seq<Byte>
    requires !c.IsPruned() && Payable(c.vout)
  {
    SomethingLeft(c);
    VarInt(c.version) +
    VarInt(Wrapped(HeaderCode(c.coinBase, Avail(c.vout, 0), Avail(c.vout, 1), NonZero(c.vout, 0, Blocks(c.vout))),
      TWO32)) +
    Masks(c.vout, LastUsed(c.vout, Blocks(c.vout))) +
    Outs(curve, c.vout, |c.vout|) +
    VarInt(c.height)
  }

  /** The mask bytes, read until as many as announced were not zero. */
  function ReadMasks(s: seq<Byte>, code: nat, avail: seq<bool>): Parsed<seq<bool>>
    decreases |s|
  {
    if code == 0 then Got(avail, s)
    else if s == [] then Fail
    else ReadMasks(s[1..], if s[0] != 0 then code - 1 else code, avail + UnpackBits(s[0], 8))
  }

  /** The outputs marked as unspent, from i on. */
  function ReadOuts(curve: Curve, s: seq<Byte>, avail: seq<bool>, i: nat): Parsed<seq<TxOut>>
    requires i <= |avail|
    decreases |avail| - i
  {
    if i == |avail| then Got([], s)
    else if !avail[i] then
      match ReadOuts(curve, s, avail, i + 1)
      case Fail => Fail
      case Got(outs, rest) => Got([NULL_OUT] + outs, rest)
    else
      match DecodeOut(curve, s)
      case Fail => Fail
      case Got(o, rest) =>
        match ReadOuts(curve, rest, avail, i + 1)
        case Fail => Fail
        case Got(outs, rest) => Got([o] + outs, rest)
  }

  /** Unserialize, field by field. */
  function Decode(curve: Curve, s: seq<Byte>): Parsed<Coins> {
    match ReadInt32(s)
    case Fail => Fail
    case Got(version, rest) => DecodeCode(curve, version, rest)
  }

  function DecodeCode(curve: Curve, version: int, s: seq<Byte>): Parsed<Coins> {
    match ReadWord(TWO32, s)
    case Fail => Fail
    case Got(code, rest) => DecodeMask(curve, version, code, rest)
  }

  function DecodeMask(curve: Curve, version: int, code: nat, s: seq<Byte>): Parsed<Coins> {
    var first, second := code / 2 % 2 == 1, code / 4 % 2 == 1;
    match ReadMasks(s, code / 8 + if first || second then 0 else 1, [first, second])
    case Fail => Fail
    case Got(avail, rest) => DecodeOuts(curve, version, code % 2 == 1, avail, rest)
  }

  function DecodeOuts(curve: Curve, version: int, coinBase: bool, avail: seq<bool>, s: seq<Byte>): Parsed<Coins> {
    match ReadOuts(curve, s, avail, 0)
    case Fail => Fail
    case Got(vout, rest) => DecodeHeight(version, coinBase, vout, rest)
  }

  function DecodeHeight(version: int, coinBase: bool, vout: seq<TxOut>, s: seq<Byte>): Parsed<Coins> {
    match ReadInt32(s)
    case Fail => Fail
    case Got(height, rest) => Got(Coins(coinBase, Trim(vout), height, version), rest)
  }

  // ---------------------------------------------------------------------- round trip

  lemma {:induction false} Octal(k: nat, r: nat)
    requires r < 8
    ensures (8 * k + r) / 8 == k && (8 * k + r) % 2 == r % 2
  {
    Division(8 * k + r, 8, k, r);
    Half(k, r);
  }

  lemma {:induction false} Quarter(k: nat, r: nat)
    requires r < 8
    ensures (8 * k + r) / 4 == 2 * k + r / 4
  {
    Division(8 * k + r, 4, 2 * k + r / 4, r % 4);
  }

  lemma {:induction false} Half(k: nat, r: nat)
    requires r < 8
    ensures (8 * k + r) / 2 == 4 * k + r / 2 && (8 * k + r) % 2 == r % 2
  {
    Division(8 * k + r, 2, 4 * k + r / 2, r % 2);
  }

  lemma {:induction false} Parity(k: nat, x: nat)
    ensures (2 * k + x) % 2 == x % 2
  {
  }

  /** The three flags below the count. */
  function Flags(coinBase: bool, first: bool, second: bool): (r: nat)
    ensures r < 8 && (r % 2 == 1 <==> coinBase) && (r / 2 % 2 == 1 <==> first) && (r / 4 % 2 == 1 <==> second)
  {
    (if coinBase then 1 else 0) + (if first then 2 else 0) + if second then 4 else 0
  }

  lemma {:induction false} CodeParts(k: nat, r: nat)
    requires r < 8
    ensures var code := 8 * k + r;
            code / 8 == k && code % 2 == r % 2 && code / 2 % 2 == r / 2 % 2 && code / 4 % 2 == r / 4 % 2
  {
    Octal(k, r);
    Half(k, r);
    Quarter(k, r);
    Parity(2 * k, r / 2);
    Parity(k, r / 4);
  }

  lemma {:induction false} CodeBack(coinBase: bool, first: bool, second: bool, nonZero: nat)
    requires first || second || nonZero > 0
    ensures var code := HeaderCode(coinBase, first, second, nonZero);
            (code % 2 == 1 <==> coinBase) && (code / 2 % 2 == 1 <==> first) && (code / 4 % 2 == 1 <==> second) &&
            code / 8 + (if first || second then 0 else 1) == nonZero
  {
    var k := nonZero - if first || second then 0 else 1;
    var r := Flags(coinBase, first, second);
    assert HeaderCode(coinBase, first, second, nonZero) == 8 * k + r;
    hide Flags, HeaderCode;
    CodeParts(k, r);
  }

  lemma {:induction false} NonZeroSplit(vout: seq<TxOut>, b: nat, n: nat)
    requires b < n
    ensures NonZero(vout, b, n) == (if MaskByte(vout, b) != 0 then 1 else 0) + NonZero(vout, b + 1, n)
  {
    if b + 1 < n {
      NonZeroSplit(vout, b, n - 1);
    }
  }

  lemma {:induction false} MasksFrom(vout: seq<TxOut>, b: nat, n: nat)
    requires b < n
    ensures Masks(vout, n)[b..] == [MaskByte(vout, b)] + Masks(vout, n)[b + 1..]
  {
    if b < n - 1 {
      MasksFrom(vout, b, n - 1);
    }
  }

  /** Trailing zero bytes do not count. */
  lemma {:induction false} NonZeroUsed(vout: seq<TxOut>, n: nat)
    ensures NonZero(vout, 0, n) == NonZero(vout, 0, LastUsed(vout, n))
  {
    if n > 0 && MaskByte(vout, n - 1) == 0 {
      NonZeroUsed(vout, n - 1);
    }
  }

  lemma {:induction false} AvailNext(vout: seq<TxOut>, n: nat, m: nat)
    ensures AvailFrom(vout, 0, n) + AvailFrom(vout, n, m) == AvailFrom(vout, 0, n + m)
  {
    var a := AvailFrom(vout, 0, n) + AvailFrom(vout, n, m);
    forall k | 0 <= k < n + m
      ensures a[k] == AvailFrom(vout, 0, n + m)[k]
    {
    }
  }

  /** The reader stops exactly where the writer stopped: the last byte written is not zero. */
  lemma {:induction false} MasksBack(vout: seq<TxOut>, b: nat, n: nat, rest: seq<Byte>)
    requires b <= n && (n > 0 ==> MaskByte(vout, n - 1) != 0)
    ensures ReadMasks(Masks(vout, n)[b..] + rest, NonZero(vout, b, n), AvailFrom(vout, 0, 2 + 8 * b)) ==
            Got(AvailFrom(vout, 0, 2 + 8 * n), rest)
    decreases n - b
  {
    hide MaskByte, NonZero, Masks, UnpackBits, AvailFrom, ReadMasks;
    if b == n {
      assert Masks(vout, n)[n..] + rest == rest;
      MasksDone(vout, n, rest, AvailFrom(vout, 0, 2 + 8 * b));
    } else {
      MaskBack(vout, b);
      MasksFrom(vout, b, n);
      NonZeroSplit(vout, b, n);
      LastCounts(vout, b, n);
      AvailNext(vout, 2 + 8 * b, 8);
      MasksBack(vout, b + 1, n, rest);
      assert [MaskByte(vout, b)] + Masks(vout, n)[b + 1..] + rest ==
        [MaskByte(vout, b)] + (Masks(vout, n)[b + 1..] + rest);
      MasksStep(Masks(vout, n)[b..] + rest, MaskByte(vout, b), Masks(vout, n)[b + 1..] + rest, NonZero(vout, b, n),
        AvailFrom(vout, 0, 2 + 8 * b));
    }
  }

  lemma {:induction false} MaskBack(vout: seq<TxOut>, b: nat)
    ensures UnpackBits(MaskByte(vout, b), 8) == AvailFrom(vout, 2 + 8 * b, 8)
  {
    hide UnpackBits, PackBits, AvailFrom;
    BitsBack(AvailFrom(vout, 2 + 8 * b, 8));
  }

  lemma {:induction false} MasksDone(vout: seq<TxOut>, n: nat, rest: seq<Byte>, avail: seq<bool>)
    ensures NonZero(vout, n, n) == 0 && ReadMasks(rest, 0, avail) == Got(avail, rest)
  {
  }

  lemma {:induction false} LastCounts(vout: seq<TxOut>, b: nat, n: nat)
    requires b < n && MaskByte(vout, n - 1) != 0
    ensures NonZero(vout, b, n) > 0
  {
  }

  lemma {:induction false} MasksStep(s: seq<Byte>, x: Byte, rest: seq<Byte>, code: nat, avail: seq<bool>)
    requires s == [x] + rest && code > 0
    ensures ReadMasks(s, code, avail) == ReadMasks(rest, if x != 0 then code - 1 else code, avail + UnpackBits(x, 8))
  {
    assert s[1..] == rest;
  }

  /** The outputs as they come back: spent ones all alike, oversize scripts replaced. */
  function Normal(o: TxOut): TxOut {
    if o.IsNull() then NULL_OUT else TxOut(o.value, CoinsCodec.Kept(o.script))
  }

  /** Output i as it comes back. */
  function NormalAt(vout: seq<TxOut>, i: nat): TxOut {
    if i < |vout| then Normal(vout[i]) else NULL_OUT
  }

  function NormalFrom(vout: seq<TxOut>, i: nat, n: nat): (r: seq<TxOut>)
    requires i <= n
    ensures |r| == n - i
    ensures forall k :: 0 <= k < n - i ==> r[k] == NormalAt(vout, i + k)
    decreases n - i
  {
    if i == n then [] else [NormalAt(vout, i)] + NormalFrom(vout, i + 1, n)
  }

  /** The unspent outputs from i on. */
  function OutsFrom(curve: Curve, vout: seq<TxOut>, i: nat): seq<Byte>
    requires Payable(vout)
    decreases |vout| - i
  {
    if i >= |vout| then [] else OutAt(curve, vout, i) + OutsFrom(curve, vout, i + 1)
  }

  lemma {:induction false} OutsSplit(curve: Curve, vout: seq<TxOut>, i: nat)
    requires Payable(vout) && i <= |vout|
    ensures Outs(curve, vout, |vout|) == Outs(curve, vout, i) + OutsFrom(curve, vout, i)
    decreases |vout| - i
  {
    hide OutAt, Payable;
    if i < |vout| {
      OutsSplit(curve, vout, i + 1);
      Join(Outs(curve, vout, i), OutAt(curve, vout, i), OutsFrom(curve, vout, i + 1));
    }
  }

  lemma {:induction false} Join(a: seq<Byte>, b: seq<Byte>, c: seq<Byte>)
    ensures a + b + c == a + (b + c)
  {
  }

  lemma {:induction false} JoinAll(a: seq<Byte>, b: seq<Byte>, c: seq<Byte>, d: seq<Byte>, e: seq<Byte>,
          rest: seq<Byte>)
    ensures a + b + c + d + e + rest == a + (b + (c + (d + (e + rest))))
  {
  }

  /** Beyond the mask everything is spent. */
  lemma {:induction false} NothingBeyond(vout: seq<TxOut>, n: nat, i: nat)
    requires LastUsed(vout, Blocks(vout)) == n && i >= 2 + 8 * n
    ensures !Avail(vout, i)
  {
    if Avail(vout, i) {
      ByteUsed(vout, i);
      UsedBelow(vout, (i - 2) / 8, Blocks(vout));
      assert false;
    }
  }

  lemma {:induction false} UsedBelow(vout: seq<TxOut>, b: nat, n: nat)
    requires b < n && MaskByte(vout, b) != 0
    ensures b < LastUsed(vout, n)
  {
    hide MaskByte;
    if b < n - 1 {
      UsedBelow(vout, b, n - 1);
    }
  }

  lemma {:induction false} ReadSpent(curve: Curve, s: seq<Byte>, avail: seq<bool>, i: nat, outs: seq<TxOut>,
          rest: seq<Byte>)
    requires i < |avail| && !avail[i] && ReadOuts(curve, s, avail, i + 1) == Got(outs, rest)
    ensures ReadOuts(curve, s, avail, i) == Got([NULL_OUT] + outs, rest)
  {
  }

  lemma {:induction false} ReadUnspent(curve: Curve, s: seq<Byte>, avail: seq<bool>, i: nat, outs: seq<TxOut>,
          rest: seq<Byte>, o: TxOut, next: seq<Byte>)
    requires i < |avail| && avail[i] && DecodeOut(curve, s) == Got(o, next)
    requires ReadOuts(curve, next, avail, i + 1) == Got(outs, rest)
    ensures ReadOuts(curve, s, avail, i) == Got([o] + outs, rest)
  {
    hide DecodeOut;
  }

  lemma {:induction false} UnspentOut(curve: Curve, vout: seq<TxOut>, i: nat, rest: seq<Byte>)
    requires Payable(vout) && Avail(vout, i)
    ensures OutsFrom(curve, vout, i) + rest == EncodeOut(curve, vout[i]) + (OutsFrom(curve, vout, i + 1) + rest)
  {
    hide EncodeOut, Payable;
  }

  lemma {:induction false} NormalNext(vout: seq<TxOut>, i: nat, n: nat)
    requires i < n
    ensures NormalFrom(vout, i, n) == [NormalAt(vout, i)] + NormalFrom(vout, i + 1, n)
    ensures NormalAt(vout, i) == if Avail(vout, i) then TxOut(vout[i].value, Kept(vout[i].script)) else NULL_OUT
  {
    hide Kept;
  }

  lemma {:induction false} OutsBack(curve: Curve, vout: seq<TxOut>, n: nat, i: nat, rest: seq<Byte>)
    requires Rebuilds(curve) && AllFit(vout) && i <= n && (forall k :: k >= n ==> !Avail(vout, k))
    ensures ReadOuts(curve, OutsFrom(curve, vout, i) + rest, AvailFrom(vout, 0, n), i) ==
      Got(NormalFrom(vout, i, n), rest)
    decreases n - i
  {
    hide Rebuilds, EncodeOut, DecodeOut, Fits, OutsFrom, NormalFrom, AvailFrom, NormalAt, Kept;
    if i == n {
      NoOuts(curve, vout, n);
      ReadNone(curve, vout, n, rest);
    } else {
      hide ReadOuts;
      var s := OutsFrom(curve, vout, i + 1) + rest;
      OutsBack(curve, vout, n, i + 1, rest);
      NormalNext(vout, i, n);
      if Avail(vout, i) {
        OutBack(curve, vout[i], s);
        UnspentOut(curve, vout, i, rest);
        ReadUnspent(curve, OutsFrom(curve, vout, i) + rest, AvailFrom(vout, 0, n), i, NormalFrom(vout, i + 1, n), rest,
                    TxOut(vout[i].value, Kept(vout[i].script)), s);
      } else {
        SpentOut(curve, vout, i);
        ReadSpent(curve, s, AvailFrom(vout, 0, n), i, NormalFrom(vout, i + 1, n), rest);
      }
    }
  }

  lemma {:induction false} ReadNone(curve: Curve, vout: seq<TxOut>, n: nat, rest: seq<Byte>)
    ensures ReadOuts(curve, rest, AvailFrom(vout, 0, n), n) == Got([], rest) && NormalFrom(vout, n, n) == []
  {
    hide AvailFrom;
  }

  lemma {:induction false} SpentOut(curve: Curve, vout: seq<TxOut>, i: nat)
    requires Payable(vout) && !Avail(vout, i)
    ensures OutsFrom(curve, vout, i) == OutsFrom(curve, vout, i + 1)
  {
  }

  lemma {:induction false} NoOuts(curve: Curve, vout: seq<TxOut>, i: nat)
    requires Payable(vout) && forall k :: k >= i ==> !Avail(vout, k)
    ensures OutsFrom(curve, vout, i) == []
    decreases |vout| - i
  {
    if i < |vout| {
      assert !Avail(vout, i);
      NoOuts(curve, vout, i + 1);
    }
  }

  /** Spent outputs at the end, present or not, are trimmed alike. */
  lemma {:induction false} TrimSame(a: seq<TxOut>, b: seq<TxOut>)
    requires |a| <= |b| && b[..|a|] == a && forall i :: |a| <= i < |b| ==> b[i].IsNull()
    ensures Trim(a) == Trim(b)
  {
    if |a| < |b| {
      assert b[..|b| - 1][..|a|] == a;
      TrimSame(a, b[..|b| - 1]);
    } else {
      assert a == b;
    }
  }

  /** The record as it comes back. */
  function Cleaned(c: Coins): Coins {
    Coins(c.coinBase, Trim(NormalFrom(c.vout, 0, |c.vout|)), Seven(c.height), Seven(c.version))
  }

  lemma {:induction false} NormalTrim(vout: seq<TxOut>, n: nat)
    requires forall k :: k >= n ==> !Avail(vout, k)
    ensures Trim(NormalFrom(vout, 0, n)) == Trim(NormalFrom(vout, 0, |vout|))
  {
    var a, b := NormalFrom(vout, 0, n), NormalFrom(vout, 0, |vout|);
    if n <= |vout| {
      forall i | n <= i < |b|
        ensures b[i].IsNull()
      {
        assert !Avail(vout, i);
      }
      TrimSame(a, b);
    } else {
      TrimSame(b, a);
    }
  }

  /** Every record that is not pruned is read back cleaned up: spent outputs at the end dropped,
      oversize scripts replaced, and negative numbers cut to seven bits. */
  lemma {:induction false} RecordBack(curve: Curve, c: Coins, rest: seq<Byte>)
    requires Rebuilds(curve) && !c.IsPruned() && Storable(c)
    ensures Decode(curve, Encode(curve, c) + rest) == Got(Cleaned(c), rest)
  {
    hide Rebuilds, LastUsed, NonZero, Masks, Outs, VarInt, ReadInt32, ReadWord, Wrapped, HeaderCode;
    hide DecodeCode, DecodeMask, DecodeOuts, DecodeHeight, Blocks, Avail, AvailFrom, NormalFrom, Trim, Payable, Fits,
         Coins.IsPruned;
    SomethingLeft(c);
    var vout := c.vout;
    var n := LastUsed(vout, Blocks(vout));
    forall k | k >= 2 + 8 * n
      ensures !Avail(vout, k)
    {
      NothingBeyond(vout, n, k);
    }
    var code := Wrapped(HeaderCode(c.coinBase, Avail(vout, 0), Avail(vout, 1), NonZero(vout, 0, Blocks(vout))), TWO32);
    var s4 := VarInt(c.height) + rest;
    var s3 := Outs(curve, vout, |vout|) + s4;
    var s1 := VarInt(code) + (Masks(vout, n) + s3);
    JoinAll(VarInt(c.version), VarInt(code), Masks(vout, n), Outs(curve, vout, |vout|), VarInt(c.height), rest);
    Int32Back(c.version, s1);
    BackCode(curve, c, n, s3);
    NormalTrim(vout, 2 + 8 * n);
    BackOuts(curve, c, n, rest);
  }

  /** Header code and mask. */
  lemma {:induction false} BackCode(curve: Curve, c: Coins, n: nat, s: seq<Byte>)
    requires !c.IsPruned() && n == LastUsed(c.vout, Blocks(c.vout)) && |c.vout| + 12 < TWO32
    requires Avail(c.vout, 0) || Avail(c.vout, 1) || NonZero(c.vout, 0, Blocks(c.vout)) > 0
    ensures var code := HeaderCode(c.coinBase, Avail(c.vout, 0), Avail(c.vout, 1), NonZero(c.vout, 0, Blocks(c.vout)));
            DecodeCode(curve, Seven(c.version), VarInt(Wrapped(code, TWO32)) + (Masks(c.vout, n) + s)) ==
            DecodeOuts(curve, Seven(c.version), c.coinBase, AvailFrom(c.vout, 0, 2 + 8 * n), s)
  {
    var code := HeaderCode(c.coinBase, Avail(c.vout, 0), Avail(c.vout, 1), NonZero(c.vout, 0, Blocks(c.vout)));
    CodeFits(c);
    hide LastUsed, NonZero, Masks, VarInt, ReadWord, Wrapped, HeaderCode, DecodeMask, DecodeOuts, Blocks, AvailFrom,
         Avail;
    WrappedSmall(code, TWO32);
    WordBack(TWO32, code, Masks(c.vout, n) + s);
    BackMask(curve, c, n, s);
  }

  lemma {:induction false} BackMask(curve: Curve, c: Coins, n: nat, s: seq<Byte>)
    requires n == LastUsed(c.vout, Blocks(c.vout))
    requires Avail(c.vout, 0) || Avail(c.vout, 1) || NonZero(c.vout, 0, Blocks(c.vout)) > 0
    ensures var code := HeaderCode(c.coinBase, Avail(c.vout, 0), Avail(c.vout, 1), NonZero(c.vout, 0, Blocks(c.vout)));
            DecodeMask(curve, Seven(c.version), code, Masks(c.vout, n) + s) ==
            DecodeOuts(curve, Seven(c.version), c.coinBase, AvailFrom(c.vout, 0, 2 + 8 * n), s)
  {
    hide LastUsed, NonZero, Masks, ReadMasks, HeaderCode, DecodeOuts, Blocks, AvailFrom, Avail;
    CodeBack(c.coinBase, Avail(c.vout, 0), Avail(c.vout, 1), NonZero(c.vout, 0, Blocks(c.vout)));
    MasksAll(c.vout, n, s);
  }

  lemma {:induction false} CodeFits(c: Coins)
    requires |c.vout| + 12 < TWO32
    requires Avail(c.vout, 0) || Avail(c.vout, 1) || NonZero(c.vout, 0, Blocks(c.vout)) > 0
    ensures HeaderCode(c.coinBase, Avail(c.vout, 0), Avail(c.vout, 1), NonZero(c.vout, 0, Blocks(c.vout))) < TWO32
  {
    hide NonZero, Flags;
    NonZeroBound(c.vout, Blocks(c.vout));
  }

  /** Outputs and height. */
  lemma {:induction false} BackOuts(curve: Curve, c: Coins, n: nat, rest: seq<Byte>)
    requires Rebuilds(curve) && Storable(c) && forall k :: k >= 2 + 8 * n ==> !Avail(c.vout, k)
    ensures DecodeOuts(curve, Seven(c.version), c.coinBase, AvailFrom(c.vout, 0, 2 + 8 * n),
      Outs(curve, c.vout, |c.vout|) + (VarInt(c.height) + rest)) ==
            Got(Coins(c.coinBase, Trim(NormalFrom(c.vout, 0, 2 + 8 * n)), Seven(c.height), Seven(c.version)), rest)
  {
    hide Rebuilds, Outs, ReadOuts, VarInt, ReadInt32, AvailFrom, NormalFrom, Trim;
    OutsAll(curve, c.vout, n, VarInt(c.height) + rest);
    Int32Back(c.height, rest);
  }

  lemma {:induction false} MasksAll(vout: seq<TxOut>, n: nat, rest: seq<Byte>)
    requires n == LastUsed(vout, Blocks(vout))
    ensures ReadMasks(Masks(vout, n) + rest, NonZero(vout, 0, Blocks(vout)), [Avail(vout, 0), Avail(vout, 1)]) ==
            Got(AvailFrom(vout, 0, 2 + 8 * n), rest)
  {
    hide ReadMasks, MaskByte;
    NonZeroUsed(vout, Blocks(vout));
    MasksBack(vout, 0, n, rest);
    assert Masks(vout, n)[0..] == Masks(vout, n);
    assert AvailFrom(vout, 0, 2) == [Avail(vout, 0), Avail(vout, 1)];
  }

  lemma {:induction false} OutsAll(curve: Curve, vout: seq<TxOut>, n: nat, rest: seq<Byte>)
    requires Rebuilds(curve) && AllFit(vout) && forall k :: k >= 2 + 8 * n ==> !Avail(vout, k)
    ensures ReadOuts(curve, Outs(curve, vout, |vout|) + rest, AvailFrom(vout, 0, 2 + 8 * n), 0) ==
      Got(NormalFrom(vout, 0, 2 + 8 * n), rest)
  {
    hide Rebuilds, ReadOuts, AvailFrom, NormalFrom;
    OutsSplit(curve, vout, 0);
    assert Outs(curve, vout, 0) + OutsFrom(curve, vout, 0) == OutsFrom(curve, vout, 0);
    OutsBack(curve, vout, 2 + 8 * n, 0, rest);
  }

  /** The record comes back cleaned up and otherwise unchanged exactly when its version and height
      are not negative and no unspent output has an oversize script. */
  lemma {:induction false} RecordExact(c: Coins)
    requires forall i :: 0 <= i < |c.vout| && c.vout[i].IsNull() ==> c.vout[i] == NULL_OUT
    ensures Cleaned(c) == c.(vout := Trim(c.vout)) <==>
            c.version >= 0 && c.height >= 0 &&
            forall i :: 0 <= i < |c.vout| && !c.vout[i].IsNull() ==> |c.vout[i].script| <= CoinsCodec.MAX_SCRIPT_SIZE
  {
    var m := NormalFrom(c.vout, 0, |c.vout|);
    if forall i :: 0 <= i < |c.vout| && !c.vout[i].IsNull() ==> |c.vout[i].script| <= CoinsCodec.MAX_SCRIPT_SIZE {
      assert m == c.vout;
    } else {
      var i :| 0 <= i < |c.vout| && !c.vout[i].IsNull() && |c.vout[i].script| > CoinsCodec.MAX_SCRIPT_SIZE;
      assert m[i] == NormalAt(c.vout, i) && m[i] != c.vout[i] && !m[i].IsNull();
      TrimDiffers(m, c.vout, i);
    }
  }

  lemma {:induction false} TrimDiffers(a: seq<TxOut>, b: seq<TxOut>, i: nat)
    requires i < |a| && i < |b| && a[i] != b[i] && !a[i].IsNull() && !b[i].IsNull()
    ensures Trim(a) != Trim(b)
  {
    assert i < |Trim(a)| && Trim(a)[i] == a[i];
    assert i < |Trim(b)| && Trim(b)[i] == b[i];
  }

  // -------------------------------------------------------------------- the two methods

  /** One byte of the mask, bit by bit. */
  method WriteMask(vout: seq<TxOut>, b: nat) returns (chAvail: Byte)
    ensures chAvail == MaskByte(vout, b)
  {
    hide PackBits, Exp2;
    Exp2Of8();
    var ch := 0;
    var i := 0;
    AvailNone(vout, 2 + 8 * b);
    while i < 8
      invariant 0 <= i <= 8 && ch == PackBits(AvailFrom(vout, 2 + 8 * b, i))
    {
      PackMore(AvailFrom(vout, 2 + 8 * b, i), Avail(vout, 2 + 8 * b + i));
      if 2 + b * 8 + i < |vout| && !vout[2 + b * 8 + i].IsNull() {
        ch := ch + Exp2(i);
      }
      i := i + 1;
    }
    chAvail := ch;
  }

  lemma {:induction false} AvailNone(vout: seq<TxOut>, i: nat)
    ensures PackBits(AvailFrom(vout, i, 0)) == 0
  {
  }

  /** CCoins::Serialize; the assertion in it holds of every record that is not pruned. */
  method Serialize(curve: Curve, c: Coins) returns (s: seq<Byte>)
    requires !c.IsPruned() && Payable(c.vout)
    ensures s == Encode(curve, c)
  {
    hide LastUsed, NonZero, MaskByte, VarInt, Blocks, OutAt, Payable, Coins.IsPruned;
    SomethingLeft(c);
    var vout := c.vout;
    var maskSize, maskCode := CalcMaskSize(vout);
    var fFirst := |vout| > 0 && !vout[0].IsNull();
    var fSecond := |vout| > 1 && !vout[1].IsNull();
    assert fFirst || fSecond || maskCode > 0;
    s := WriteVarInt(c.version);
    var code := WriteVarInt(Wrapped(HeaderCode(c.coinBase, fFirst, fSecond, maskCode), TWO32));
    s := s + code;
    ghost var start := s;
    var masks: seq<Byte> := [];
    for b := 0 to maskSize
      invariant masks == Masks(vout, b)
    {
      var chAvail := WriteMask(vout, b);
      masks := masks + [chAvail];
    }
    var outs: seq<Byte> := [];
    for i := 0 to |vout|
      invariant outs == Outs(curve, vout, i)
    {
      outs := outs + OutAt(curve, vout, i);
    }
    var height := WriteVarInt(c.height);
    s := s + masks + outs + height;
  }

  /** The eight flags of one mask byte, the lowest bit first. */
  method ReadMask(chAvail: Byte) returns (flags: seq<bool>)
    ensures flags == UnpackBits(chAvail, 8)
  {
    hide UnpackBits;
    flags := [];
    var x: int := chAvail;
    var p := 0;
    while p < 8
      invariant 0 <= p <= 8 && x >= 0 && UnpackBits(chAvail, 8) == flags + UnpackBits(x, 8 - p)
    {
      UnpackStep(flags, x, 8 - p);
      flags := flags + [x % 2 == 1];
      x := x / 2;
      p := p + 1;
    }
    UnpackEnd(x);
  }

  lemma {:induction false} UnpackStep(flags: seq<bool>, x: nat, n: nat)
    requires n > 0
    ensures flags + UnpackBits(x, n) == flags + [x % 2 == 1] + UnpackBits(x / 2, n - 1)
  {
  }

  lemma {:induction false} UnpackEnd(x: nat)
    ensures UnpackBits(x, 0) == []
  {
  }

  /** CCoins::Unserialize */
  method Unserialize(curve: Curve, s0: seq<Byte>) returns (r: Parsed<Coins>)
    ensures r == Decode(curve, s0)
  {
    var version := ReadVarInt32(s0);
    if version.Fail? {
      return Fail;
    }
    var code := ReadVarInt(TWO32, version.rest);
    if code.Fail? {
      return Fail;
    }
    hide ReadInt32, ReadWord, UnpackBits;
    var n := code.value;
    var avail := [n / 2 % 2 == 1, n / 4 % 2 == 1];
    var maskCode := n / 8 + if n / 2 % 2 == 1 || n / 4 % 2 == 1 then 0 else 1;
    var s := code.rest;
    ghost var parsed := ReadMasks(s, maskCode, avail);
    while maskCode > 0
      invariant parsed == ReadMasks(s, maskCode, avail)
      decreases |s|
    {
      if s == [] {
        return Fail;
      }
      var chAvail := s[0];
      var flags := ReadMask(chAvail);
      avail := avail + flags;
      if chAvail != 0 {
        maskCode := maskCode - 1;
      }
      s := s[1..];
    }
    r := ReadBody(curve, version.value, n % 2 == 1, avail, s);
  }

  /** The outputs and the height. */
  method ReadBody(curve: Curve, version: int, coinBase: bool, avail: seq<bool>, s0: seq<Byte>)
    returns (r: Parsed<Coins>)
    ensures r == DecodeOuts(curve, version, coinBase, avail, s0)
  {
    hide ReadInt32, DecodeOut;
    var vout: seq<TxOut> := [];
    var s := s0;
    var i := 0;
    if ReadOuts(curve, s0, avail, 0).Got? {
      assert [] + ReadOuts(curve, s0, avail, 0).value == ReadOuts(curve, s0, avail, 0).value;
    }
    while i < |avail|
      invariant 0 <= i <= |avail|
      invariant ReadOuts(curve, s0, avail, 0) ==
                match ReadOuts(curve, s, avail, i)
                case Fail => Fail
                case Got(outs, rest) => Got(vout + outs, rest)
    {
      ghost var later := ReadOuts(curve, s, avail, i);
      if avail[i] {
        var o := DecodeOut(curve, s);
        if o.Fail? {
          return Fail;
        }
        s := o.rest;
        Prefix(curve, s, avail, i + 1, vout, o.value);
        vout := vout + [o.value];
      } else {
        Prefix(curve, s, avail, i + 1, vout, NULL_OUT);
        vout := vout + [NULL_OUT];
      }
      i := i + 1;
    }
    assert vout + [] == vout;
    var height := ReadVarInt32(s);
    if height.Fail? {
      return Fail;
    }
    var trimmed := Cleanup(Coins(coinBase, vout, height.value, version));
    r := Got(trimmed, height.rest);
  }

  lemma {:induction false} Prefix(curve: Curve, s: seq<Byte>, avail: seq<bool>, i: nat, vout: seq<TxOut>, o: TxOut)
    requires i <= |avail|
    ensures ReadOuts(curve, s, avail, i).Got? ==>
      var outs := ReadOuts(curve, s, avail, i).value; vout + ([o] + outs) == vout + [o] + outs
  {
  }
}
