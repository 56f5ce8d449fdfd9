/** The stored form itself: the codes of the special scripts, and the records the comment above
    class CCoins in src/coins.h takes apart byte by byte. */
module CoinsFormat {
  import opened Numbers
  import opened VarIntCodec
  import opened AmountCodec
  import opened CoinsLayer
  import opened CoinsCodec
  import opened CoinsRecord

  // ------------------------------------------------------------------ special scripts

  function PayToKeyHash(hash: seq<Byte>): seq<Byte> {
    [0x76, 0xa9, 20] + hash + [0x88, 0xac]
  }

  function PayToScriptHash(hash: seq<Byte>): seq<Byte> {
    [0xa9, 20] + hash + [0x87]
  }

  function PayToKey(key: seq<Byte>): seq<Byte> {
    [|key| % 256] + key + [0xac]
  }

  lemma {:induction false} CodedScript(curve: Curve, code: Byte, data: seq<Byte>, rest: seq<Byte>)
    requires code < SPECIAL_SCRIPTS && |data| == SpecialSize(code)
    ensures DecodeScript(curve, [code] + data + rest) == Got(ExpandScript(curve, code, data), rest)
  {
    hide ReadWord, ExpandScript;
    assert [code] + data + rest == [code] + (data + rest);
    OneByte(code, data + rest);
    assert (data + rest)[..|data|] == data && (data + rest)[|data|..] == rest;
  }

  /** Code 0 is pay-to-pubkey-hash and code 1 pay-to-script-hash, in both directions. */
  lemma {:induction false} HashCodes(curve: Curve, hash: seq<Byte>, rest: seq<Byte>)
    requires |hash| == 20
    ensures EncodeScript(curve, PayToKeyHash(hash)) == [0] + hash
    ensures EncodeScript(curve, PayToScriptHash(hash)) == [1] + hash
    ensures DecodeScript(curve, [0] + hash + rest) == Got(PayToKeyHash(hash), rest)
    ensures DecodeScript(curve, [1] + hash + rest) == Got(PayToScriptHash(hash), rest)
  {
    hide DecodeScript, VarInt;
    CodedScript(curve, 0, hash, rest);
    CodedScript(curve, 1, hash, rest);
    assert PayToKeyHash(hash)[3..23] == hash;
    assert PayToScriptHash(hash)[2..22] == hash;
  }

  /** Codes 2 and 3 are the compressed keys that start with that byte. */
  lemma {:induction false} KeyCodes(curve: Curve, code: Byte, x: seq<Byte>, rest: seq<Byte>)
    requires |x| == 32 && (code == 2 || code == 3)
    ensures EncodeScript(curve, PayToKey([code] + x)) == [code] + x
    ensures DecodeScript(curve, [code] + x + rest) == Got(PayToKey([code] + x), rest)
  {
    hide DecodeScript, VarInt;
    CodedScript(curve, code, x, rest);
    var s := PayToKey([code] + x);
    assert s[0] == 33 && s[1] == code && s[34] == 0xac && s[2..34] == x;
    assert [33, code] + x + [0xac] == s;
  }

  lemma {:induction false} FullKeyParts(x: seq<Byte>, y: seq<Byte>)
    requires |x| == |y| == 32
    ensures var s := PayToKey([4] + x + y);
            |s| == 67 && s[0] == 65 && s[1] == 4 && s[66] == 0xac && s[1..66] == [4] + x + y && s[65] == y[31] &&
            s[2..34] == x
  {
    var k := [4] + x + y;
    var s := PayToKey(k);
    assert |k| == 65 && s[1..66] == k;
    assert s[2..34] == k[1..33] == x;
    assert s[65] == k[64] == y[31];
  }

  /** Codes 4 and 5 are full keys, of which the low bit of the last byte is kept. */
  lemma {:induction false} FullKeyCodes(curve: Curve, x: seq<Byte>, y: seq<Byte>, rest: seq<Byte>)
    requires Rebuilds(curve) && |x| == |y| == 32 && curve.fullyValid([4] + x + y)
    ensures EncodeScript(curve, PayToKey([4] + x + y)) == [if y[31] % 2 == 0 then 4 else 5] + x
    ensures DecodeScript(curve, [if y[31] % 2 == 0 then 4 else 5] + x + rest) == Got(PayToKey([4] + x + y), rest)
  {
    hide DecodeScript, VarInt, Rebuilds;
    var code: Byte := if y[31] % 2 == 0 then 4 else 5;
    var s := PayToKey([4] + x + y);
    FullKeyParts(x, y);
    CodedScript(curve, code, x, rest);
    FullKeyBack(curve, s);
  }

  /** Any other script follows its size, which counts from the number of codes. */
  lemma {:induction false} PlainScript(curve: Curve, s: seq<Byte>)
    requires CompressScript(curve, s) == None && |s| < 122
    ensures EncodeScript(curve, s) == [|s| + 6] + s
  {
    WrappedSmall(|s| + 6, TWO32);
    Division(|s| + 6, 128, 0, |s| + 6);
  }

  // ---------------------------------------------------------------------- the numbers

  lemma {:induction false} OneDigit(n: nat, more: bool)
    requires n <= 0x7F
    ensures Digits(n, more) == [n + if more then 128 else 0]
  {
    Division(n, 128, 0, n);
  }

  lemma {:induction false} MoreDigits(n: nat, more: bool, high: nat, low: nat)
    requires n == 128 * (high + 1) + low && low < 128
    ensures Digits(n, more) == Digits(high, true) + [low + if more then 128 else 0]
  {
    hide Digits;
    Division(n, 128, high + 1, low);
    DigitsStep(n, more, []);
    assert Digits(n, more) + [] == Digits(n, more);
    assert Digits(high, true) + ([Digit(n, more)] + []) == Digits(high, true) + [Digit(n, more)];
  }

  lemma {:induction false} DocumentedNumbers()
    ensures VarInt(1) == [0x01] && VarInt(4) == [0x04] && VarInt(9) == [0x09]
    ensures VarInt(600) == [0x83, 0x58]
    ensures VarInt(203998) == [0x8b, 0xb8, 0x5e]
    ensures VarInt(120891) == [0x86, 0xaf, 0x3b]
    ensures VarInt(2114333561) == [0x86, 0xef, 0x97, 0xd5, 0x79]
    ensures VarInt(993571) == [0xbb, 0xd1, 0x23]
  {
    hide Digits;
    OneDigit(1, false);
    OneDigit(4, false);
    OneDigit(9, false);
    OneDigit(3, true);
    MoreDigits(600, false, 3, 0x58);
    OneDigit(11, true);
    MoreDigits(1592, true, 11, 0x38);
    MoreDigits(203998, false, 1592, 0x5e);
    OneDigit(6, true);
    MoreDigits(943, true, 6, 0x2f);
    MoreDigits(120891, false, 943, 0x3b);
    MoreDigits(1007, true, 6, 0x6f);
    MoreDigits(129047, true, 1007, 0x17);
    MoreDigits(16518229, true, 129047, 0x55);
    MoreDigits(2114333561, false, 16518229, 0x79);
    OneDigit(59, true);
    MoreDigits(7761, true, 59, 0x51);
    MoreDigits(993571, false, 7761, 0x23);
  }

  lemma {:induction false} NoZeros(n: nat, q: nat, d: nat)
    requires n == 10 * q + d && 0 < d < 10
    ensures Compressed(n) == 1 + (9 * q + d - 1) * 10
  {
    Division(n, 10, q, d);
  }

  lemma {:induction false} DocumentedAmounts()
    ensures Compressed(60_000_000_000) == 600
    ensures Compressed(234_925_952) == 2114333561
    ensures Compressed(110_397) == 993571
  {
    hide Compressed;
    NoZeros(234_925_952, 23_492_595, 2);
    NoZeros(110_397, 11_039, 7);
    NineZeros(60);
  }

  lemma {:induction false} NineZeros(m: nat)
    requires m > 0
    ensures Compressed(m * 1_000_000_000) == 10 * m
  {
    hide Strip;
    assert Pow10(3) == 1000;
    assert Pow10(6) == 1_000_000;
    assert Pow10(9) == 1_000_000_000;
    StripShifted(m, 9, 0);
  }

  // ------------------------------------------------------------ the first record

  const HASH1: seq<Byte> := [0x81, 0x61, 0x15, 0x94, 0x4e, 0x07, 0x7f, 0xe7, 0xc8, 0x03, 0xcf, 0xa5, 0x7f, 0x29,
                             0xb3, 0x6b, 0xf8, 0x7c, 0x1d, 0x35]

  const RECORD1 := Coins(false, [NULL_OUT, TxOut(60_000_000_000, PayToKeyHash(HASH1))], 203998, 1)

  const BYTES1: seq<Byte> := [0x01, 0x04, 0x83, 0x58, 0x00] + HASH1 + [0x8b, 0xb8, 0x5e]

  lemma {:induction false} KeyHashOut(curve: Curve, value: nat, code: nat, hash: seq<Byte>)
    requires |hash| == 20 && Compressed(value) == code < TWO64
    ensures EncodeOut(curve, TxOut(value, PayToKeyHash(hash))) == VarInt(code) + ([0] + hash)
  {
    hide VarInt, EncodeScript, PayToKeyHash, Compressed;
    HashCodes(curve, hash, []);
    WrappedSmall(code, TWO64);
  }

  /** Nothing is stored of the spent outputs from lo up to hi. */
  lemma {:induction false} OutsSkip(curve: Curve, vout: seq<TxOut>, lo: nat, hi: nat)
    requires Payable(vout) && lo <= hi <= |vout| && forall i :: lo <= i < hi ==> vout[i].IsNull()
    ensures Outs(curve, vout, hi) == Outs(curve, vout, lo)
  {
    hide Payable, Outs;
    if lo < hi {
      OutsSkip(curve, vout, lo, hi - 1);
      OutsSpent(curve, vout, hi - 1);
    }
  }

  lemma {:induction false} OutsSpent(curve: Curve, vout: seq<TxOut>, i: nat)
    requires Payable(vout) && i < |vout| && vout[i].IsNull()
    ensures Outs(curve, vout, i + 1) == Outs(curve, vout, i)
  {
    hide EncodeOut, Payable;
  }

  lemma {:induction false} OutsNext(curve: Curve, vout: seq<TxOut>, i: nat)
    requires Payable(vout) && i < |vout| && !vout[i].IsNull()
    ensures vout[i].value >= 0 && Outs(curve, vout, i + 1) == Outs(curve, vout, i) + EncodeOut(curve, vout[i])
  {
    hide EncodeOut;
  }

  lemma {:induction false} NoOutsYet(curve: Curve, vout: seq<TxOut>)
    requires Payable(vout)
    ensures Outs(curve, vout, 0) == []
  {
  }

  lemma {:induction false} OutsOfOne(curve: Curve)
    ensures Payable(RECORD1.vout) && Outs(curve, RECORD1.vout, 2) == VarInt(600) + ([0] + HASH1)
  {
    hide VarInt, EncodeOut, PayToKeyHash, Outs, HASH1, Compressed;
    var vout := RECORD1.vout;
    HashSizes();
    DocumentedAmounts();
    NoOutsYet(curve, vout);
    OutsSkip(curve, vout, 0, 1);
    OutsNext(curve, vout, 1);
    KeyHashOut(curve, 60_000_000_000, 600, HASH1);
  }

  /** The first example of the comment is the encoding of that record. */
  lemma {:induction false} FirstExample(curve: Curve)
    ensures !RECORD1.IsPruned() && Payable(RECORD1.vout) && Encode(curve, RECORD1) == BYTES1
  {
    hide VarInt, PayToKeyHash, Outs, Masks, LastUsed, NonZero, HASH1, Blocks;
    assert !RECORD1.vout[1].IsNull();
    DocumentedNumbers();
    OutsOfOne(curve);
    NoMasks(RECORD1.vout);
    WrappedSmall(4, TWO32);
    JoinedOne();
    assert Encode(curve, RECORD1) == VarInt(1) + VarInt(4) + [] + Outs(curve, RECORD1.vout, 2) + VarInt(203998);
  }

  lemma {:induction false} JoinedOne()
    ensures [0x01] + [0x04] + [] + ([0x83, 0x58] + ([0] + HASH1)) + [0x8b, 0xb8, 0x5e] == BYTES1
  {
    hide HASH1;
  }

  lemma {:induction false} HashSizes()
    ensures |HASH1| == 20
  {
  }

  lemma {:induction false} NoMasks(vout: seq<TxOut>)
    requires |vout| <= 2
    ensures Blocks(vout) == 0 && LastUsed(vout, 0) == 0 && NonZero(vout, 0, 0) == 0 && Masks(vout, 0) == []
  {
  }

  /** And it is read back as that record. */
  lemma {:induction false} FirstRead(curve: Curve, rest: seq<Byte>)
    requires Rebuilds(curve)
    ensures Decode(curve, BYTES1 + rest) == Got(RECORD1, rest)
  {
    hide Encode, Decode, Compressed, Rebuilds, PayToKeyHash, BYTES1;
    FirstExample(curve);
    HashSizes();
    ScriptSize(HASH1);
    MoneyOut(RECORD1.vout[1]);
    RecordBack(curve, RECORD1, rest);
    RecordExact(RECORD1);
    CleanTrim(RECORD1.vout);
  }

  lemma {:induction false} ScriptSize(hash: seq<Byte>)
    requires |hash| == 20
    ensures |PayToKeyHash(hash)| == 25
  {
  }

  lemma {:induction false} CleanTrim(vout: seq<TxOut>)
    requires vout != [] && !vout[|vout| - 1].IsNull()
    ensures Trim(vout) == vout
  {
  }

  // ------------------------------------------------------------ the second record

  const HASH2: seq<Byte> := [0x61, 0xb0, 0x1c, 0xaa, 0xb5, 0x0f, 0x1b, 0x8e, 0x9c, 0x50, 0xa5, 0x05, 0x7e, 0xb4,
                             0x3c, 0x2d, 0x95, 0x63, 0xa4, 0xee]
  const HASH3: seq<Byte> := [0x8c, 0x98, 0x8f, 0x1a, 0x4a, 0x4d, 0xe2, 0x16, 0x1e, 0x0f, 0x50, 0xaa, 0xc7, 0xf1,
                             0x7e, 0x7f, 0x95, 0x55, 0xca, 0xa4]

  /** Seventeen outputs, of which the fifth and the last are unspent. */
  function Vout2(): (vout: seq<TxOut>)
    ensures |vout| == 17 && vout[4] == TxOut(234_925_952, PayToKeyHash(HASH2))
    ensures vout[16] == TxOut(110_397, PayToKeyHash(HASH3))
    ensures forall i :: 0 <= i < 17 && i != 4 && i != 16 ==> vout[i] == NULL_OUT
  {
    seq(17, i => if i == 4 then TxOut(234_925_952, PayToKeyHash(HASH2))
                 else if i == 16 then TxOut(110_397, PayToKeyHash(HASH3)) else NULL_OUT)
  }

  const RECORD2 := Coins(true, Vout2(), 120891, 1)

  const BYTES2: seq<Byte> :=
    [0x01, 0x09, 0x04, 0x40, 0x86, 0xef, 0x97, 0xd5, 0x79, 0x00] + HASH2 + [0xbb, 0xd1, 0x23, 0x00] + HASH3 +
    [0x86, 0xaf, 0x3b]

  lemma {:induction false} NoBits(bits: seq<bool>)
    requires forall i :: 0 <= i < |bits| ==> !bits[i]
    ensures PackBits(bits) == 0
  {
    if bits != [] {
      NoBits(bits[1..]);
    }
  }

  lemma {:induction false} SingleBit(bits: seq<bool>, k: nat)
    requires k < |bits| && bits[k] && forall i :: 0 <= i < |bits| && i != k ==> !bits[i]
    ensures PackBits(bits) == Exp2(k)
  {
    if k == 0 {
      NoBits(bits[1..]);
    } else {
      SingleBit(bits[1..], k - 1);
    }
  }

  lemma {:induction false} MaskOne(vout: seq<TxOut>, b: nat, k: nat)
    requires k < 8 && forall i :: 2 + 8 * b <= i < 10 + 8 * b ==> (Avail(vout, i) <==> i == 2 + 8 * b + k)
    ensures MaskByte(vout, b) == Exp2(k)
  {
    hide PackBits, Avail;
    var bits := AvailFrom(vout, 2 + 8 * b, 8);
    forall i | 0 <= i < 8
      ensures bits[i] <==> i == k
    {
      assert bits[i] == Avail(vout, 2 + 8 * b + i);
    }
    SingleBit(bits, k);
  }

  lemma {:induction false} TwoMasks(vout: seq<TxOut>)
    requires |vout| == 17 && MaskByte(vout, 0) == 4 && MaskByte(vout, 1) == 64
    ensures Blocks(vout) == 2 && LastUsed(vout, 2) == 2 && NonZero(vout, 0, 2) == 2 && Masks(vout, 2) == [4, 64]
  {
    hide MaskByte;
    assert NonZero(vout, 0, 0) == 0 && NonZero(vout, 0, 1) == 1;
    assert Masks(vout, 0) == [] && Masks(vout, 1) == [4];
  }

  lemma {:induction false} MasksOfTwo()
    ensures var vout := Vout2();
            Blocks(vout) == 2 && LastUsed(vout, 2) == 2 && NonZero(vout, 0, 2) == 2 && Masks(vout, 2) == [4, 64]
  {
    hide PayToKeyHash, MaskByte, Vout2, LastUsed, NonZero, Masks;
    var vout := Vout2();
    MaskOne(vout, 0, 2);
    MaskOne(vout, 1, 6);
    assert Exp2(2) == 4 && Exp2(6) == 64;
    TwoMasks(vout);
  }

  lemma {:induction false} OutsOfTwo(curve: Curve)
    ensures Payable(Vout2())
    ensures Outs(curve, Vout2(), 17) ==
            (VarInt(2114333561) + ([0] + HASH2)) + (VarInt(993571) + ([0] + HASH3))
  {
    hide VarInt, EncodeOut, PayToKeyHash, Outs, Vout2, HASH2, HASH3, Compressed;
    var vout := Vout2();
    HashSizes2();
    DocumentedAmounts();
    NoOutsYet(curve, vout);
    OutsSkip(curve, vout, 0, 4);
    OutsNext(curve, vout, 4);
    OutsSkip(curve, vout, 5, 16);
    OutsNext(curve, vout, 16);
    KeyHashOut(curve, 234_925_952, 2114333561, HASH2);
    KeyHashOut(curve, 110_397, 993571, HASH3);
  }

  lemma {:induction false} HashSizes2()
    ensures |HASH2| == |HASH3| == 20
  {
  }

  /** The second example is the encoding of a coinbase with outputs 4 and 16. */
  lemma {:induction false} SecondExample(curve: Curve)
    ensures !RECORD2.IsPruned() && Payable(RECORD2.vout) && Encode(curve, RECORD2) == BYTES2
  {
    hide VarInt, PayToKeyHash, Outs, Masks, LastUsed, NonZero, HASH2, HASH3, Vout2, Blocks;
    assert !RECORD2.vout[4].IsNull();
    DocumentedNumbers();
    OutsOfTwo(curve);
    MasksOfTwo();
    WrappedSmall(9, TWO32);
    Joined();
    assert Encode(curve, RECORD2) ==
      VarInt(1) + VarInt(9) + [4, 64] + Outs(curve, Vout2(), 17) + VarInt(120891);
  }

  lemma {:induction false} Joined()
    ensures [0x01] + [0x09] + [0x04, 0x40] +
            (([0x86, 0xef, 0x97, 0xd5, 0x79] + ([0] + HASH2)) + ([0xbb, 0xd1, 0x23] + ([0] + HASH3))) +
            [0x86, 0xaf, 0x3b] == BYTES2
  {
    hide HASH2, HASH3;
  }

  lemma {:induction false} SecondRead(curve: Curve, rest: seq<Byte>)
    requires Rebuilds(curve)
    ensures Decode(curve, BYTES2 + rest) == Got(RECORD2, rest)
  {
    hide Encode, Decode, Compressed, Rebuilds, PayToKeyHash, BYTES2, Vout2, HASH2, HASH3;
    SecondExample(curve);
    HashSizes2();
    ScriptSize(HASH2);
    ScriptSize(HASH3);
    MoneyOut(RECORD2.vout[4]);
    MoneyOut(RECORD2.vout[16]);
    RecordBack(curve, RECORD2, rest);
    RecordExact(RECORD2);
    CleanTrim(RECORD2.vout);
  }
}
