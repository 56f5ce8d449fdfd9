/** Compact coin records: scripts and outputs of src/compressor.h, the record of src/coins.h. */
module CoinsCodec {
  import opened Numbers
  import opened VarIntCodec
  import opened AmountCodec
  import opened CoinsLayer

  const OP_DUP: Byte := 0x76
  const OP_HASH160: Byte := 0xa9
  const OP_EQUAL: Byte := 0x87
  const OP_EQUALVERIFY: Byte := 0x88
  const OP_CHECKSIG: Byte := 0xac
  const OP_RETURN: Byte := 0x6a
  const SPECIAL_SCRIPTS := 6
  const MAX_SCRIPT_SIZE := 10_000

  datatype Option<T> = None | Some(value: T)

  /** The curve arithmetic of public keys, not part of this model. */
  datatype Curve = Curve(fullyValid: seq<Byte> -> bool, decompress: seq<Byte> -> Option<seq<Byte>>)

  /** A valid uncompressed key can be rebuilt from its first half and one bit of the second, and
      rebuilt keys are uncompressed. */
  ghost predicate Rebuilds(curve: Curve) {
    (forall k: seq<Byte> :: |k| == 65 && k[0] == 4 && curve.fullyValid(k) ==>
      curve.decompress([2 + k[64] % 2] + k[1..33]) == Some(k)) &&
    (forall c: seq<Byte> :: curve.decompress(c).Some? ==> |curve.decompress(c).value| == 65)
  }

  // ------------------------------------------------------------------------ scripts

  predicate IsToKeyId(s: seq<Byte>) {
    |s| == 25 && s[0] == OP_DUP && s[1] == OP_HASH160 && s[2] == 20 && s[23] == OP_EQUALVERIFY && s[24] == OP_CHECKSIG
  }

  predicate IsToScriptId(s: seq<Byte>) {
    |s| == 23 && s[0] == OP_HASH160 && s[1] == 20 && s[22] == OP_EQUAL
  }

  predicate IsToCompressedKey(s: seq<Byte>) {
    |s| == 35 && s[0] == 33 && s[34] == OP_CHECKSIG && (s[1] == 2 || s[1] == 3)
  }

  predicate IsToFullKey(curve: Curve, s: seq<Byte>) {
    |s| == 67 && s[0] == 65 && s[66] == OP_CHECKSIG && s[1] == 4 && curve.fullyValid(s[1..66])
  }

  /** CScriptCompressor::Compress */
  function CompressScript(curve: Curve, s: seq<Byte>): Option<seq<Byte>> {
    if IsToKeyId(s) then Some([0] + s[3..23])
    else if IsToScriptId(s) then Some([1] + s[2..22])
    else if IsToCompressedKey(s) then Some([s[1]] + s[2..34])
    else if IsToFullKey(curve, s) then Some([4 + s[65] % 2] + s[2..34])
    else None
  }

  /** GetSpecialSize */
  function SpecialSize(code: nat): nat {
    if code <= 1 then 20 else if code <= 5 then 32 else 0
  }

  /** CScriptCompressor::Decompress; a key that cannot be rebuilt leaves the script empty. */
  function ExpandScript(curve: Curve, code: nat, data: seq<Byte>): seq<Byte>
    requires code < SPECIAL_SCRIPTS && |data| == SpecialSize(code)
  {
    if code == 0 then [OP_DUP, OP_HASH160, 20] + data + [OP_EQUALVERIFY, OP_CHECKSIG]
    else if code == 1 then [OP_HASH160, 20] + data + [OP_EQUAL]
    else if code <= 3 then [33, code] + data + [OP_CHECKSIG]
    else
      match curve.decompress([code - 2] + data)
      case None => []
      case Some(key) => [65] + key + [OP_CHECKSIG]
  }

  /** CScriptCompressor::Serialize */
  function EncodeScript(curve: Curve, s: seq<Byte>): seq<Byte> {
    match CompressScript(curve, s)
    case Some(c) => c
    case None => VarInt(Wrapped(|s| + SPECIAL_SCRIPTS, TWO32)) + s
  }

  /** CScriptCompressor::Unserialize, into an empty script. */
  function DecodeScript(curve: Curve, s: seq<Byte>): Parsed<seq<Byte>> {
    match ReadWord(TWO32, s)
    case Fail => Fail
    case Got(n, rest) =>
      if n < SPECIAL_SCRIPTS then
        if |rest| < SpecialSize(n)
          then Fail else Got(ExpandScript(curve, n, rest[..SpecialSize(n)]), rest[SpecialSize(n)..])
      else
        var size := n - SPECIAL_SCRIPTS;
        if |rest| < size then Fail
        else Got(if size > MAX_SCRIPT_SIZE then [OP_RETURN] else rest[..size], rest[size..])
  }

  /** The script that comes back: an oversize one is replaced. */
  function Kept(s: seq<Byte>): seq<Byte> {
    if |s| > MAX_SCRIPT_SIZE then [OP_RETURN] else s
  }

  lemma {:induction false} OneByte(b: Byte, rest: seq<Byte>)
    requires b < 128
    ensures ReadWord(TWO32, [b] + rest) == Got(b, rest)
  {
    ReadOne(0, b, rest);
    WrappedSmall(b, TWO32);
  }

  /** The special scripts are rebuilt from their code and data. */
  lemma {:induction false} SpecialBack(curve: Curve, s: seq<Byte>)
    requires Rebuilds(curve) && CompressScript(curve, s).Some?
    ensures var c := CompressScript(curve, s).value;
            |c| > 0 && c[0] < SPECIAL_SCRIPTS && |c| == 1 + SpecialSize(c[0]) && ExpandScript(curve, c[0], c[1..]) == s
    ensures |s| <= MAX_SCRIPT_SIZE
  {
    var c := CompressScript(curve, s).value;
    if IsToKeyId(s) {
      assert s == [s[0], s[1], s[2]] + s[3..23] + [s[23], s[24]];
    } else if IsToScriptId(s) {
      assert s == [s[0], s[1]] + s[2..22] + [s[22]];
    } else if IsToCompressedKey(s) {
      assert s == [s[0], s[1]] + s[2..34] + [s[34]];
    } else {
      FullKeyBack(curve, s);
    }
  }

  lemma {:induction false} FullKeyBack(curve: Curve, s: seq<Byte>)
    requires Rebuilds(curve) && IsToFullKey(curve, s)
    ensures ExpandScript(curve, 4 + s[65] % 2, s[2..34]) == s
  {
    var k := s[1..66];
    assert k[0] == 4 && k[64] == s[65] && k[1..33] == s[2..34];
    assert curve.decompress([2 + k[64] % 2] + k[1..33]) == Some(k);
    var code: Byte := 4 + s[65] % 2;
    assert code - 2 == 2 + k[64] % 2;
    assert s == [s[0]] + k + [s[66]];
  }

  /** What is read back is the script, or its replacement if it is oversize, exactly if its size
      fits the 32 bits it is written with. */
  lemma {:induction false} ScriptBack(curve: Curve, s: seq<Byte>, rest: seq<Byte>)
    requires Rebuilds(curve)
    ensures DecodeScript(curve, EncodeScript(curve, s) + rest) == Got(Kept(s), rest) <==> Sized(s)
  {
    hide Rebuilds, CompressScript, ExpandScript, VarInt, ReadWord, Wrapped;
    match CompressScript(curve, s)
    case Some(c) =>
      SpecialBack(curve, s);
      OneByte(c[0], c[1..] + rest);
      assert c + rest == [c[0]] + (c[1..] + rest);
      assert (c[1..] + rest)[..SpecialSize(c[0])] == c[1..];
      assert (c[1..] + rest)[SpecialSize(c[0])..] == rest;
    case None =>
      var size := Wrapped(|s| + SPECIAL_SCRIPTS, TWO32);
      WordBack(TWO32, size, s + rest);
      assert VarInt(size) + s + rest == VarInt(size) + (s + rest);
      if Sized(s) {
        WrappedSmall(|s| + SPECIAL_SCRIPTS, TWO32);
        assert (s + rest)[..|s|] == s && (s + rest)[|s|..] == rest;
      }
  }

  /** The size of the script, as it is written, fits 32 bits. */
  predicate Sized(s: seq<Byte>) {
    |s| + SPECIAL_SCRIPTS < TWO32
  }

  // ------------------------------------------------------------------------ outputs

  /** CTxOutCompressor; an unspent output's value is not negative. */
  function EncodeOut(curve: Curve, o: TxOut): seq<Byte>
    requires o.value >= 0
  {
    VarInt(Wrapped(Compressed(o.value), TWO64)) + EncodeScript(curve, o.script)
  }

  /** A 64-bit word as a signed number. */
  function Signed(n: nat): int {
    if n < TWO64 / 2 then n else n - TWO64
  }

  function DecodeOut(curve: Curve, s: seq<Byte>): Parsed<TxOut> {
    match ReadWord(TWO64, s)
    case Fail => Fail
    case Got(x, rest) =>
      match DecodeScript(curve, rest)
      case Fail => Fail
      case Got(script, rest) => Got(TxOut(Signed(Wrapped(Decompressed(x), TWO64)), script), rest)
  }

  /** An output that can be written without loss. Every amount of money can. */
  predicate Fits(o: TxOut) {
    0 <= o.value < TWO64 / 2 && Compressed(o.value) < TWO64 && Sized(o.script)
  }

  lemma {:induction false} MoneyOut(o: TxOut)
    requires 0 <= o.value <= MAX_MONEY && Sized(o.script)
    ensures Fits(o)
  {
    MoneyFits(o.value);
  }

  lemma {:induction false} OutBack(curve: Curve, o: TxOut, rest: seq<Byte>)
    requires Rebuilds(curve) && Fits(o)
    ensures DecodeOut(curve, EncodeOut(curve, o) + rest) == Got(TxOut(o.value, Kept(o.script)), rest)
  {
    hide Rebuilds, EncodeScript, DecodeScript, VarInt, ReadWord, Compressed, Decompressed, Wrapped, Sized;
    var script := EncodeScript(curve, o.script);
    var x := Wrapped(Compressed(o.value), TWO64);
    WordBack(TWO64, x, script + rest);
    assert EncodeOut(curve, o) + rest == VarInt(x) + (script + rest);
    ScriptBack(curve, o.script, rest);
    AmountBack64(o.value);
  }
}
