/** Bytes of a stream, and the variable-length integers of src/utils/serialize.h. */
module VarIntCodec {
  import opened Numbers

  type Byte = x: int | 0 <= x < 256

  /** What reading from a stream gives; running off its end fails. */
  datatype Parsed<T> = Fail | Got(value: T, rest: seq<Byte>)

  /** The low seven bits of n; all bytes but the last one carry the high bit. */
  function Digit(n: int, more: bool): Byte {
    n % 128 + if more then 128 else 0
  }

  function Digits(n: int, more: bool): (r: seq<Byte>)
    ensures |r| > 0
    decreases if n < 0 then 0 else n
  {
    if n <= 0x7F then [Digit(n, more)] else Digits(n / 128 - 1, true) + [Digit(n, more)]
  }

  function VarInt(n: int): seq<Byte> {
    Digits(n, false)
  }

  lemma {:induction false} DigitsStep(n: int, more: bool, tail: seq<Byte>)
    ensures Digits(n, more) + tail ==
            if n <= 0x7F then [Digit(n, more)] + tail else Digits(n / 128 - 1, true) + ([Digit(n, more)] + tail)
  {
  }

  /** WriteVarInt: digits collected from the low end and written from the high end. */
  method WriteVarInt(n0: int) returns (out: seq<Byte>)
    ensures out == VarInt(n0)
  {
    hide Digit, Digits, Reversed;
    var n := n0;
    var tmp: seq<Byte> := [];
    ReversedEmpty();
    assert Digits(n0, false) + [] == Digits(n0, false);
    while true
      invariant VarInt(n0) == Digits(n, tmp != []) + Reversed(tmp)
      decreases n
    {
      DigitsStep(n, tmp != [], Reversed(tmp));
      ReversedMore(tmp, Digit(n, tmp != []));
      tmp := tmp + [Digit(n, tmp != [])];
      if n <= 0x7F {
        break;
      }
      n := n / 128 - 1;
    }
    out := WriteReversed(tmp);
  }

  method WriteReversed(tmp: seq<Byte>) returns (out: seq<Byte>)
    ensures out == Reversed(tmp)
  {
    out := [];
    var len := |tmp|;
    assert tmp[..len] == tmp;
    while len > 0
      invariant 0 <= len <= |tmp| && out + Reversed(tmp[..len]) == Reversed(tmp)
    {
      len := len - 1;
      assert tmp[..len + 1][..len] == tmp[..len];
      out := out + [tmp[len]];
    }
  }

  lemma {:induction false} ReversedEmpty()
    ensures Reversed([]) == []
  {
  }

  lemma {:induction false} ReversedMore(s: seq<Byte>, b: Byte)
    ensures Reversed(s + [b]) == [b] + Reversed(s)
  {
    assert (s + [b])[..|s|] == s;
  }

  function Reversed(s: seq<Byte>): seq<Byte> {
    if s == [] then [] else [s[|s| - 1]] + Reversed(s[..|s| - 1])
  }

  /** Reading goes on from the value so far. */
  function ReadFrom(sofar: nat, s: seq<Byte>): (r: Parsed<nat>)
    decreases |s|
  {
    if s == [] then Fail
    else
      var n := sofar * 128 + s[0] % 128;
      if s[0] >= 128 then ReadFrom(n + 1, s[1..]) else Got(n, s[1..])
  }

  /** The number the bytes say. */
  function ReadInt(s: seq<Byte>): Parsed<nat> {
    ReadFrom(0, s)
  }

  /** The number that is read: an unsigned type with m values wraps. */
  function ReadWord(m: nat, s: seq<Byte>): Parsed<nat>
    requires m > 0
  {
    match ReadInt(s)
    case Fail => Fail
    case Got(n, rest) => Got(Wrapped(n, m), rest)
  }

  /** The number read into a signed type of 32 bits. */
  function ReadInt32(s: seq<Byte>): Parsed<int> {
    match ReadWord(TWO32, s)
    case Fail => Fail
    case Got(n, rest) => Got(if n < TWO32 / 2 then n else n - TWO32, rest)
  }

  /** ReadVarInt, into an unsigned type with m values. */
  method ReadVarInt(m: nat, s: seq<Byte>) returns (r: Parsed<nat>)
    requires m > 0
    ensures r == ReadWord(m, s)
  {
    hide Wrapped;
    var n: nat := 0;
    ghost var exact: nat := 0;
    WrappedSmall(0, m);
    var i := 0;
    while i < |s|
      invariant 0 <= i <= |s| && n == Wrapped(exact, m) && ReadInt(s) == ReadFrom(exact, s[i..])
    {
      var ch := s[i];
      WrapStep(exact, ch % 128, m);
      exact := exact * 128 + ch % 128;
      n := Wrapped(n * 128 + ch % 128, m);
      assert s[i..][1..] == s[i + 1..];
      i := i + 1;
      if ch >= 128 {
        WrapNext(exact, m);
        exact := exact + 1;
        n := Wrapped(n + 1, m);
      } else {
        return Got(n, s[i..]);
      }
    }
    r := Fail;
  }

  /** ReadVarInt, into a signed type of 32 bits. */
  method ReadVarInt32(s: seq<Byte>) returns (r: Parsed<int>)
    ensures r == ReadInt32(s)
  {
    var word := ReadVarInt(TWO32, s);
    if word.Fail? {
      return Fail;
    }
    r := Got(if word.value < TWO32 / 2 then word.value else word.value - TWO32, word.rest);
  }

  lemma {:induction false} WrapStep(n: nat, d: nat, m: nat)
    requires m > 0
    ensures Wrapped(Wrapped(n, m) * 128 + d, m) == Wrapped(n * 128 + d, m)
  {
    var q, r := n / m, n % m;
    assert n * 128 + d == r * 128 + d + q * 128 * m;
    WrappedSum(r * 128 + d, q * 128, m);
  }

  lemma {:induction false} WrapNext(n: nat, m: nat)
    requires m > 0
    ensures Wrapped(Wrapped(n, m) + 1, m) == Wrapped(n + 1, m)
  {
    var q, r := n / m, n % m;
    assert n + 1 == r + 1 + q * m;
    WrappedSum(r + 1, q, m);
  }

  lemma {:induction false} ReadOne(sofar: nat, d: Byte, rest: seq<Byte>)
    ensures ReadFrom(sofar, [d] + rest) ==
            if d >= 128 then ReadFrom(sofar * 128 + d % 128 + 1, rest) else Got(sofar * 128 + d % 128, rest)
  {
    assert ([d] + rest)[1..] == rest;
  }

  /** Reading the digits of n, then a stream. */
  lemma {:induction false} ReadDigits(n: nat, more: bool, rest: seq<Byte>)
    ensures ReadFrom(0, Digits(n, more) + rest) == if more then ReadFrom(n + 1, rest) else Got(n, rest)
    decreases n
  {
    hide ReadFrom;
    var d := Digit(n, more);
    if n <= 0x7F {
      ReadOne(0, d, rest);
    } else {
      ReadDigits(n / 128 - 1, true, [d] + rest);
      assert Digits(n, more) + rest == Digits(n / 128 - 1, true) + ([d] + rest);
      ReadOne(n / 128, d, rest);
    }
  }

  /** What is written is read back if it is not negative; of a negative number seven bits are left. */
  lemma {:induction false} VarIntBack(n: int, rest: seq<Byte>)
    ensures ReadInt(VarInt(n) + rest) == Got(if n >= 0 then n else n % 128, rest)
  {
    if n >= 0 {
      ReadDigits(n, false, rest);
    } else {
      ReadOne(0, Digit(n, false), rest);
    }
  }

  lemma {:induction false} OnlyFrom(m: nat, s: seq<Byte>, n: nat, rest: seq<Byte>)
    requires ReadFrom(m + 1, s) == Got(n, rest)
    ensures Digits(m, true) + s == VarInt(n) + rest
    decreases |s|
  {
    var n1 := (m + 1) * 128 + s[0] % 128;
    assert n1 / 128 - 1 == m && n1 % 128 == s[0] % 128;
    assert s == [s[0]] + s[1..];
    DigitsStep(n1, s[0] >= 128, s[1..]);
    assert Digit(n1, s[0] >= 128) == s[0];
    if s[0] >= 128 {
      OnlyFrom(n1, s[1..], n, rest);
    }
  }

  /** The bytes are what writing the number they say gives. */
  lemma {:induction false} VarIntOnly(s: seq<Byte>, n: nat, rest: seq<Byte>)
    requires ReadInt(s) == Got(n, rest)
    ensures s == VarInt(n) + rest
  {
    assert s == [s[0]] + s[1..];
    if s[0] >= 128 {
      OnlyFrom(s[0] % 128, s[1..], n, rest);
      assert Digits(s[0] % 128, true) == [s[0]];
    }
  }

  /** What is read is written with the same bytes exactly if the number they say fits the type;
      only then is the encoding of every number unique. */
  lemma {:induction false} WordExact(m: nat, s: seq<Byte>)
    requires m > 0 && ReadInt(s).Got?
    ensures var r := ReadWord(m, s); s == VarInt(r.value) + r.rest <==> ReadInt(s).value < m
  {
    var n, rest := ReadInt(s).value, ReadInt(s).rest;
    hide ReadInt, VarInt;
    VarIntOnly(s, n, rest);
    VarIntBack(n, rest);
    VarIntBack(Wrapped(n, m), rest);
    if n < m {
      WrappedSmall(n, m);
    }
  }

  /** In every type zero has a second encoding. */
  lemma {:induction false} SecondZero(m: nat, rest: seq<Byte>)
    requires m > 0
    ensures ReadWord(m, VarInt(0) + rest) == ReadWord(m, VarInt(m) + rest) == Got(0, rest) && VarInt(m) != VarInt(0)
  {
    hide ReadInt, VarInt;
    VarIntBack(0, rest);
    VarIntBack(m, rest);
    VarIntBack(0, []);
    VarIntBack(m, []);
    WrappedSum(0, 1, m);
    WrappedSmall(0, m);
  }

  /** A number that fits the type is read back. */
  lemma {:induction false} WordBack(m: nat, n: nat, rest: seq<Byte>)
    requires n < m
    ensures ReadWord(m, VarInt(n) + rest) == Got(n, rest)
  {
    hide ReadInt, VarInt;
    VarIntBack(n, rest);
    WrappedSmall(n, m);
  }

  /** The number as VARINT carries it: of a negative one seven bits are left. */
  function Seven(x: int): nat {
    if x >= 0 then x else x % 128
  }

  lemma {:induction false} Int32Back(n: int, rest: seq<Byte>)
    requires -(TWO32 / 2) <= n < TWO32 / 2
    ensures ReadInt32(VarInt(n) + rest) == Got(Seven(n), rest)
  {
    hide ReadInt, VarInt;
    VarIntBack(n, rest);
    WrappedSmall(Seven(n), TWO32);
  }

  // --------------------------------------------------------------------------- sizes

  /** The first number that needs more than k bytes. */
  function Reach(k: nat): nat {
    if k == 0 then 0 else 128 * (Reach(k - 1) + 1)
  }

  lemma {:induction false} DigitsSize(n: nat, more: bool, k: nat)
    ensures |Digits(n, more)| <= k <==> n < Reach(k)
    decreases k
  {
    if k > 0 && n > 0x7F {
      DigitsSize(n / 128 - 1, true, k - 1);
    }
  }

  /** The sizes the documentation gives, for all numbers. */
  lemma {:induction false} DocumentedSizes(n: nat)
    ensures |VarInt(n)| == 1 <==> n < 128
    ensures |VarInt(n)| == 2 <==> 128 <= n < 16512
    ensures |VarInt(n)| == 3 <==> 16512 <= n < 2113664
  {
    DigitsSize(n, false, 1);
    DigitsSize(n, false, 2);
    DigitsSize(n, false, 3);
    assert Reach(1) == 128 && Reach(2) == 16512;
    assert Reach(3) == 2113664;
  }

  /** One of its examples does not agree with them: 16511 takes two bytes. */
  lemma {:induction false} Documented16511()
    ensures VarInt(16511) == [0xFF, 0x7F]
  {
    assert Digits(127, true) == [0xFF];
  }
}
