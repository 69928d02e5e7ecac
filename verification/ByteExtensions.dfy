/** Integer/byte conversions of the wire format, on a little-endian host. */
module ByteExtensions {
  import opened Wrappers

  type byte = x: int | 0 <= x < 0x100
  type int32 = x: int | -0x8000_0000 <= x < 0x8000_0000

  const ARRAY_LIMIT := 0x8000_0000

  /** Unchecked 32-bit arithmetic: the value a C# `int` holds after overflow. */
  function Wrap32(x: int): (r: int32)
    ensures -0x8000_0000 <= x < 0x8000_0000 ==> r == x
  {
    if -0x8000_0000 <= x < 0x8000_0000 then x
    else (x + 0x8000_0000) % 0x1_0000_0000 - 0x8000_0000
  }

  function Unsigned(v: int32): (u: nat)
    ensures u < 0x1_0000_0000
    ensures Wrap32(u) == v
  {
    if v < 0 then v + 0x1_0000_0000 else v
  }

  /** The number a little-endian byte string stands for. */
  function LittleEndian(b: seq<byte>): nat {
    if b == [] then 0 else b[0] + 0x100 * LittleEndian(b[1..])
  }

  /** The shortest byte string standing for `n`. */
  function Digits(n: nat): seq<byte> {
    if n == 0 then [] else [n % 0x100] + Digits(n / 0x100)
  }

  function Pow256(k: nat): nat {
    if k == 0 then 1 else 0x100 * Pow256(k - 1)
  }

  function Zeros(k: nat): (z: seq<byte>)
    ensures |z| == k
  {
    seq(k, _ => 0)
  }

  /** `b` filled up with zero bytes to `size` bytes. */
  function Pad(b: seq<byte>, size: nat): (p: seq<byte>)
    requires |b| <= size
    ensures |p| == size
  {
    b + Zeros(size - |b|)
  }

  /** `BitConverter.GetBytes` of a 32-bit integer. */
  function FourBytes(v: int32): (b: seq<byte>)
    ensures |b| == 4
  {
    var u := Unsigned(v);
    var u1 := u / 0x100;
    var u2 := u1 / 0x100;
    [u % 0x100, u1 % 0x100, u2 % 0x100, u2 / 0x100]
  }

  function FromBytesToInt(value: seq<byte>): Result<int32> {
    if |value| > 4 then Failure(Thrown)
    else Success(Wrap32(LittleEndian(Pad(value, 4))))
  }

  lemma FourBytesValue(v: int32)
    ensures LittleEndian(FourBytes(v)) == Unsigned(v)
  {
    var b := FourBytes(v);
    var b1: int, b2: int, b3: int := b[1], b[2], b[3];
    assert b[3..][1..] == [];
    assert LittleEndian(b[3..]) == b3;
    assert b[2..][1..] == b[3..];
    assert LittleEndian(b[2..]) == b2 + 0x100 * b3;
    assert b[1..][1..] == b[2..];
    assert LittleEndian(b[1..]) == b1 + 0x100 * (b2 + 0x100 * b3);
  }

  lemma {:induction false} LittleEndianPadded(b: seq<byte>, k: nat)
    ensures LittleEndian(b + Zeros(k)) == LittleEndian(b)
    decreases |b| + k
  {
    if b != [] {
      assert (b + Zeros(k))[1..] == b[1..] + Zeros(k);
      LittleEndianPadded(b[1..], k);
    } else if k > 0 {
      assert (b + Zeros(k))[1..] == [] + Zeros(k - 1);
      LittleEndianPadded([], k - 1);
    }
  }

  lemma {:induction false} DigitsValue(n: nat)
    ensures LittleEndian(Digits(n)) == n
    ensures n > 0 ==> |Digits(n)| > 0 && Digits(n)[|Digits(n)| - 1] != 0
    ensures n > 0 ==> Digits(n)[0] == n % 0x100
  {
    if n > 0 {
      DigitsValue(n / 0x100);
      assert Digits(n)[1..] == Digits(n / 0x100);
    }
  }

  lemma {:induction false} DigitsLength(n: nat, k: nat)
    ensures n < Pow256(k) <==> |Digits(n)| <= k
  {
    if n > 0 && k > 0 {
      DigitsLength(n / 0x100, k - 1);
      assert n < 0x100 * Pow256(k - 1) <==> n / 0x100 < Pow256(k - 1);
    } else if n == 0 {
      Pow256Positive(k);
    }
  }

  lemma {:induction false} Pow256Positive(k: nat)
    ensures Pow256(k) > 0
  {
    if k > 0 { Pow256Positive(k - 1); }
  }

  /** A byte string with a nonzero last byte is the shortest one for its value. */
  lemma {:induction false} ShortestIsDigits(b: seq<byte>)
    requires b != [] ==> b[|b| - 1] != 0
    ensures b == Digits(LittleEndian(b))
  {
    if b != [] {
      ShortestIsDigits(b[1..]);
      var n := LittleEndian(b);
      assert n == b[0] + 0x100 * LittleEndian(b[1..]);
      assert n % 0x100 == b[0] && n / 0x100 == LittleEndian(b[1..]);
    }
  }

  lemma ZerosValue(k: nat)
    ensures LittleEndian(Zeros(k)) == 0
  {
    LittleEndianPadded([], k);
    assert [] + Zeros(k) == Zeros(k);
  }

  lemma ZeroUnsigned(v: int32)
    ensures Unsigned(v) == 0 <==> v == 0
  {
  }

  /** What the bytes left after stripping `zeros` trailing zero bytes stand for. */
  lemma {:induction false} StrippedValue(full: seq<byte>, zeros: nat)
    requires zeros <= |full| == 4
    requires full[4 - zeros..] == Zeros(zeros)
    ensures LittleEndian(full[..4 - zeros]) == LittleEndian(full)
    ensures Pad(full[..4 - zeros], 4) == full
  {
    assert full == full[..4 - zeros] + Zeros(zeros);
    LittleEndianPadded(full[..4 - zeros], zeros);
  }

  /** Strips the trailing zero bytes; zero runs the index below the array and throws. */
  method ToBytes(value: int32) returns (r: Result<seq<byte>>)
    ensures value == 0 ==> r == Failure(Thrown)
    ensures value != 0 ==> r == Success(Digits(Unsigned(value)))
    ensures r.Success? ==> 1 <= |r.value| <= 4 && FromBytesToInt(r.value) == Success(value)
  {
    hide FourBytes, Unsigned, LittleEndian, Digits, Wrap32, Zeros, Pad;
    var fullBytes := FourBytes(value);
    FourBytesValue(value);
    ZeroUnsigned(value);
    var index := |fullBytes| - 1;
    var zeros := 0;
    while index >= 0 && fullBytes[index] == 0
      invariant -1 <= index < 4 && zeros == 3 - index
      invariant forall i :: index < i < 4 ==> fullBytes[i] == 0
    {
      index := index - 1;
      zeros := zeros + 1;
    }
    AllZeros(fullBytes[index + 1..]);
    StrippedValue(fullBytes, zeros);
    if index < 0 {
      ZerosValue(4);
      assert fullBytes[0..] == fullBytes;
      return Failure(Thrown);
    }
    var result := fullBytes[..|fullBytes| - zeros];
    ShortestIsDigits(result);
    NonzeroValue(result);
    return Success(result);
  }

  lemma AllZeros(b: seq<byte>)
    requires forall i :: 0 <= i < |b| ==> b[i] == 0
    ensures b == Zeros(|b|)
  {
  }

  lemma {:induction false} NonzeroValue(b: seq<byte>)
    requires b != [] && b[|b| - 1] != 0
    ensures LittleEndian(b) > 0
  {
    if |b| > 1 { NonzeroValue(b[1..]); }
  }

  /** A length written into a slot wide enough for it is read back unchanged. */
  lemma {:induction false} PaddedDigitsRoundTrip(n: nat, size: nat)
    requires size <= 4 && n < Pow256(size) && n < ARRAY_LIMIT
    ensures |Digits(n)| <= size
    ensures FromBytesToInt(Pad(Digits(n), size)) == Success(n)
  {
    DigitsLength(n, size);
    DigitsValue(n);
    assert |Digits(n)| <= size;
    var slot := Pad(Digits(n), size);
    LittleEndianPadded(Digits(n), size - |Digits(n)|);
    LittleEndianPadded(slot, 4 - size);
    assert LittleEndian(Pad(slot, 4)) == n;
    assert Wrap32(n) == n;
  }
}
