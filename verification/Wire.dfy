/** The buffer encodings of ssh/sshbuf-getput-basic.c and ssh/sshbuf-getput-crypto.c:
    big-endian integers, length-prefixed strings and multi-precision integers
    (section 5 of RFC 4251).  A buffer is the sequence of bytes still to be read. */
module Wire {
  type Byte = b: int | 0 <= b < 256 witness 0
  type Bytes = seq<Byte>

  const U32_LIMIT := 0x1_0000_0000
  const U64_LIMIT := 0x1_0000_0000_0000_0000
  type U32 = x: int | 0 <= x < U32_LIMIT witness 0
  type U64 = x: int | 0 <= x < U64_LIMIT witness 0

  const SSHBUF_SIZE_MAX := 0x2000_0000
  const SSHBUF_MAX_BIGNUM := 1024

  datatype Error =
    | MessageIncomplete | InvalidFormat | InvalidArgument | NoBufferSpace
    | BignumIsNegative | BignumTooLarge | LibcryptoError | BadMagic | SignatureSection
    | InternalError | NoCipherAlgMatch | NoMacAlgMatch | NoCompressAlgMatch | NoHostkeyAlgMatch
    | NoHostkeyLoaded | KeyTypeMismatch | SignatureInvalid
    | KeyTypeUnknown | KeyCertUnknownType | KeyCertInvalidSignKey | EcCurveMismatch | EcCurveInvalid | KeyInvalidEcValue

  datatype Result<+T> = Ok(value: T) | Err(error: Error) {
    predicate IsFailure() { Err? }
    function PropagateFailure<U>(): Result<U> requires Err? { Err(error) }
    function Extract(): T requires Ok? { value }
  }

  datatype Option<+T> = None | Some(value: T) {
    predicate IsFailure() { None? }
    function PropagateFailure<U>(): Option<U> requires None? { None }
    function Extract(): T requires Some? { value }
  }

  /** A value read from the front of a buffer, and what is left of the buffer. */
  datatype Read<+T> = Read(value: T, rest: Bytes)

  /** sshbuf_put: appending fails only at the buffer's maximum size. */
  function Put(buf: Bytes, x: Bytes): Result<Bytes>
  {
    if |buf| + |x| > SSHBUF_SIZE_MAX then Err(NoBufferSpace) else Ok(buf + x)
  }

  /** The characters of a C string. */
  function Text(b: Bytes): string { seq(|b|, i requires 0 <= i < |b| => b[i] as char) }

  function Min(a: nat, b: nat): nat { if a < b then a else b }

  /** Two different inputs with the same hash. */
  ghost predicate Collision(h: Bytes -> Bytes, a: Bytes, b: Bytes) { a != b && h(a) == h(b) }

  ghost predicate Suffix<T>(t: seq<T>, s: seq<T>) { |t| <= |s| && s[|s| - |t|..] == t }

  // ----- Big-endian numbers of a given width

  /** The low `len` bytes of `n`, most significant first. */
  function BigEndian(n: nat, len: nat): (s: Bytes)
    ensures |s| == len
  {
    if len == 0 then [] else BigEndian(n / 256, len - 1) + [n % 256]
  }

  function FromBigEndian(s: Bytes): nat
  {
    if s == [] then 0 else 256 * FromBigEndian(s[..|s| - 1]) + s[|s| - 1]
  }

  /** `n` can be written in `len` bytes. */
  ghost predicate Fits(n: nat, len: nat)
  {
    if len == 0 then n == 0 else Fits(n / 256, len - 1)
  }

  lemma {:induction false} BigEndianRoundTrip(n: nat, len: nat)
    requires Fits(n, len)
    ensures FromBigEndian(BigEndian(n, len)) == n
  {
    if len > 0 {
      BigEndianRoundTrip(n / 256, len - 1);
      var s := BigEndian(n, len);
      assert s[..|s| - 1] == BigEndian(n / 256, len - 1);
    }
  }

  lemma {:induction false} FitsU32(n: U32)
    ensures Fits(n, 4)
  {
    assert n / 256 / 256 / 256 / 256 == 0;
    assert Fits(n / 256 / 256 / 256 / 256, 0);
    assert Fits(n / 256 / 256 / 256, 1);
    assert Fits(n / 256 / 256, 2);
    assert Fits(n / 256, 3);
  }

  lemma {:induction false} FitsU64(n: U64)
    ensures Fits(n, 8)
  {
    var h := n / 256 / 256 / 256 / 256;
    assert h < U32_LIMIT;
    FitsU32(h);
    assert Fits(n / 256 / 256 / 256, 5);
    assert Fits(n / 256 / 256, 6);
    assert Fits(n / 256, 7);
  }

  function GetU8(b: Bytes): Result<Read<Byte>>
  {
    if |b| < 1 then Err(MessageIncomplete) else Ok(Read(b[0], b[1..]))
  }

  lemma {:induction false} FromBigEndianBound(s: Bytes)
    ensures |s| == 4 ==> FromBigEndian(s) < U32_LIMIT
    ensures |s| == 8 ==> FromBigEndian(s) < U64_LIMIT
  {
    if |s| == 4 || |s| == 8 {
      FromBigEndianSplit4(s[..|s| - 4], s[|s| - 4..]);
      assert s[..|s| - 4] + s[|s| - 4..] == s;
      if |s| == 8 {
        FromBigEndianSplit4([], s[..4]);
        assert [] + s[..4] == s[..4];
      }
    }
  }

  lemma {:induction false} FromBigEndianSplit4(a: Bytes, b: Bytes)
    requires |b| == 4
    ensures FromBigEndian(a + b) == U32_LIMIT * FromBigEndian(a)
                                    + 0x100_0000 * (b[0] as int) + 0x1_0000 * (b[1] as int) + 256 * (b[2] as int) + b[3]
  {
    FromBigEndianSnoc(a, b[0]);
    FromBigEndianSnoc(a + [b[0]], b[1]);
    FromBigEndianSnoc(a + [b[0]] + [b[1]], b[2]);
    FromBigEndianSnoc(a + [b[0]] + [b[1]] + [b[2]], b[3]);
    assert a + b == a + [b[0]] + [b[1]] + [b[2]] + [b[3]];
  }

  lemma {:induction false} FromBigEndianSnoc(a: Bytes, x: Byte)
    ensures FromBigEndian(a + [x]) == 256 * FromBigEndian(a) + x
  {
    assert (a + [x])[..|a|] == a;
  }

  function GetU32(b: Bytes): Result<Read<U32>>
  {
    if |b| < 4 then Err(MessageIncomplete)
    else FromBigEndianBound(b[..4]); Ok(Read(FromBigEndian(b[..4]), b[4..]))
  }

  function GetU64(b: Bytes): Result<Read<U64>>
  {
    if |b| < 8 then Err(MessageIncomplete)
    else FromBigEndianBound(b[..8]); Ok(Read(FromBigEndian(b[..8]), b[8..]))
  }

  const U32_WIDTH: nat := 4
  const U64_WIDTH: nat := 8

  function U32Bytes(n: U32): (s: Bytes) { BigEndian(n, U32_WIDTH) }
  function U64Bytes(n: U64): (s: Bytes) { BigEndian(n, U64_WIDTH) }

  lemma U32RoundTrip(n: U32, rest: Bytes)
    ensures GetU32(U32Bytes(n) + rest) == Ok(Read(n, rest))
  {
    FitsU32(n);
    BigEndianRoundTrip(n, 4);
    assert (U32Bytes(n) + rest)[..4] == U32Bytes(n);
    assert (U32Bytes(n) + rest)[4..] == rest;
  }

  lemma U64RoundTrip(n: U64, rest: Bytes)
    ensures GetU64(U64Bytes(n) + rest) == Ok(Read(n, rest))
  {
    FitsU64(n);
    BigEndianRoundTrip(n, 8);
    assert (U64Bytes(n) + rest)[..8] == U64Bytes(n);
    assert (U64Bytes(n) + rest)[8..] == rest;
  }

  /** The first four bytes of a 64-bit word are its high half, and the fifth is the top of the low. */
  lemma U64Halves(n: U64)
    ensures |U64Bytes(n)| == 8 && U64Bytes(n)[..4] == U32Bytes(n / U32_LIMIT)
    ensures U64Bytes(n)[4] == n / 0x100_0000 % 256
  {
    var h, s := n / 256 / 256 / 256 / 256, BigEndian(n / 256 / 256 / 256 / 256, 4);
    assert h == n / U32_LIMIT && n / 256 / 256 / 256 == n / 0x100_0000;
    assert BigEndian(n / 256 / 256 / 256, 5) == s + [n / 0x100_0000 % 256];
    assert BigEndian(n / 256 / 256, 6)[..5] == BigEndian(n / 256 / 256 / 256, 5);
    assert BigEndian(n / 256, 7)[..6] == BigEndian(n / 256 / 256, 6);
    assert BigEndian(n, 8)[..7] == BigEndian(n / 256, 7);
    assert U64Bytes(n)[..5] == s + [n / 0x100_0000 % 256];
    assert U64Bytes(n)[..4] == U64Bytes(n)[..5][..4];
  }

  /** The first byte of a 32-bit word. */
  lemma U32Top(n: U32)
    ensures |U32Bytes(n)| == 4 && U32Bytes(n)[0] == n / 0x100_0000
  {
    assert n / 256 / 256 / 256 == n / 0x100_0000;
    assert BigEndian(n / 256 / 256 / 256, 1) == [n / 0x100_0000];
    assert BigEndian(n / 256 / 256, 2)[0] == n / 0x100_0000;
    assert BigEndian(n / 256, 3)[0] == n / 0x100_0000;
  }

  // ----- Strings

  /** A length that sshbuf_put_string accepts. */
  predicate StringFits(s: Bytes) { |s| <= 0xFFFF_FFFF - 4 }

  function StringBytes(s: Bytes): (r: Bytes)
    requires StringFits(s)
  {
    U32Bytes(|s|) + s
  }

  function GetString(b: Bytes): (r: Result<Read<Bytes>>)
    ensures r.Ok? ==> |r.value.rest| + |r.value.value| < |b|
  {
    var len :- GetU32(b);
    if |len.rest| < len.value then Err(MessageIncomplete)
    else Ok(Read(len.rest[..len.value], len.rest[len.value..]))
  }

  /** sshbuf_put_string and sshbuf_put_cstring. */
  function PutString(buf: Bytes, s: Bytes): Result<Bytes>
  {
    if StringFits(s) then Put(buf, StringBytes(s)) else Err(NoBufferSpace)
  }

  /** sshbuf_get_cstring: a NUL may only be the last byte, and cuts the C string there. */
  function GetCString(b: Bytes): (r: Result<Read<Bytes>>)
    ensures r.Ok? ==> |r.value.rest| < |b|
  {
    var s :- GetString(b);
    if exists i | 0 <= i < |s.value| - 1 :: s.value[i] == 0 then Err(InvalidFormat)
    else if s.value != [] && s.value[|s.value| - 1] == 0 then
      Ok(Read(s.value[..|s.value| - 1], s.rest))
    else Ok(s)
  }

  /** The bytes of a C string. */
  ghost predicate IsCString(s: Bytes) { forall i | 0 <= i < |s| :: s[i] != 0 }

  lemma StringRoundTrip(s: Bytes, rest: Bytes)
    requires StringFits(s)
    ensures GetString(StringBytes(s) + rest) == Ok(Read(s, rest))
  {
    assert StringBytes(s) + rest == U32Bytes(|s|) + (s + rest);
    U32RoundTrip(|s|, s + rest);
    assert (s + rest)[..|s|] == s && (s + rest)[|s|..] == rest;
  }

  lemma CStringRoundTrip(s: Bytes, rest: Bytes)
    requires StringFits(s) && IsCString(s)
    ensures GetCString(StringBytes(s) + rest) == Ok(Read(s, rest))
  {
    StringRoundTrip(s, rest);
  }

  // ----- Multi-precision integers (OpenSSL BIGNUM as a natural number)

  predicate IsBitSet(v: nat, i: nat)
  {
    if i == 0 then v % 2 == 1 else IsBitSet(v / 2, i - 1)
  }

  function SetBit(v: nat, i: nat): nat
  {
    if i == 0 then v / 2 * 2 + 1 else 2 * SetBit(v / 2, i - 1) + v % 2
  }

  function NumBits(v: nat): nat
  {
    if v == 0 then 0 else 1 + NumBits(v / 2)
  }

  function NumBytes(v: nat): nat { (NumBits(v) + 7) / 8 }

  lemma {:induction false} SetBitSets(v: nat, i: nat, j: nat)
    ensures IsBitSet(SetBit(v, i), j) <==> j == i || IsBitSet(v, j)
  {
    if i > 0 && j > 0 {
      SetBitSets(v / 2, i - 1, j - 1);
      assert SetBit(v, i) / 2 == SetBit(v / 2, i - 1);
    } else if i == 0 && j > 0 {
      assert SetBit(v, i) / 2 == v / 2;
    }
  }

  lemma {:induction false} SetBitNumBits(v: nat, i: nat)
    ensures NumBits(SetBit(v, i)) == if NumBits(v) <= i then i + 1 else NumBits(v)
  {
    if i > 0 {
      SetBitNumBits(v / 2, i - 1);
      assert SetBit(v, i) / 2 == SetBit(v / 2, i - 1);
      SetBitPositive(v / 2, i - 1);
    } else {
      assert SetBit(v, 0) / 2 == v / 2;
    }
  }

  lemma {:induction false} SetBitPositive(v: nat, i: nat)
    ensures SetBit(v, i) > 0
  {
    if i > 0 { SetBitPositive(v / 2, i - 1); }
  }

  lemma {:induction false} BitBelowNumBits(v: nat, i: nat)
    ensures IsBitSet(v, i) ==> i < NumBits(v)
  {
    if i > 0 { BitBelowNumBits(v / 2, i - 1); }
  }

  lemma {:induction false} NumBitsDiv256(v: nat)
    ensures NumBits(v / 256) == if NumBits(v) <= 8 then 0 else NumBits(v) - 8
  {
    var v4 := v / 2 / 2 / 2 / 2;
    assert v / 256 == v4 / 2 / 2 / 2 / 2;
    NumBitsDiv16(v);
    NumBitsDiv16(v4);
  }

  lemma {:induction false} NumBitsDiv16(v: nat)
    ensures NumBits(v / 2 / 2 / 2 / 2) == if NumBits(v) <= 4 then 0 else NumBits(v) - 4
  {
    NumBitsHalf(v);
    NumBitsHalf(v / 2);
    NumBitsHalf(v / 2 / 2);
    NumBitsHalf(v / 2 / 2 / 2);
  }

  lemma {:induction false} NumBitsHalf(v: nat)
    ensures NumBits(v / 2) == if NumBits(v) == 0 then 0 else NumBits(v) - 1
  {
  }

  lemma {:induction false} NumBitsFits(v: nat, len: nat)
    requires NumBits(v) <= 8 * len
    ensures Fits(v, len)
  {
    if len > 0 {
      NumBitsDiv256(v);
      NumBitsFits(v / 256, len - 1);
    }
  }

  /** The top bit of the first byte is set exactly when the number fills all its bytes. */
  lemma {:induction false} TopBit(v: nat, len: nat)
    requires len > 0 && NumBits(v) <= 8 * len
    ensures BigEndian(v, len)[0] >= 128 <==> NumBits(v) == 8 * len
  {
    NumBitsDiv256(v);
    if len == 1 {
      assert v < 256 by { NumBitsFits(v, 1); assert Fits(v / 256, 0); }
      assert BigEndian(v / 256, 0) == [];
      NumBitsDiv128(v);
    } else {
      TopBit(v / 256, len - 1);
    }
  }

  lemma {:induction false} NumBitsDiv128(v: nat)
    ensures v / 128 > 0 <==> NumBits(v) >= 8
  {
    var v4 := v / 2 / 2 / 2 / 2;
    assert v / 128 == v4 / 2 / 2 / 2;
    NumBitsDiv16(v);
    NumBitsHalf(v4);
    NumBitsHalf(v4 / 2);
    NumBitsHalf(v4 / 2 / 2);
  }

  /** sshbuf_put_bignum2: the bytes of the string it appends, with a zero byte in front of
      a number whose top bit would make it look negative. */
  function BignumBody(v: nat): (s: Bytes)
  {
    var d := BigEndian(v, NumBytes(v));
    if d != [] && d[0] >= 128 then [0] + d else d
  }

  predicate CanPutBignum(v: nat) { NumBytes(v) <= SSHBUF_MAX_BIGNUM }

  /** Numbers that can be read back: all that can be written but those of exactly 8192 bits. */
  predicate Transmissible(v: nat) { CanPutBignum(v) && NumBits(v) != 8 * SSHBUF_MAX_BIGNUM }

  lemma {:induction false} BignumBodyLength(v: nat)
    ensures |BignumBody(v)| == NumBytes(v) + if v > 0 && NumBits(v) % 8 == 0 then 1 else 0
  {
    var n, len := NumBits(v), NumBytes(v);
    assert n == 8 * len <==> n % 8 == 0;
    if len > 0 { TopBit(v, len); }
  }

  function BignumBytes(v: nat): (s: Bytes)
    requires CanPutBignum(v)
  {
    BignumBodyLength(v); StringBytes(BignumBody(v))
  }

  function GetBignum(b: Bytes): (r: Result<Read<nat>>)
    ensures r.Ok? ==> |r.value.rest| < |b|
  {
    var s :- GetString(b);
    if s.value != [] && s.value[0] >= 128 then Err(BignumIsNegative)
    else if |s.value| > SSHBUF_MAX_BIGNUM then Err(BignumTooLarge)
    else Ok(Read(FromBigEndian(s.value), s.rest))
  }

  lemma {:induction false} LeadingZero(d: Bytes)
    ensures FromBigEndian([0] + d) == FromBigEndian(d)
  {
    if d == [] {
      assert [0] + d == [0];
    } else {
      LeadingZero(d[..|d| - 1]);
      assert ([0] + d)[..|d|] == [0] + d[..|d| - 1];
    }
  }

  /** What is written is read back, except for a number of exactly 8192 bits: the writer
      accepts its 1024 bytes, then prefixes a zero byte that the reader counts too. */
  lemma {:induction false} BignumRoundTrip(v: nat, rest: Bytes)
    requires CanPutBignum(v)
    ensures GetBignum(BignumBytes(v) + rest)
            == if NumBits(v) == 8 * SSHBUF_MAX_BIGNUM then Err(BignumTooLarge) else Ok(Read(v, rest))
  {
    var len := NumBytes(v);
    var d := BigEndian(v, len);
    BignumBodyLength(v);
    StringRoundTrip(BignumBody(v), rest);
    NumBitsFits(v, len);
    BigEndianRoundTrip(v, len);
    LeadingZero(d);
    if len > 0 { TopBit(v, len); }
  }
}
