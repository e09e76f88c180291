/** Little-endian primitives, the encoder's growing buffer and the decoder's cursor
    (`panda-abi/src/encoding.rs`). */
module Encoding {
  import opened Common

  type Bytes = seq<Byte>

  datatype DecodeError = Truncated | UnknownType | InvalidValue | InvalidUtf8

  datatype Result<T> = Ok(value: T) | Err(error: DecodeError)

  /** Outcome of reading a value off the front of some bytes. */
  datatype Parsed<T> = Done(value: T, rest: Bytes) | Fail(error: DecodeError)

  /** What is left is the end of what there was. */
  ghost predicate Suffix(rest: Bytes, bs: Bytes) {
    |rest| <= |bs| && bs[|bs| - |rest|..] == rest
  }

  lemma SuffixTrans(c: Bytes, b: Bytes, a: Bytes)
    requires Suffix(c, b) && Suffix(b, a)
    ensures Suffix(c, a)
  {
  }

  // ---------------------------------------------------------------------------
  // Numbers
  // ---------------------------------------------------------------------------

  /** Largest value of `k` bytes, plus one. */
  function Limit(k: nat): (r: nat)
    ensures r > 0
  {
    if k == 0 then 1 else 256 * Limit(k - 1)
  }

  /** The low `k` bytes of a number, least significant first. */
  function LittleEndian(n: nat, k: nat): (bs: Bytes)
    ensures |bs| == k
  {
    if k == 0 then [] else [n % 256] + LittleEndian(n / 256, k - 1)
  }

  function FromLittleEndian(bs: Bytes): (n: nat)
    ensures n < Limit(|bs|)
  {
    if bs == [] then 0 else bs[0] + 256 * FromLittleEndian(bs[1..])
  }

  /** Byte `i` holds the digit of weight 256 to the power `i`. */
  lemma {:induction false} LittleEndianByte(n: nat, k: nat, i: nat)
    requires i < k
    ensures LittleEndian(n, k)[i] == n / Limit(i) % 256
  {
    if i > 0 {
      LittleEndianByte(n / 256, k - 1, i - 1);
      assert LittleEndian(n, k)[i] == LittleEndian(n / 256, k - 1)[i - 1];
      ModSplit(n, Limit(i - 1));
    }
  }

  /** The first four bytes by their weights. */
  lemma FourBytes(bs: Bytes)
    requires |bs| >= 4
    ensures FromLittleEndian(bs) ==
            bs[0] + 0x100 * bs[1] + 0x1_0000 * bs[2] + 0x100_0000 * bs[3] + 0x1_0000_0000 * FromLittleEndian(bs[4..])
  {
    assert bs[1..][1..] == bs[2..] && bs[2..][1..] == bs[3..] && bs[3..][1..] == bs[4..];
    assert FromLittleEndian(bs) == bs[0] + 256 * FromLittleEndian(bs[1..]);
    assert FromLittleEndian(bs[1..]) == bs[1] + 256 * FromLittleEndian(bs[2..]);
    assert FromLittleEndian(bs[2..]) == bs[2] + 256 * FromLittleEndian(bs[3..]);
    assert FromLittleEndian(bs[3..]) == bs[3] + 256 * FromLittleEndian(bs[4..]);
  }

  /** Writing `k` bytes keeps a number modulo their limit. */
  lemma {:induction false} LittleEndianTruncates(n: nat, k: nat)
    ensures FromLittleEndian(LittleEndian(n, k)) == n % Limit(k)
  {
    if k > 0 {
      LittleEndianTruncates(n / 256, k - 1);
      assert LittleEndian(n, k)[1..] == LittleEndian(n / 256, k - 1);
      ModSplit(n, Limit(k - 1));
    }
  }

  lemma ModSplit(n: nat, m: nat)
    requires m > 0
    ensures n % 256 + 256 * (n / 256 % m) == n % (256 * m)
    ensures n / 256 / m == n / (256 * m)
  {
    var q, r := n / 256 / m, n / 256 % m;
    assert n / 256 == m * q + r;
    assert n == (256 * m) * q + (256 * r + n % 256);
    assert 256 * r + n % 256 < 256 * m;
    DivUnique(n, 256 * m, q, 256 * r + n % 256);
  }

  lemma MulAtLeast(d: nat, k: nat)
    requires k >= 1
    ensures d * k >= d
  {
  }

  lemma DivUnique(n: nat, d: nat, q: nat, r: nat)
    requires d > 0 && n == d * q + r && r < d
    ensures n % d == r && n / d == q
  {
    var p := n / d;
    QuotientUnique(d, q, r, p, n % d);
  }

  lemma QuotientUnique(d: nat, q: nat, r: nat, p: nat, t: nat)
    requires d * q + r == d * p + t && r < d && t < d
    ensures q == p && r == t
  {
    if q > p {
      MulAtLeast(d, q - p);
    } else if p > q {
      MulAtLeast(d, p - q);
    }
  }

  function ParseNumber(bs: Bytes, k: nat): (r: Parsed<nat>)
    ensures r.Done? ==> r.value < Limit(k) && Suffix(r.rest, bs) && |r.rest| + k == |bs|
  {
    if |bs| < k then Fail(Truncated) else Done(FromLittleEndian(bs[..k]), bs[k..])
  }

  lemma NumberRoundTrip(n: nat, k: nat, rest: Bytes)
    ensures ParseNumber(LittleEndian(n, k) + rest, k) == Done(n % Limit(k), rest)
  {
    LittleEndianTruncates(n, k);
    assert (LittleEndian(n, k) + rest)[..k] == LittleEndian(n, k);
    assert (LittleEndian(n, k) + rest)[k..] == rest;
  }

  /** A number that fits its field comes back as it was. */
  lemma NumberFits(n: nat, k: nat, rest: Bytes)
    requires n < Limit(k)
    ensures ParseNumber(LittleEndian(n, k) + rest, k) == Done(n, rest)
  {
    NumberRoundTrip(n, k, rest);
    DivUnique(n, Limit(k), 0, n);
  }

  /** Two's complement in `k` bytes. */
  function ToUnsigned(i: int, k: nat): nat {
    if 0 <= i then i % Limit(k) else (Limit(k) - (-i) % Limit(k)) % Limit(k)
  }

  function ToSigned(n: nat, k: nat): int {
    if 2 * n < Limit(k) then n else n - Limit(k)
  }

  predicate FitsSigned(i: int, k: nat) {
    -(Limit(k) as int) <= 2 * i < Limit(k)
  }

  lemma SignedRoundTrip(i: int, k: nat)
    requires FitsSigned(i, k) && k > 0
    ensures ToUnsigned(i, k) < Limit(k) && ToSigned(ToUnsigned(i, k), k) == i
  {
    var m := Limit(k);
    if i >= 0 {
      DivUnique(i, m, 0, i);
    } else {
      DivUnique(-i, m, 0, -i);
      DivUnique(m + i, m, 0, m + i);
    }
  }

  /** A negative number is written as what is missing to the limit. */
  lemma TwosComplement(i: int, k: nat)
    requires FitsSigned(i, k) && k > 0
    ensures ToUnsigned(i, k) == if i < 0 then Limit(k) + i else i
  {
    var m := Limit(k);
    if i >= 0 {
      DivUnique(i, m, 0, i);
    } else {
      DivUnique(-i, m, 0, -i);
      DivUnique(m + i, m, 0, m + i);
    }
  }

  // ---------------------------------------------------------------------------
  // Strings: bytes that are valid UTF-8 (section 4 of RFC 3629)
  // ---------------------------------------------------------------------------

  predicate Tail(b: Byte) {
    0x80 <= b <= 0xBF
  }

  /** Length of the character at the front, if it is well formed. */
  function CharLength(bs: Bytes): Option<nat>
    requires bs != []
  {
    var b := bs[0];
    if b <= 0x7F then Some(1)
    else if 0xC2 <= b <= 0xDF && |bs| >= 2 && Tail(bs[1]) then Some(2)
    else if |bs| >= 3 && Tail(bs[2]) &&
            (if b == 0xE0 then 0xA0 <= bs[1] <= 0xBF
             else if b == 0xED then 0x80 <= bs[1] <= 0x9F
             else 0xE1 <= b <= 0xEF && Tail(bs[1])) then Some(3)
    else if |bs| >= 4 && Tail(bs[2]) && Tail(bs[3]) &&
            (if b == 0xF0 then 0x90 <= bs[1] <= 0xBF
             else if b == 0xF4 then 0x80 <= bs[1] <= 0x8F
             else 0xF1 <= b <= 0xF3 && Tail(bs[1])) then Some(4)
    else None
  }

  predicate IsUtf8(bs: Bytes)
    decreases |bs|
  {
    bs == [] ||
    match CharLength(bs)
    case None => false
    case Some(n) => IsUtf8(bs[n..])
  }

  function EncodeString(s: Bytes): Bytes {
    LittleEndian(|s|, 2) + s
  }

  lemma TwoBytes(n: nat)
    requires n < 0x10000
    ensures LittleEndian(n, 2) == [n % 0x100, n / 0x100]
  {
    LittleEndianByte(n, 2, 0);
    LittleEndianByte(n, 2, 1);
  }

  /** Two bytes of length, low byte first, and the string. */
  lemma StringLayout(s: Bytes)
    requires |s| < 0x10000
    ensures var bs := EncodeString(s); bs == [|s| % 0x100, |s| / 0x100] + s
  {
    TwoBytes(|s|);
  }

  function ParseString(bs: Bytes): (r: Parsed<Bytes>)
    ensures r.Done? ==> IsUtf8(r.value) && |r.value| < 0x10000 && Suffix(r.rest, bs) && |r.rest| + 2 + |r.value| == |bs|
  {
    match ParseNumber(bs, 2)
    case Fail(e) => Fail(e)
    case Done(n, tail) =>
      assert Limit(2) == 0x10000;
      if |tail| < n then Fail(Truncated)
      else if !IsUtf8(tail[..n]) then Fail(InvalidUtf8)
      else Done(tail[..n], tail[n..])
  }

  lemma StringFits(s: Bytes, rest: Bytes)
    requires IsUtf8(s) && |s| < 0x10000
    ensures ParseString(EncodeString(s) + rest) == Done(s, rest)
  {
    hide IsUtf8, LittleEndian, FromLittleEndian;
    assert EncodeString(s) + rest == LittleEndian(|s|, 2) + (s + rest);
    assert Limit(2) == 0x10000;
    NumberFits(|s|, 2, s + rest);
    assert (s + rest)[..|s|] == s && (s + rest)[|s|..] == rest;
  }

  /** A string comes back exactly when its length fits the two-byte prefix. */
  lemma StringRoundTrip(s: Bytes, rest: Bytes)
    requires IsUtf8(s)
    ensures ParseString(EncodeString(s) + rest) == Done(s, rest) <==> |s| < 0x10000
  {
    hide IsUtf8, ParseString, EncodeString;
    if |s| < 0x10000 { StringFits(s, rest); }
  }

  function EncodeByteArray(b: Bytes): Bytes {
    LittleEndian(|b|, 4) + b
  }

  /** Four bytes of length, low byte first, and the bytes. */
  lemma ByteArrayLayout(b: Bytes)
    requires |b| < 0x1_0000_0000
    ensures EncodeByteArray(b) == [|b| % 0x100, |b| / 0x100 % 0x100, |b| / 0x1_0000 % 0x100, |b| / 0x100_0000] + b
  {
    assert Limit(2) == 0x1_0000 && Limit(3) == 0x100_0000;
    LittleEndianByte(|b|, 4, 0);
    LittleEndianByte(|b|, 4, 1);
    LittleEndianByte(|b|, 4, 2);
    LittleEndianByte(|b|, 4, 3);
    assert LittleEndian(|b|, 4) == [|b| % 0x100, |b| / 0x100 % 0x100, |b| / 0x1_0000 % 0x100, |b| / 0x100_0000];
  }

  function ParseByteArray(bs: Bytes): (r: Parsed<Bytes>)
    ensures r.Done? ==> Suffix(r.rest, bs) && |r.rest| + 4 + |r.value| == |bs|
  {
    match ParseNumber(bs, 4)
    case Fail(e) => Fail(e)
    case Done(n, tail) => if |tail| < n then Fail(Truncated) else Done(tail[..n], tail[n..])
  }

  lemma ByteArrayRoundTrip(b: Bytes, rest: Bytes)
    requires |b| < 0x1_0000_0000
    ensures ParseByteArray(EncodeByteArray(b) + rest) == Done(b, rest)
  {
    assert EncodeByteArray(b) + rest == LittleEndian(|b|, 4) + (b + rest);
    assert Limit(4) == 0x1_0000_0000 by { assert Limit(2) == 0x10000; }
    NumberFits(|b|, 4, b + rest);
    assert (b + rest)[..|b|] == b && (b + rest)[|b|..] == rest;
  }

  // ---------------------------------------------------------------------------
  // The encoder
  // ---------------------------------------------------------------------------

  class Encoder {
    var buf: Bytes

    constructor ()
      ensures buf == []
    {
      buf := [];
    }

    method WriteByte(b: Byte)
      modifies this
      ensures buf == old(buf) + [b]
    {
      buf := buf + [b];
    }

    /** `to_le_bytes` of an integer of `k` bytes. */
    method WriteNumber(n: nat, k: nat)
      modifies this
      ensures buf == old(buf) + LittleEndian(n, k)
    {
      var i, m := 0, n;
      while i < k
        invariant 0 <= i <= k && buf + LittleEndian(m, k - i) == old(buf) + LittleEndian(n, k)
      {
        assert buf + LittleEndian(m, k - i) == (buf + [m % 256]) + LittleEndian(m / 256, k - i - 1);
        buf := buf + [m % 256];
        m := m / 256;
        i := i + 1;
      }
    }

    method WriteBytes(bs: Bytes)
      modifies this
      ensures buf == old(buf) + bs
    {
      buf := buf + bs;
    }

    method WriteString(s: Bytes)
      modifies this
      ensures buf == old(buf) + EncodeString(s)
    {
      WriteNumber(|s|, 2);
      WriteBytes(s);
    }

    method WriteByteArray(b: Bytes)
      modifies this
      ensures buf == old(buf) + EncodeByteArray(b)
    {
      WriteNumber(|b|, 4);
      WriteBytes(b);
    }

    /** `write_tlv_header`: type and a length to be patched later. */
    method WriteHeader(kind: nat, length: nat) returns (at: nat)
      modifies this
      ensures buf == old(buf) + LittleEndian(kind, 2) + LittleEndian(length, 4) && at == |old(buf)| + 2
    {
      WriteNumber(kind, 2);
      at := |buf|;
      WriteNumber(length, 4);
    }

    /** `update_length`. */
    method UpdateLength(at: nat, length: nat)
      requires at + 4 <= |buf|
      modifies this
      ensures buf == old(buf)[..at] + LittleEndian(length, 4) + old(buf)[at + 4..]
    {
      buf := buf[..at] + LittleEndian(length, 4) + buf[at + 4..];
    }
  }

  // ---------------------------------------------------------------------------
  // The decoder
  // ---------------------------------------------------------------------------

  /** A decoder method did what the parse of the remaining bytes says: the same value
      with the cursor just past it, or the same error. */
  ghost predicate Agrees<T>(r: Result<T>, left: Bytes, parsed: Parsed<T>) {
    match parsed
    case Done(v, rest) => r == Ok(v) && left == rest
    case Fail(e) => r == Err(e)
  }

  class Decoder {
    const buf: Bytes
    var pos: nat

    /** The cursor never passes the end. */
    ghost predicate Valid()
      reads this
    {
      pos <= |buf|
    }

    ghost function Left(): Bytes
      requires Valid()
      reads this
    {
      buf[pos..]
    }

    constructor (bs: Bytes)
      ensures Valid() && buf == bs && Left() == bs
    {
      buf, pos := bs, 0;
    }

    method ReadNumber(k: nat) returns (r: Result<nat>)
      requires Valid()
      modifies this
      ensures Valid() && Agrees(r, Left(), ParseNumber(old(Left()), k))
    {
      if |buf| - pos < k {
        return Err(Truncated);
      }
      var n := FromLittleEndian(buf[pos..pos + k]);
      assert buf[pos..][..k] == buf[pos..pos + k];
      pos := pos + k;
      return Ok(n);
    }

    method ReadString() returns (r: Result<Bytes>)
      requires Valid()
      modifies this
      ensures Valid() && Agrees(r, Left(), ParseString(old(Left())))
    {
      hide IsUtf8, FromLittleEndian;
      var len := ReadNumber(2);
      if len.Err? {
        return Err(len.error);
      }
      var n := len.value;
      if |buf| - pos < n {
        return Err(Truncated);
      }
      var s := buf[pos..pos + n];
      assert buf[pos..][..n] == s;
      if !IsUtf8(s) {
        return Err(InvalidUtf8);
      }
      pos := pos + n;
      return Ok(s);
    }

    method ReadByteArray() returns (r: Result<Bytes>)
      requires Valid()
      modifies this
      ensures Valid() && Agrees(r, Left(), ParseByteArray(old(Left())))
    {
      hide FromLittleEndian;
      var len := ReadNumber(4);
      if len.Err? {
        return Err(len.error);
      }
      var n := len.value;
      if |buf| - pos < n {
        return Err(Truncated);
      }
      var b := buf[pos..pos + n];
      assert buf[pos..][..n] == b;
      pos := pos + n;
      return Ok(b);
    }
  }
}
