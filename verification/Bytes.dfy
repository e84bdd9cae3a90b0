/**
 Bytes and the big-endian integers that Node's Buffer reads and writes
 (readUInt8/16/32, readBigUInt64, readInt16/32 and their write counterparts).
 */
module Bytes {
  import opened Wrappers

  type byte = x: nat | x < 256

  /** The widths of the integer fields of the protocol, in bytes. */
  type Width = w: nat | w == 1 || w == 2 || w == 4 || w == 8 witness 1

  /** A value handed to one of Node's `write…` calls does not fit the field. */
  datatype RangeError = OutOfRange

  type Encoded = Result<seq<byte>, RangeError>

  function Power256(n: nat): (p: nat)
    ensures p >= 1
  {
    if n == 0 then 1 else 256 * Power256(n - 1)
  }

  /** The last `n` base-256 digits of `value`, most significant first. */
  function BigEndian(n: nat, value: nat): (s: seq<byte>)
    ensures |s| == n
  {
    if n == 0 then [] else BigEndian(n - 1, value / 256) + [value % 256]
  }

  function FromBigEndian(s: seq<byte>): nat {
    if s == [] then 0 else FromBigEndian(s[..|s| - 1]) * 256 + s[|s| - 1]
  }

  /** Reading back what was written gives the value, and writing what was read gives the bytes. */
  lemma {:induction false} ReadWritten(n: nat, value: nat)
    requires value < Power256(n)
    ensures FromBigEndian(BigEndian(n, value)) == value
  {
    if n > 0 {
      var s := BigEndian(n, value);
      assert s[..n - 1] == BigEndian(n - 1, value / 256);
      ReadWritten(n - 1, value / 256);
    }
  }

  lemma {:induction false} WriteRead(s: seq<byte>)
    ensures FromBigEndian(s) < Power256(|s|)
    ensures BigEndian(|s|, FromBigEndian(s)) == s
  {
    if s != [] {
      WriteRead(s[..|s| - 1]);
    }
  }

  /** Two's complement reading of an unsigned field, as `readInt16BE` and `readInt32BE` do. */
  function ToSigned(n: nat, value: nat): int {
    if 2 * value >= Power256(n) then value - Power256(n) else value
  }

  /** `writeUIntBE`: refuses a value outside the field. */
  function WriteUnsigned(n: nat, value: int): Encoded {
    if 0 <= value < Power256(n) then Success(BigEndian(n, value)) else Failure(OutOfRange)
  }

  /** `writeIntBE`: two's complement, refusing a value outside the signed range. */
  function WriteSigned(n: nat, value: int): Encoded {
    if 0 <= 2 * value < Power256(n) then Success(BigEndian(n, value))
    else if 0 < -2 * value <= Power256(n) then Success(BigEndian(n, value + Power256(n)))
    else Failure(OutOfRange)
  }

  lemma SignedReadsBack(n: nat, value: int)
    requires WriteSigned(n, value).Success?
    ensures var s := WriteSigned(n, value).value;
            |s| == n && ToSigned(n, FromBigEndian(s)) == value
  {
    ReadWritten(n, if value >= 0 then value else value + Power256(n));
  }

  lemma Powers()
    ensures Power256(1) == 0x100
    ensures Power256(2) == 0x1_0000
    ensures Power256(4) == 0x1_0000_0000
  {
    assert Power256(0) == 1;
    assert Power256(3) == 0x100_0000;
  }

  /** Whether `part` stands in `buf` at `offset`. */
  ghost predicate At(buf: seq<byte>, offset: nat, part: seq<byte>) {
    offset + |part| <= |buf| && buf[offset..offset + |part|] == part
  }

  lemma AtWhole(buf: seq<byte>)
    ensures At(buf, 0, buf)
  {
  }

  lemma AtConcat(buf: seq<byte>, offset: nat, a: seq<byte>, b: seq<byte>)
    ensures At(buf, offset, a + b) <==> At(buf, offset, a) && At(buf, offset + |a|, b)
  {
    if At(buf, offset, a + b) {
      var s := buf[offset..offset + |a + b|];
      assert s[..|a|] == a && s[|a|..] == b;
      assert buf[offset..offset + |a|] == s[..|a|];
      assert buf[offset + |a|..offset + |a| + |b|] == s[|a|..];
    }
    if At(buf, offset, a) && At(buf, offset + |a|, b) {
      assert buf[offset..offset + |a + b|]
          == buf[offset..offset + |a|] + buf[offset + |a|..offset + |a| + |b|];
    }
  }
}
