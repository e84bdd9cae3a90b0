/**
 Bounds-checked sequential reads (packages/teltonika/src/cursor.ts). Reading is
 specified by functions from an offset to a value and the next offset, and the
 class that moves an offset along is proved against them.
 */
module Cursors {
  import opened Wrappers
  import opened Bytes

  /** What a read was for: the `field` argument that names it in an error. */
  datatype Field =
    | Preamble | DataFieldLength | CodecIdByte | RecordCount | TrailingRecordCount
    | RecordTimestamp | RecordPriority
    | GpsLongitude | GpsLatitude | GpsAltitude | GpsAngle | GpsSatellites | GpsSpeed
    | EventIoId | TotalIoCount
    | IoCount(width: Width) | IoId(width: Width) | IoValue
    | VariableIoCount | VariableIoId | VariableIoLength | VariableIoValue

  /** `TeltonikaParseError`; the constructor arguments determine the message text. */
  datatype ParseError =
    | Truncated(field: Field, needed: nat, offset: nat, left: nat)
    | UnsupportedCodec(codec: nat)
    | PreambleNotZero(preamble: nat)
    | DataFieldMissing(dataLength: nat, following: nat)
    | RecordCountMismatch(declared: nat, trailing: nat)

  /** The outcome of reading from an offset: a value and the offset after it, or the error thrown. */
  datatype Parsed<+T> = Got(value: T, next: nat) | Bad(error: ParseError) {
    predicate IsFailure() {
      Bad?
    }

    function PropagateFailure<U>(): Parsed<U>
      requires Bad?
    {
      Bad(error)
    }

    function Extract(): (T, nat)
      requires Got?
    {
      (value, next)
    }
  }

  function ReadBytes(buf: seq<byte>, offset: nat, n: nat, field: Field): (p: Parsed<seq<byte>>)
    requires offset <= |buf|
    ensures p.Got? <==> offset + n <= |buf|
    ensures p.Got? ==> p.next == offset + n && At(buf, offset, p.value) && |p.value| == n
  {
    if offset + n <= |buf| then Got(buf[offset..offset + n], offset + n)
    else Bad(Truncated(field, n, offset, |buf| - offset))
  }

  function ReadUnsigned(buf: seq<byte>, offset: nat, n: nat, field: Field): (p: Parsed<nat>)
    requires offset <= |buf|
    ensures p.Got? <==> offset + n <= |buf|
    ensures p.Got? ==> p.next == offset + n
  {
    var (s, next) :- ReadBytes(buf, offset, n, field);
    Got(FromBigEndian(s), next)
  }

  function ReadSigned(buf: seq<byte>, offset: nat, n: nat, field: Field): (p: Parsed<int>)
    requires offset <= |buf|
    ensures p.Got? <==> offset + n <= |buf|
    ensures p.Got? ==> p.next == offset + n
  {
    var (value, next) :- ReadUnsigned(buf, offset, n, field);
    Got(ToSigned(n, value), next)
  }

  lemma ReadsUnsigned(buf: seq<byte>, offset: nat, n: nat, value: nat, field: Field)
    requires value < Power256(n)
    requires At(buf, offset, BigEndian(n, value))
    ensures ReadUnsigned(buf, offset, n, field) == Got(value, offset + n)
  {
    ReadWritten(n, value);
  }

  lemma ReadsSigned(buf: seq<byte>, offset: nat, n: nat, value: int, field: Field)
    requires WriteSigned(n, value).Success?
    requires At(buf, offset, WriteSigned(n, value).value)
    ensures ReadSigned(buf, offset, n, field) == Got(value, offset + n)
  {
    SignedReadsBack(n, value);
  }

  /** A method that read through a cursor did what the function says. */
  ghost predicate Matches<T(!new)>(r: Result<T, ParseError>, offset: nat, p: Parsed<T>) {
    match p
    case Got(value, next) => r == Success(value) && offset == next
    case Bad(error) => r == Failure(error)
  }

  class Cursor {
    const buf: seq<byte>
    var offset: nat

    ghost predicate Valid()
      reads this
    {
      offset <= |buf|
    }

    constructor (buf: seq<byte>)
      ensures Valid() && this.buf == buf && offset == 0
    {
      this.buf := buf;
      offset := 0;
    }

    function Remaining(): nat
      requires Valid()
      reads this
    {
      |buf| - offset
    }

    /** On success the offset moves by exactly `bytes`; on a shortage nothing moves. */
    method Take(bytes: nat, field: Field) returns (r: Result<nat, ParseError>)
      requires Valid()
      modifies this
      ensures Valid()
      ensures match ReadBytes(buf, old(offset), bytes, field)
              case Got(_, next) => r == Success(old(offset)) && offset == next
              case Bad(error) => r == Failure(error) && offset == old(offset)
      ensures r.Success? <==> old(offset) + bytes <= |buf|
      ensures r.Failure? ==> r.error == Truncated(field, bytes, old(offset), |buf| - old(offset))
    {
      if Remaining() < bytes {
        return Failure(Truncated(field, bytes, offset, Remaining()));
      }
      r := Success(offset);
      offset := offset + bytes;
    }

    method Unsigned(n: nat, field: Field) returns (r: Result<nat, ParseError>)
      requires Valid()
      modifies this
      ensures Valid()
      ensures Matches(r, offset, ReadUnsigned(buf, old(offset), n, field))
    {
      var start :- Take(n, field);
      r := Success(FromBigEndian(buf[start..start + n]));
    }

    method U8(field: Field) returns (r: Result<nat, ParseError>)
      requires Valid()
      modifies this
      ensures Valid()
      ensures Matches(r, offset, ReadUnsigned(buf, old(offset), 1, field))
    {
      r := Unsigned(1, field);
    }

    method U16(field: Field) returns (r: Result<nat, ParseError>)
      requires Valid()
      modifies this
      ensures Valid()
      ensures Matches(r, offset, ReadUnsigned(buf, old(offset), 2, field))
    {
      r := Unsigned(2, field);
    }

    method U32(field: Field) returns (r: Result<nat, ParseError>)
      requires Valid()
      modifies this
      ensures Valid()
      ensures Matches(r, offset, ReadUnsigned(buf, old(offset), 4, field))
    {
      r := Unsigned(4, field);
    }

    method U64(field: Field) returns (r: Result<nat, ParseError>)
      requires Valid()
      modifies this
      ensures Valid()
      ensures Matches(r, offset, ReadUnsigned(buf, old(offset), 8, field))
    {
      r := Unsigned(8, field);
    }

    method I16(field: Field) returns (r: Result<int, ParseError>)
      requires Valid()
      modifies this
      ensures Valid()
      ensures Matches(r, offset, ReadSigned(buf, old(offset), 2, field))
    {
      var value :- Unsigned(2, field);
      r := Success(ToSigned(2, value));
    }

    method I32(field: Field) returns (r: Result<int, ParseError>)
      requires Valid()
      modifies this
      ensures Valid()
      ensures Matches(r, offset, ReadSigned(buf, old(offset), 4, field))
    {
      var value :- Unsigned(4, field);
      r := Success(ToSigned(4, value));
    }

    method ReadValue(length: nat, field: Field) returns (r: Result<seq<byte>, ParseError>)
      requires Valid()
      modifies this
      ensures Valid()
      ensures Matches(r, offset, ReadBytes(buf, old(offset), length, field))
    {
      var start :- Take(length, field);
      r := Success(buf[start..start + length]);
    }
  }
}
