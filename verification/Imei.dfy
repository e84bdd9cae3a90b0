/** The handshake frame: a two-byte digit count and the IMEI in ASCII (packages/teltonika/src/imei.ts). */
module Imei {
  import opened Wrappers
  import opened Bytes

  const IMEI_DIGITS: nat := 15
  const LENGTH_PREFIX_BYTES: nat := 2

  datatype ImeiProblem = WrongDigitCount(declared: nat) | NotDigits

  datatype ImeiFrameResult =
    | Ok(imei: string, bytesConsumed: nat)
    | NeedMore
    | Invalid(reason: ImeiProblem)

  predicate IsDigit(c: char) {
    '0' <= c <= '9'
  }

  predicate IsValidImei(value: string) {
    |value| == IMEI_DIGITS && forall i :: 0 <= i < |value| ==> IsDigit(value[i])
  }

  /** `toString('ascii')` drops the high bit of every byte. */
  function Ascii(s: seq<byte>): (text: string)
    ensures |text| == |s|
  {
    seq(|s|, i requires 0 <= i < |s| => (s[i] % 128) as char)
  }

  function TryParseImeiFrame(buf: seq<byte>): (r: ImeiFrameResult)
    ensures r.Ok? ==> r.bytesConsumed == LENGTH_PREFIX_BYTES + IMEI_DIGITS <= |buf| && IsValidImei(r.imei)
    ensures r.NeedMore? ==> |buf| < LENGTH_PREFIX_BYTES + IMEI_DIGITS
  {
    if |buf| < LENGTH_PREFIX_BYTES then NeedMore else
      var declaredLength := FromBigEndian(buf[..2]);
      if declaredLength != IMEI_DIGITS then Invalid(WrongDigitCount(declaredLength)) else
        var frameLength := LENGTH_PREFIX_BYTES + declaredLength;
        if |buf| < frameLength then NeedMore else
          var imei := Ascii(buf[LENGTH_PREFIX_BYTES..frameLength]);
          if !IsValidImei(imei) then Invalid(NotDigits) else Ok(imei, frameLength)
  }

  /** `Buffer.from(imei, 'ascii')` keeps the low eight bits of each UTF-16 unit. */
  function EncodeImeiFrame(imei: string): Encoded {
    var length :- WriteUnsigned(2, |imei|);
    Success(length + seq(|imei|, i requires 0 <= i < |imei| => imei[i] as nat % 256))
  }

  /** A decided handshake is unchanged by bytes that arrive after it. */
  lemma HandshakeStable(buf: seq<byte>, more: seq<byte>)
    requires !TryParseImeiFrame(buf).NeedMore?
    ensures TryParseImeiFrame(buf + more) == TryParseImeiFrame(buf)
  {
    assert (buf + more)[..2] == buf[..2];
    if |buf| >= 17 {
      assert (buf + more)[2..17] == buf[2..17];
    }
  }

  /** Every valid IMEI is read back from its frame; only this direction holds, the high bit being ignored. */
  lemma ImeiRoundTrip(imei: string)
    requires IsValidImei(imei)
    ensures EncodeImeiFrame(imei).Success?
    ensures |EncodeImeiFrame(imei).value| == 17
    ensures TryParseImeiFrame(EncodeImeiFrame(imei).value) == Ok(imei, 17)
  {
    Powers();
    var digits := seq(|imei|, i requires 0 <= i < |imei| => imei[i] as nat % 256);
    var frame := EncodeImeiFrame(imei).value;
    ReadWritten(2, 15);
    assert frame[..2] == BigEndian(2, 15);
    assert frame[2..17] == digits;
    forall i | 0 <= i < 15
      ensures Ascii(digits)[i] == imei[i]
    {
      assert IsDigit(imei[i]);
    }
    assert Ascii(digits) == imei;
  }

  /** Two different frames for one IMEI: setting a high bit changes the bytes but not what is read. */
  lemma HighBitIgnored(imei: string, i: nat)
    requires IsValidImei(imei) && i < 15
    ensures EncodeImeiFrame(imei).Success? && |EncodeImeiFrame(imei).value| == 17
    ensures var frame := EncodeImeiFrame(imei).value;
            && frame[2 + i] < 128
            && TryParseImeiFrame(frame[2 + i := frame[2 + i] + 128]) == Ok(imei, 17)
  {
    ImeiRoundTrip(imei);
    var frame := EncodeImeiFrame(imei).value;
    assert IsDigit(imei[i]) && frame[2 + i] == imei[i] as nat % 256;
    var other := frame[2 + i := frame[2 + i] + 128];
    assert other[..2] == frame[..2];
    assert Ascii(other[2..17]) == Ascii(frame[2..17]);
  }

  lemma AsciiOfLow(s: seq<byte>, i: nat)
    requires i < |s|
    ensures Ascii(s)[i] as nat % 256 == s[i] <==> s[i] < 128
  {
  }

  /**
   Which accepted handshakes are the encoding of the IMEI they carry: exactly those in which no
   digit has its high bit set.
   */
  lemma AcceptedIsEncoding(buf: seq<byte>)
    requires TryParseImeiFrame(buf).Ok?
    ensures var imei := TryParseImeiFrame(buf).imei;
            && EncodeImeiFrame(imei).Success?
            && (EncodeImeiFrame(imei).value == buf[..17] <==> forall i :: 2 <= i < 17 ==> buf[i] < 128)
  {
    hide FromBigEndian, BigEndian;
    var digits, imei := buf[2..17], TryParseImeiFrame(buf).imei;
    assert imei == Ascii(digits);
    ImeiRoundTrip(imei);
    WriteRead(buf[..2]);
    var frame := EncodeImeiFrame(imei).value;
    assert frame[..2] == BigEndian(2, 15) == buf[..2];
    forall i | 2 <= i < 17 ensures frame[i] == buf[i] <==> buf[i] < 128 {
      AsciiOfLow(digits, i - 2);
      assert frame[i] == imei[i - 2] as nat % 256 && digits[i - 2] == buf[i];
    }
    assert frame == buf[..17] <==> forall i :: 2 <= i < 17 ==> frame[i] == buf[i] by {
      assert forall i :: 0 <= i < 2 ==> frame[i] == frame[..2][i] && buf[i] == buf[..2][i];
      assert forall i :: 0 <= i < 17 ==> buf[..17][i] == buf[i];
    }
  }
}
