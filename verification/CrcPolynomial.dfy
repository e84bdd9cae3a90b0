/**
 Which checksum it is: the remainder of the data's polynomial, shifted by sixteen,
 modulo x^16 + x^15 + x^2 + 1. A byte's lowest bit is the coefficient of its
 highest power, in the data as in the checksum.
 */
module CrcPolynomial {
  import opened Bytes
  import opened Crc
  import opened CrcBursts

  // ---------- polynomials over the two-element field ----------

  /** The exponents whose coefficient is one. */
  type Polynomial = set<nat>

  const GENERATOR: Polynomial := {16, 15, 2, 0}

  function Plus(a: Polynomial, b: Polynomial): Polynomial {
    (a - b) + (b - a)
  }

  /** The product with x^n. */
  function Raised(p: Polynomial, n: nat): Polynomial {
    set e | e in p :: e + n
  }

  function Digit(one: bool): Polynomial {
    if one then GENERATOR else {}
  }

  /** The product of the generator with the polynomial of these coefficients, the highest power first. */
  function Multiple(quotient: seq<bool>): Polynomial {
    if quotient == [] then {}
    else
      var last := |quotient| - 1;
      Plus(Raised(Multiple(quotient[..last]), 1), Digit(quotient[last]))
  }

  /** Of degree below sixteen, and different from `p` by a multiple of the generator. */
  ghost predicate IsRemainder(p: Polynomial, r: Polynomial) {
    && (forall e :: e in r ==> e < 16)
    && exists quotient :: Plus(Multiple(quotient), r) == p
  }

  // ---------- data and checksum as polynomials ----------

  predicate Bit(n: nat, i: nat)
    decreases i
  {
    if i == 0 then n % 2 == 1 else Bit(n / 2, i - 1)
  }

  function DataPolynomial(data: seq<byte>): Polynomial {
    set i, b | 0 <= i < |data| && 0 <= b < 8 && Bit(data[i], b) :: 8 * (|data| - 1 - i) + 7 - b
  }

  function WordPolynomial(crc: nat): Polynomial {
    set b | 0 <= b < 16 && Bit(crc, b) :: 15 - b
  }

  // ---------- the bits of a register ----------

  function Number(r: bv16): nat {
    r as nat
  }

  lemma SplitAtEight(r: bv16)
    ensures Number(r) == Number(r & 0xff00) + Number(r & 0x00ff)
  {
  }

  lemma SplitAtSeven(r: bv16)
    ensures Number(r) == Number(r & 0xff80) + Number(r & 0x007f)
  {
  }

  lemma HalveHigh(r: bv16)
    requires r & 0x00ff == 0
    ensures Number(r) == 2 * Number(r >> 1)
  {
  }

  lemma HalveLow(r: bv16)
    requires r & 0xff00 == 0
    ensures Number(r) == 2 * Number(r >> 1) + Number(r & 1)
  {
  }

  lemma HalvesSplit(r: bv16)
    ensures (r >> 1) & 0xff80 == (r & 0xff00) >> 1 && (r >> 1) & 0x007f == (r & 0x00ff) >> 1
    ensures (r & 0xff00) & 0x00ff == 0 && (r & 0x00ff) & 0xff00 == 0 && (r & 0x00ff) & 1 == r & 1
  {
  }

  lemma Halved(r: bv16)
    ensures Number(r) == 2 * Number(r >> 1) + Number(r & 1)
  {
    hide Number;
    SplitAtEight(r);
    SplitAtSeven(r >> 1);
    HalvesSplit(r);
    HalveHigh(r & 0xff00);
    HalveLow(r & 0x00ff);
  }

  lemma LowBitNumber(r: bv16)
    ensures Number(r & 1) == if LowBitSet(r) then 1 else 0
  {
    LowBit(r);
  }

  lemma HalveNumber(r: bv16)
    ensures Number(Halve(r)) == Number(r) / 2
    ensures LowBitSet(r) <==> Number(r) % 2 == 1
  {
    hide Number, LowBitSet;
    Halved(r);
    LowBitNumber(r);
    assert Number(r) == 2 * Number(Halve(r)) + if LowBitSet(r) then 1 else 0;
  }

  lemma {:induction false} BitOfRegister(r: bv16, i: nat)
    ensures Bit(Number(r), i) <==> LowBitSet(Repeat(Halve, r, i))
    decreases i
  {
    hide LowBitSet, Halve;
    HalveNumber(r);
    if i > 0 {
      BitOfRegister(Halve(r), i - 1);
    }
  }

  lemma BitOfXor(a: bv16, b: bv16, i: nat)
    ensures Bit(Number(Xor(a, b)), i) <==> Bit(Number(a), i) != Bit(Number(b), i)
  {
    hide Xor, LowBitSet, Halve;
    HalveLinear();
    RepeatLinear(Xor, Halve, a, b, i);
    BitOfRegister(a, i);
    BitOfRegister(b, i);
    BitOfRegister(Xor(a, b), i);
    LowBitXor(Repeat(Halve, a, i), Repeat(Halve, b, i));
  }

  lemma BitOfHalve(r: bv16, i: nat)
    ensures Bit(Number(Halve(r)), i) <==> Bit(Number(r), i + 1)
  {
    HalveNumber(r);
  }

  lemma {:induction false} NoHighBit(n: nat, i: nat)
    requires n < 0x1_0000 && i >= 16
    ensures !Bit(n, i)
  {
    FourDown(n, i);
    FourDown(n / 0x10, i - 4);
    FourDown(n / 0x10 / 0x10, i - 8);
    FourDown(n / 0x10 / 0x10 / 0x10, i - 12);
    NoBit(n / 0x10 / 0x10 / 0x10 / 0x10, i - 16);
  }

  lemma FourDown(n: nat, i: nat)
    requires i >= 4
    ensures Bit(n, i) <==> Bit(n / 0x10, i - 4)
  {
    var a, b, c, d := n / 2, n / 2 / 2, n / 2 / 2 / 2, n / 2 / 2 / 2 / 2;
    assert Bit(n, i) == Bit(a, i - 1);
    assert Bit(a, i - 1) == Bit(b, i - 2);
    assert Bit(b, i - 2) == Bit(c, i - 3);
    assert Bit(c, i - 3) == Bit(d, i - 4);
    assert d == n / 0x10;
  }

  lemma {:induction false} NoBit(n: nat, i: nat)
    requires n == 0
    ensures !Bit(n, i)
    decreases i
  {
    if i > 0 {
      NoBit(n / 2, i - 1);
    }
  }

  /** The taps of the register are the generator, read backwards and without its leading power. */
  lemma TapsAreGenerator(r: bv16, i: nat)
    requires i < 16
    ensures Bit(Number(Taps(r)), i) <==> LowBitSet(r) && 15 - i in GENERATOR
  {
    if LowBitSet(r) {
      PolynomialBits(i);
    } else {
      NoBit(0, i);
    }
  }

  lemma PolynomialBits(i: nat)
    requires i < 16
    ensures Bit(Number(POLYNOMIAL), i) <==> i == 0 || i == 13 || i == 15
  {
    hide Bit;
    assert Number(POLYNOMIAL) == 0xa001;
    ThreeBits(i);
  }

  lemma ThreeBits(i: nat)
    requires i < 16
    ensures Bit(0xa001, i) <==> i == 0 || i == 13 || i == 15
  {
    if i >= 4 {
      FourDown(0xa001, i);
      if i >= 8 {
        FourDown(0xa00, i - 4);
        if i >= 12 {
          FourDown(0xa0, i - 8);
          HexDigit(0xa, i - 12);
        } else {
          HexDigit(0xa0, i - 8);
        }
      } else {
        HexDigit(0xa00, i - 4);
      }
    } else {
      HexDigit(0xa001, i);
    }
  }

  lemma HexDigit(n: nat, i: nat)
    requires i < 4
    ensures Bit(n, i) <==>
              (i == 0 && n % 2 == 1) || (i == 1 && n / 2 % 2 == 1)
              || (i == 2 && n / 2 / 2 % 2 == 1) || (i == 3 && n / 2 / 2 / 2 % 2 == 1)
  {
    if i > 0 {
      assert Bit(n, i) == Bit(n / 2, i - 1);
      if i > 1 {
        assert Bit(n / 2, i - 1) == Bit(n / 2 / 2, i - 2);
      }
    }
  }

  lemma BitOfShift(r: bv16, i: nat)
    requires i < 16
    ensures Bit(Number(Shift(r)), i) <==> Bit(Number(r), i + 1) != (LowBitSet(r) && 15 - i in GENERATOR)
  {
    hide Shift, Xor, Halve, Taps, LowBitSet;
    ShiftIsHalveAndTaps(r);
    BitOfXor(Halve(r), Taps(r), i);
    BitOfHalve(r, i);
    TapsAreGenerator(r, i);
  }

  // ---------- one bit more ----------

  predicate Coefficient(bits: seq<bv16>, e: nat)
    requires e < |bits|
  {
    bits[|bits| - 1 - e] == 1
  }

  /** The polynomial of these coefficients, the highest power first. */
  function BitPolynomial(bits: seq<bv16>): Polynomial {
    set e | 0 <= e < |bits| && Coefficient(bits, e)
  }

  lemma BitPolynomialPushed(bits: seq<bv16>, bit: bv16)
    ensures BitPolynomial(bits + [bit])
         == Plus(Raised(BitPolynomial(bits), 1), if bit == 1 then {0} else {})
  {
    var more, raised := bits + [bit], Raised(BitPolynomial(bits), 1);
    forall e: nat ensures e in BitPolynomial(more) <==> (e == 0 && bit == 1) || e in raised {
      InRaised(BitPolynomial(bits), 1, e);
      if 0 < e < |more| {
        assert Coefficient(more, e) == Coefficient(bits, e - 1);
      }
    }
  }

  lemma InWord(crc: nat, e: nat)
    ensures e in WordPolynomial(crc) <==> e < 16 && Bit(crc, 15 - e)
  {
    if e < 16 && Bit(crc, 15 - e) {
      assert 15 - (15 - e) == e;
    }
  }

  lemma InRaised(p: Polynomial, n: nat, e: nat)
    ensures e in Raised(p, n) <==> e >= n && e - n in p
  {
    if e >= n && e - n in p {
      assert (e - n) + n == e;
    }
  }

  /** The register times x, with the next bit at x^16, differs from the next register by the generator or not at all. */
  lemma StepsByGenerator(r: bv16, bit: bv16)
    requires IsBit(bit)
    ensures Plus(Raised(WordPolynomial(Number(r)), 1), if bit == 1 then {16} else {})
         == Plus(Digit(LowBitSet(Xor(r, bit))), WordPolynomial(Number(Shift(Xor(r, bit)))))
  {
    var before := Plus(Raised(WordPolynomial(Number(r)), 1), if bit == 1 then {16} else {});
    var after :=
      Plus(Digit(LowBitSet(Xor(r, bit))), WordPolynomial(Number(Shift(Xor(r, bit)))));
    forall e: nat ensures e in before <==> e in after {
      ExponentSteps(r, bit, e);
    }
  }

  lemma ExponentSteps(r: bv16, bit: bv16, e: nat)
    requires IsBit(bit)
    ensures e in Plus(Raised(WordPolynomial(Number(r)), 1), if bit == 1 then {16} else {})
       <==> e in Plus(Digit(LowBitSet(Xor(r, bit))), WordPolynomial(Number(Shift(Xor(r, bit)))))
  {
    hide Shift, Xor, LowBitSet, WordPolynomial, Raised, Bit, IsBit;
    var mixed := Xor(r, bit);
    InRaised(WordPolynomial(Number(r)), 1, e);
    InWord(Number(Shift(mixed)), e);
    if e > 0 { InWord(Number(r), e - 1); }
    LowestBit(mixed);
    MixedBits(r, bit, 0);
    if 0 < e <= 16 { MixedBits(r, bit, 16 - e); }
    if e < 16 {
      BitOfShift(mixed, 15 - e);
      if e == 0 {
        NoHighBit(Number(mixed), 16);
      }
    }
  }

  lemma LowestBit(r: bv16)
    ensures LowBitSet(r) <==> Bit(Number(r), 0)
  {
    hide LowBitSet;
    HalveNumber(r);
  }

  lemma MixedBits(r: bv16, bit: bv16, i: nat)
    requires IsBit(bit)
    ensures Bit(Number(Xor(r, bit)), i) <==> Bit(Number(r), i) != (i == 0 && bit == 1)
  {
    hide Xor;
    BitOfXor(r, bit, i);
    if i > 0 {
      assert Number(bit) / 2 == 0;
      NoBit(Number(bit) / 2, i - 1);
    }
  }

  // ---------- the whole checksum ----------

  lemma PlusRegroups(a: Polynomial, b: Polynomial, c: Polynomial)
    ensures Plus(Plus(a, b), c) == Plus(a, Plus(b, c))
    ensures Plus(a, b) == Plus(b, a)
  {
  }

  lemma RaisedPlus(a: Polynomial, b: Polynomial, n: nat)
    ensures Raised(Plus(a, b), n) == Plus(Raised(a, n), Raised(b, n))
  {
    forall e: nat ensures e in Raised(Plus(a, b), n) <==> e in Plus(Raised(a, n), Raised(b, n)) {
      InRaised(Plus(a, b), n, e);
      InRaised(a, n, e);
      InRaised(b, n, e);
    }
  }

  lemma RaisedTwice(p: Polynomial, m: nat, n: nat)
    ensures Raised(Raised(p, m), n) == Raised(p, m + n)
  {
    forall e: nat ensures e in Raised(Raised(p, m), n) <==> e in Raised(p, m + n) {
      InRaised(Raised(p, m), n, e);
      if e >= n { InRaised(p, m, e - n); }
      InRaised(p, m + n, e);
    }
  }

  /** Fed bit by bit, the register is the remainder so far; the quotient grows by one digit with each bit. */
  lemma {:induction false} RegisterIsRemainder(bits: seq<bv16>) returns (quotient: seq<bool>)
    requires forall i :: 0 <= i < |bits| ==> IsBit(bits[i])
    ensures |quotient| == |bits|
    ensures Plus(Multiple(quotient), WordPolynomial(Number(Run(Xor, Shift, 0, bits))))
         == Raised(BitPolynomial(bits), 16)
  {
    hide Xor, Shift, LowBitSet, WordPolynomial, Number, IsBit;
    if bits == [] {
      quotient := [];
      NothingLeft();
    } else {
      var last := |bits| - 1;
      var before := RegisterIsRemainder(bits[..last]);
      var r, bit := Run(Xor, Shift, 0, bits[..last]), bits[last];
      quotient := before + [LowBitSet(Xor(r, bit))];
      OneBitMore(bits[..last], bit, before);
      assert bits[..last] + [bit] == bits;
    }
  }

  lemma OneBitMore(bits: seq<bv16>, bit: bv16, before: seq<bool>)
    requires IsBit(bit)
    requires Plus(Multiple(before), WordPolynomial(Number(Run(Xor, Shift, 0, bits)))) == Raised(BitPolynomial(bits), 16)
    ensures var r := Run(Xor, Shift, 0, bits);
      Plus(Multiple(before + [LowBitSet(Xor(r, bit))]), WordPolynomial(Number(Run(Xor, Shift, 0, bits + [bit]))))
      == Raised(BitPolynomial(bits + [bit]), 16)
  {
    hide Xor, Shift, LowBitSet, WordPolynomial, Number, IsBit, Plus, BitPolynomial, Digit;
    var r := Run(Xor, Shift, 0, bits);
    var next := Shift(Xor(r, bit));
    RunConcat(Xor, Shift, 0, bits, [bit]);
    assert Run(Xor, Shift, r, [bit]) == next;
    BitPolynomialPushed(bits, bit);
    StepsByGenerator(r, bit);
    BitRaised(bit);
    OneDigitMore(Multiple(before), WordPolynomial(Number(r)), BitPolynomial(bits), if bit == 1 then {0} else {},
                 Digit(LowBitSet(Xor(r, bit))), WordPolynomial(Number(next)));
    assert (before + [LowBitSet(Xor(r, bit))])[..|before|] == before;
  }

  lemma BitRaised(bit: bv16)
    ensures Raised(if bit == 1 then {0} else {}, 16) == if bit == 1 then {16} else {}
  {
  }

  lemma NothingLeft()
    ensures WordPolynomial(Number(0)) == {} == Raised(BitPolynomial([]), 16)
  {
    forall e: nat ensures e !in WordPolynomial(0) {
      InWord(0, e);
      if e < 16 { NoBit(0, 15 - e); }
    }
  }

  lemma OneDigitMore(m: Polynomial, w: Polynomial, p: Polynomial, bit: Polynomial, digit: Polynomial,
      next: Polynomial)
    requires Plus(m, w) == Raised(p, 16)
    requires Plus(Raised(w, 1), Raised(bit, 16)) == Plus(digit, next)
    ensures Plus(Plus(Raised(m, 1), digit), next) == Raised(Plus(Raised(p, 1), bit), 16)
  {
    hide Plus, Raised;
    calc {
      Raised(Plus(Raised(p, 1), bit), 16);
      { RaisedPlus(Raised(p, 1), bit, 16); RaisedTwice(p, 1, 16); RaisedTwice(p, 16, 1); }
      Plus(Raised(Raised(p, 16), 1), Raised(bit, 16));
      { RaisedPlus(m, w, 1); }
      Plus(Plus(Raised(m, 1), Raised(w, 1)), Raised(bit, 16));
      { PlusRegroups(Raised(m, 1), Raised(w, 1), Raised(bit, 16)); }
      Plus(Raised(m, 1), Plus(digit, next));
      { PlusRegroups(Raised(m, 1), digit, next); }
      Plus(Plus(Raised(m, 1), digit), next);
    }
  }

  /** The bits in the order in which the register takes them, as a polynomial. */
  lemma DataOfBits(data: seq<byte>)
    ensures DataPolynomial(data) == BitPolynomial(Bits(data))
  {
    hide Bit, Bits, ByteBits;
    var n := 8 * |data|;
    forall e: nat ensures e in DataPolynomial(data) <==> e in BitPolynomial(Bits(data)) {
      if e < n {
        var i, b := (n - 1 - e) / 8, (n - 1 - e) % 8;
        BitOfData(data, i, b);
        assert e == 8 * (|data| - 1 - i) + 7 - b;
        assert Coefficient(Bits(data), e) <==> Bit(data[i], b);
        if e in DataPolynomial(data) {
          var j, c :| 0 <= j < |data| && 0 <= c < 8 && Bit(data[j], c) && e == 8 * (|data| - 1 - j) + 7 - c;
          assert n - 1 - e == 8 * j + c;
          assert j == i && c == b;
        }
      }
    }
  }

  lemma BitOfData(data: seq<byte>, i: nat, b: nat)
    requires i < |data| && b < 8
    ensures Bits(data)[8 * i + b] == 1 <==> Bit(data[i], b)
  {
    hide Low, Halve, LowBitSet;
    BitsAt(data, i, b);
    var r := Register(data[i]);
    LowBitsAt(Low, Halve, r, 8, b);
    LowIsOne(Repeat(Halve, r, b));
    BitOfRegister(r, b);
  }

  lemma LowIsOne(r: bv16)
    ensures Low(r) == 1 <==> LowBitSet(r)
  {
  }

  /** The checksum is the remainder of the data. */
  lemma ChecksumIsRemainder(data: seq<byte>)
    ensures IsRemainder(Raised(DataPolynomial(data), 16), WordPolynomial(Checksum(data)))
  {
    hide Bits, Xor, Shift, ShiftByte, WordPolynomial, IsBit;
    DataOfBits(data);
    forall i | 0 <= i < |Bits(data)| ensures IsBit(Bits(data)[i]) { BitsAreBits(data, i); }
    var quotient := RegisterIsRemainder(Bits(data));
    BitSerial(data, 0);
    assert Number(CrcRegister(data)) == Checksum(data);
    forall e: nat | e in WordPolynomial(Checksum(data)) ensures e < 16 { InWord(Checksum(data), e); }
  }

  // ---------- there is no other remainder ----------

  /** A multiple of the generator has degree sixteen at least, or is zero. */
  lemma {:induction false} MultipleHigh(quotient: seq<bool>)
    ensures Multiple(quotient) == {} || exists e :: e >= 16 && e in Multiple(quotient)
  {
    if quotient != [] {
      var last := |quotient| - 1;
      var before := Multiple(quotient[..last]);
      MultipleHigh(quotient[..last]);
      if before == {} {
        assert Raised(before, 1) == {};
        assert quotient[last] ==> 16 in Multiple(quotient);
      } else {
        var e :| e >= 16 && e in before;
        InRaised(before, 1, e + 1);
        assert e + 1 in Multiple(quotient);
      }
    }
  }

  lemma PlusInterchange(a: Polynomial, b: Polynomial, c: Polynomial, d: Polynomial)
    ensures Plus(Plus(a, b), Plus(c, d)) == Plus(Plus(a, c), Plus(b, d))
  {
  }

  lemma DigitsAdd(x: bool, y: bool)
    ensures Plus(Digit(x), Digit(y)) == Digit(x != y)
  {
  }

  lemma {:induction false} MultiplesAdd(a: seq<bool>, b: seq<bool>) returns (c: seq<bool>)
    ensures Multiple(c) == Plus(Multiple(a), Multiple(b))
  {
    if a == [] || b == [] {
      c := if a == [] then b else a;
    } else {
      var x, y := a[|a| - 1], b[|b| - 1];
      var before := MultiplesAdd(a[..|a| - 1], b[..|b| - 1]);
      c := before + [x != y];
      assert c[..|c| - 1] == before;
      hide Plus, Raised;
      var p, q := Multiple(a[..|a| - 1]), Multiple(b[..|b| - 1]);
      RaisedPlus(p, q, 1);
      PlusInterchange(Raised(p, 1), Raised(q, 1), Digit(x), Digit(y));
      DigitsAdd(x, y);
    }
  }

  lemma RemainderUnique(p: Polynomial, r: Polynomial, s: Polynomial)
    requires IsRemainder(p, r) && IsRemainder(p, s)
    ensures r == s
  {
    var a :| Plus(Multiple(a), r) == p;
    var b :| Plus(Multiple(b), s) == p;
    var c := MultiplesAdd(a, b);
    assert Multiple(c) == Plus(r, s) by {
      assert Plus(Plus(Multiple(a), r), Plus(Multiple(b), s)) == {};
    }
    MultipleHigh(c);
  }

  lemma {:induction false} BitsDetermine(a: nat, b: nat)
    requires forall i: nat {:trigger Bit(a, i)} :: Bit(a, i) <==> Bit(b, i)
    ensures a == b
    decreases a + b
  {
    assert Bit(a, 0) <==> Bit(b, 0);
    if a + b > 0 {
      forall i: nat ensures Bit(a / 2, i) <==> Bit(b / 2, i) {
        assert Bit(a, i + 1) <==> Bit(b, i + 1);
      }
      BitsDetermine(a / 2, b / 2);
    }
  }

  lemma WordDetermined(a: nat, b: nat)
    requires a < 0x1_0000 && b < 0x1_0000 && WordPolynomial(a) == WordPolynomial(b)
    ensures a == b
  {
    hide Bit, WordPolynomial;
    forall i: nat ensures Bit(a, i) <==> Bit(b, i) {
      if i < 16 {
        InWord(a, 15 - i);
        InWord(b, 15 - i);
      } else {
        NoHighBit(a, i);
        NoHighBit(b, i);
      }
    }
    BitsDetermine(a, b);
  }

  /**
   The checksum is the only word of sixteen bits that is the remainder of the data, shifted by
   sixteen, modulo x^16 + x^15 + x^2 + 1.
   */
  lemma ChecksumExactly(data: seq<byte>, crc: nat)
    requires crc < 0x1_0000
    ensures IsRemainder(Raised(DataPolynomial(data), 16), WordPolynomial(crc)) <==> crc == Checksum(data)
  {
    hide IsRemainder, WordPolynomial, DataPolynomial;
    ChecksumIsRemainder(data);
    if IsRemainder(Raised(DataPolynomial(data), 16), WordPolynomial(crc)) {
      RemainderUnique(Raised(DataPolynomial(data), 16), WordPolynomial(crc), WordPolynomial(Checksum(data)));
      WordDetermined(crc, Checksum(data));
    }
  }

  // ---------- the published check value ----------

  lemma EightShifts(r: bv16)
    ensures ShiftByte(r) == Shift(Shift(Shift(Shift(Shift(Shift(Shift(Shift(r))))))))
  {
    RepeatTwice(Shift, r, 6);
    RepeatTwice(Shift, Shift(Shift(r)), 4);
    RepeatTwice(Shift, Shift(Shift(Shift(Shift(r)))), 2);
  }

  /** One byte more: `word` is the byte as the register sees it, `next` the register afterwards. */
  lemma ByteAfter(data: seq<byte>, b: byte, crc: bv16, word: bv16, next: bv16)
    requires CrcRegister(data) == crc && word as nat == b
    requires Shift(Shift(Shift(Shift(Shift(Shift(Shift(Shift(crc ^ word)))))))) == next
    ensures CrcRegister(data + [b]) == next
  {
    hide Shift, ShiftByte;
    NatInjective(Register(b), word);
    EightShifts(crc ^ word);
    assert Registers(data + [b]) == Registers(data) + [word];
    RunConcat(Xor, ShiftByte, 0, Registers(data), [word]);
    assert Run(Xor, ShiftByte, crc, [word]) == ShiftByte(Xor(crc, word));
  }

  lemma FirstFourDigits()
    ensures CrcRegister([0x31, 0x32, 0x33, 0x34]) == 0x14ba
  {
    hide CrcRegister;
    NothingFed();
    ByteAfter([], 0x31, 0, 0x31, 0xd4c1);
    var one := [] + [0x31];
    ByteAfter(one, 0x32, 0xd4c1, 0x32, 0x4594);
    var two := one + [0x32];
    ByteAfter(two, 0x33, 0x4594, 0x33, 0xba04);
    var three := two + [0x33];
    ByteAfter(three, 0x34, 0xba04, 0x34, 0x14ba);
    assert three + [0x34] == [0x31, 0x32, 0x33, 0x34];
  }

  lemma NothingFed()
    ensures CrcRegister([]) == 0
  {
    assert Registers([]) == [];
  }

  /** The check value that the CRC-16/ARC is published with: the checksum of "123456789" in ASCII. */
  lemma CheckValue()
    ensures Checksum([0x31, 0x32, 0x33, 0x34, 0x35, 0x36, 0x37, 0x38, 0x39]) == 0xbb3d
  {
    hide CrcRegister;
    FirstFourDigits();
    var four := [0x31, 0x32, 0x33, 0x34];
    ByteAfter(four, 0x35, 0x14ba, 0x35, 0xa455);
    var five := four + [0x35];
    ByteAfter(five, 0x36, 0xa455, 0x36, 0x29e4);
    var six := five + [0x36];
    ByteAfter(six, 0x37, 0x29e4, 0x37, 0x9d68);
    var seven := six + [0x37];
    ByteAfter(seven, 0x38, 0x9d68, 0x38, 0x3c9d);
    var eight := seven + [0x38];
    ByteAfter(eight, 0x39, 0x3c9d, 0x39, 0xbb3d);
    assert eight + [0x39] == [0x31, 0x32, 0x33, 0x34, 0x35, 0x36, 0x37, 0x38, 0x39];
  }
}
