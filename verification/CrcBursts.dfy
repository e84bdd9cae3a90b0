/**
 Bursts: the checksum fed bit by bit, lowest bit of a byte first, and damage
 confined to sixteen consecutive bits, which always changes it.
 */
module CrcBursts {
  import opened Bytes
  import opened Crc

  // ---------- the register fed with single bits ----------

  /** The lowest `n` bits, lowest first, each as a register that is 0 or 1. */
  function LowBits<T>(low: T -> T, half: T -> T, r: T, n: nat): (bits: seq<T>)
    ensures |bits| == n
    decreases n
  {
    if n == 0 then [] else [low(r)] + LowBits(low, half, half(r), n - 1)
  }

  lemma {:induction false} LowBitsAt<T>(low: T -> T, half: T -> T, r: T, n: nat, i: nat)
    requires i < n
    ensures LowBits(low, half, r, n)[i] == low(Repeat(half, r, i))
    decreases n
  {
    if i > 0 {
      LowBitsAt(low, half, half(r), n - 1, i - 1);
    }
  }

  /** Mixing a word in and shifting is mixing its lowest bit in, shifting, and keeping the rest. */
  ghost predicate FeedsBits<T(!new)>(xor: (T, T) -> T, shift: T -> T, low: T -> T, half: T -> T) {
    forall c, x {:trigger shift(xor(c, x))} :: shift(xor(c, x)) == xor(shift(xor(c, low(x))), half(x))
  }

  /** So feeding the bits one by one is mixing the word in and shifting that often. */
  lemma {:induction false} BitByBit<T(!new)>(
    xor: (T, T) -> T, shift: T -> T, low: T -> T, half: T -> T, zero: T, c: T, x: T, n: nat)
    requires FeedsBits(xor, shift, low, half)
    requires forall a {:trigger xor(a, zero)} :: xor(a, zero) == a
    requires Repeat(half, x, n) == zero
    ensures Run(xor, shift, c, LowBits(low, half, x, n)) == Repeat(shift, xor(c, x), n)
    decreases n
  {
    if n > 0 {
      var bits := LowBits(low, half, x, n);
      assert bits[0] == low(x) && bits[1..] == LowBits(low, half, half(x), n - 1);
      BitByBit(xor, shift, low, half, zero, shift(xor(c, low(x))), half(x), n - 1);
    }
  }

  function Low(r: bv16): bv16 {
    r & 1
  }

  function High(r: bv16): bv16 {
    r & 0xfffe
  }

  lemma SplitLow(c: bv16, x: bv16)
    ensures Xor(c, x) == Xor(Xor(c, Low(x)), High(x))
  {
  }

  lemma ShiftHigh(x: bv16)
    ensures Shift(High(x)) == Halve(x)
  {
    assert (x & 0xfffe) & 1 == 0 && (x & 0xfffe) >> 1 == x >> 1;
  }

  lemma FeedBit(c: bv16, x: bv16)
    ensures Shift(Xor(c, x)) == Xor(Shift(Xor(c, Low(x))), Halve(x))
  {
    hide Xor, Shift, Low, High, Halve;
    SplitLow(c, x);
    ShiftXor(Xor(c, Low(x)), High(x));
    ShiftHigh(x);
  }

  lemma ShiftFeedsBits()
    ensures FeedsBits(Xor, Shift, Low, Halve)
  {
    forall c: bv16, x: bv16 ensures Shift(Xor(c, x)) == Xor(Shift(Xor(c, Low(x))), Halve(x)) { FeedBit(c, x); }
  }

  lemma ByteHalvedAway(r: bv16)
    requires r < 256
    ensures Repeat(Halve, r, 8) == 0
  {
    RepeatTwice(Halve, r, 6);
    RepeatTwice(Halve, r >> 2, 4);
    RepeatTwice(Halve, r >> 4, 2);
    RepeatTwice(Halve, r >> 6, 0);
  }

  function ByteBits(b: byte): (bits: seq<bv16>)
    ensures |bits| == 8
  {
    LowBits(Low, Halve, Register(b), 8)
  }

  /** The bits of the data, in the order in which the checksum takes them. */
  function Bits(data: seq<byte>): (bits: seq<bv16>)
    ensures |bits| == 8 * |data|
  {
    if data == [] then [] else ByteBits(data[0]) + Bits(data[1..])
  }

  lemma {:induction false} BitSerial(data: seq<byte>, r: bv16)
    ensures Run(Xor, Shift, r, Bits(data)) == Run(Xor, ShiftByte, r, Registers(data))
    decreases |data|
  {
    hide Xor, Shift, Low, Halve;
    if data != [] {
      var b, rest := data[0], data[1..];
      assert Registers(data)[0] == Register(b) && Registers(data)[1..] == Registers(rest);
      ByteFed(b, r);
      RunConcat(Xor, Shift, r, ByteBits(b), Bits(rest));
      BitSerial(rest, ShiftByte(Xor(r, Register(b))));
    }
  }

  lemma ByteFed(b: byte, r: bv16)
    ensures Run(Xor, Shift, r, ByteBits(b)) == ShiftByte(Xor(r, Register(b)))
  {
    hide Xor, Low, Halve;
    ShiftFeedsBits();
    forall a: bv16 ensures Xor(a, 0) == a { XorUnit(a); }
    ByteHalvedAway(Register(b));
    BitByBit(Xor, Shift, Low, Halve, 0, r, Register(b), 8);
  }

  // ---------- words from bits ----------

  function Double(r: bv16): bv16 {
    r << 1
  }

  predicate IsBit(r: bv16) {
    r == 0 || r == 1
  }

  /** The word whose lowest bits are these. */
  function FromBits(bits: seq<bv16>): bv16
    decreases |bits|
  {
    if bits == [] then 0 else Xor(bits[0], Double(FromBits(bits[1..])))
  }

  lemma {:induction false} RepeatAdd<T>(f: T -> T, r: T, m: nat, n: nat)
    ensures Repeat(f, r, m + n) == Repeat(f, Repeat(f, r, m), n)
    decreases m
  {
    if m > 0 {
      RepeatAdd(f, f(r), m - 1, n);
    }
  }

  lemma {:induction false} HalvingZero(n: nat)
    ensures Repeat(Halve, 0, n) == 0
  {
    if n > 0 {
      assert Halve(0) == 0;
      HalvingZero(n - 1);
    }
  }

  lemma FifteenHalvings(y: bv16)
    ensures Repeat(Halve, y, 15) == y >> 15
  {
    RepeatTwice(Halve, y, 13);
    RepeatTwice(Halve, y >> 2, 11);
    RepeatTwice(Halve, y >> 4, 9);
    RepeatTwice(Halve, y >> 6, 7);
    RepeatTwice(Halve, y >> 8, 5);
    RepeatTwice(Halve, y >> 10, 3);
    RepeatTwice(Halve, y >> 12, 1);
    assert Repeat(Halve, y >> 14, 1) == Repeat(Halve, Halve(y >> 14), 0);
  }

  lemma PushBit(bit: bv16, y: bv16)
    requires IsBit(bit) && y >> 15 == 0
    ensures Low(Xor(bit, Double(y))) == bit && Halve(Xor(bit, Double(y))) == y
  {
  }

  /** At most sixteen bits are the lowest bits of their word, which has no others. */
  lemma {:induction false} BitsOfWord(bits: seq<bv16>)
    requires |bits| <= 16 && forall i :: 0 <= i < |bits| ==> IsBit(bits[i])
    ensures LowBits(Low, Halve, FromBits(bits), |bits|) == bits
    ensures Repeat(Halve, FromBits(bits), |bits|) == 0
    decreases |bits|
  {
    hide Xor, Low, Halve, Double, IsBit;
    if bits != [] {
      var y, n := FromBits(bits[1..]), |bits| - 1;
      BitsOfWord(bits[1..]);
      RepeatAdd(Halve, y, n, 15 - n);
      HalvingZero(15 - n);
      FifteenHalvings(y);
      PushBit(bits[0], y);
    }
  }

  // ---------- bursts ----------

  lemma ShiftFaithful()
    ensures Faithful(Xor, 0, Shift)
  {
    forall a: bv16 ensures Xor(a, 0) == a { XorUnit(a); }
    forall s: bv16 ensures Shift(s) == 0 <==> s == 0 { ShiftKernel(s); }
  }

  /** Sixteen bits leave a zero register only if all of them are zero. */
  lemma WindowKernel(bits: seq<bv16>)
    requires |bits| == 16 && forall i :: 0 <= i < 16 ==> IsBit(bits[i])
    requires Run(Xor, Shift, 0, bits) == 0
    ensures forall i :: 0 <= i < 16 ==> bits[i] == 0
  {
    hide Xor, Low, Halve, Shift, FromBits, IsBit;
    var w := FromBits(bits);
    BitsOfWord(bits);
    ShiftFeedsBits();
    ShiftFaithful();
    BitByBit(Xor, Shift, Low, Halve, 0, 0, w, 16);
    XorUnit(w);
    RepeatFaithful(Xor, 0, Shift, w, 16);
    forall i | 0 <= i < 16 ensures bits[i] == 0 {
      LowBitsAt(Low, Halve, w, 16, i);
      HalvingZero(i);
      LowOfZero();
    }
  }

  lemma LowOfZero()
    ensures Low(0) == 0
  {
  }

  /** Where words vanish outside a window, the window alone decides whether the register ends in zero. */
  lemma WindowAlone<T(!new)>(xor: (T, T) -> T, zero: T, f: T -> T, d: seq<T>, k: nat, n: nat)
    requires Faithful(xor, zero, f) && k + n <= |d|
    requires forall i :: 0 <= i < |d| && !(k <= i < k + n) ==> d[i] == zero
    ensures Run(xor, f, zero, d) == zero <==> Run(xor, f, zero, d[k..k + n]) == zero
  {
    hide Run, Faithful;
    var before, window, rest := d[..k], d[k..k + n], d[k + n..];
    assert d == before + (window + rest);
    RunConcat(xor, f, zero, before, window + rest);
    RunOverZeros(xor, zero, f, zero, before);
    RunConcat(xor, f, zero, window, rest);
    RunOverZeros(xor, zero, f, Run(xor, f, zero, window), rest);
  }

  /** Bits that vanish outside sixteen consecutive ones and leave a zero register vanish. */
  lemma BurstKernel(d: seq<bv16>, k: nat)
    requires forall i :: 0 <= i < |d| ==> IsBit(d[i])
    requires forall i :: 0 <= i < |d| && !(k <= i < k + 16) ==> d[i] == 0
    requires k <= |d|
    requires Run(Xor, Shift, 0, d) == 0
    ensures forall i :: 0 <= i < |d| ==> d[i] == 0
  {
    hide Xor, Shift, Faithful;
    ShiftFaithful();
    var zeros := seq(16, _ => 0 as bv16);
    var longer := d + zeros;
    RunConcat(Xor, Shift, 0, d, zeros);
    RunOverZeros(Xor, 0, Shift, 0, zeros);
    WindowAlone(Xor, 0, Shift, longer, k, 16);
    var window := longer[k..k + 16];
    ZeroIsBit();
    WindowKernel(window);
    forall i | 0 <= i < |d| ensures d[i] == 0 {
      assert k <= i < k + 16 ==> window[i - k] == d[i];
    }
  }

  lemma ZeroIsBit()
    ensures IsBit(0)
  {
  }

  /** `a` and `b` have one length and differ, but only in the sixteen bits from bit `k` on. */
  ghost predicate DifferWithinBurst(a: seq<byte>, b: seq<byte>, k: nat) {
    && |a| == |b|
    && a != b
    && forall i :: 0 <= i < 8 * |a| && !(k <= i < k + 16) ==> Bits(a)[i] == Bits(b)[i]
  }

  lemma {:induction false} BitsAt(data: seq<byte>, i: nat, n: nat)
    requires i < |data| && n < 8
    ensures Bits(data)[8 * i + n] == ByteBits(data[i])[n]
    decreases |data|
  {
    hide ByteBits;
    if i > 0 {
      BitsAt(data[1..], i - 1, n);
    }
  }

  lemma {:induction false} BitsAreBits(data: seq<byte>, i: nat)
    requires i < 8 * |data|
    ensures IsBit(Bits(data)[i])
  {
    BitsAt(data, i / 8, i % 8);
    LowBitsAt(Low, Halve, Register(data[i / 8]), 8, i % 8);
    LowIsBit(Repeat(Halve, Register(data[i / 8]), i % 8));
  }

  lemma LowIsBit(r: bv16)
    ensures IsBit(Low(r))
  {
  }

  /** Different bytes have different bits. */
  lemma ByteBitsInjective(a: byte, b: byte)
    requires ByteBits(a) == ByteBits(b)
    ensures a == b
  {
    hide Xor, Low, Halve, Shift, ShiftByte;
    ByteFed(a, 0);
    ByteFed(b, 0);
    XorUnit(Register(a));
    XorUnit(Register(b));
    SameShiftByte(Register(a), Register(b));
  }

  lemma SameShiftByte(a: bv16, b: bv16)
    requires ShiftByte(a) == ShiftByte(b)
    ensures a == b
  {
    hide Xor, ShiftByte;
    ShiftByteLinear();
    ShiftByteFaithful();
    XorZero(ShiftByte(a), ShiftByte(b));
    assert ShiftByte(Xor(a, b)) == Xor(ShiftByte(a), ShiftByte(b));
    XorZero(a, b);
  }

  lemma SameBits(a: seq<byte>, b: seq<byte>)
    requires |a| == |b| && Bits(a) == Bits(b)
    ensures a == b
  {
    hide ByteBits, Bits;
    forall i | 0 <= i < |a| ensures a[i] == b[i] {
      forall n | 0 <= n < 8 ensures ByteBits(a[i])[n] == ByteBits(b[i])[n] {
        BitsAt(a, i, n);
        BitsAt(b, i, n);
      }
      ByteBitsInjective(a[i], b[i]);
    }
  }

  lemma BitDifference(x: bv16, y: bv16)
    requires IsBit(x) && IsBit(y)
    ensures IsBit(Xor(x, y)) && (Xor(x, y) == 0 <==> x == y)
  {
  }

  /** Damage confined to sixteen consecutive bits always changes the checksum. */
  lemma BurstDetected(a: seq<byte>, b: seq<byte>, k: nat)
    requires DifferWithinBurst(a, b, k)
    ensures Checksum(a) != Checksum(b)
  {
    hide Xor, Shift, ShiftByte, Bits, IsBit;
    var d := XorWords(Xor, Bits(a), Bits(b));
    forall i | 0 <= i < |d| ensures IsBit(d[i]) && (d[i] == 0 <==> Bits(a)[i] == Bits(b)[i]) {
      BitsAreBits(a, i);
      BitsAreBits(b, i);
      BitDifference(Bits(a)[i], Bits(b)[i]);
    }
    if k > |d| || Checksum(a) == Checksum(b) {
      if k <= |d| {
        EqualChecksums(a, b);
        BurstKernel(d, k);
      }
      assert Bits(a) == Bits(b);
      SameBits(a, b);
      assert false;
    }
  }

  lemma ShiftLinear()
    ensures Linear(Xor, Shift)
  {
    forall x: bv16, y: bv16 ensures Shift(Xor(x, y)) == Xor(Shift(x), Shift(y)) { ShiftXor(x, y); }
  }

  lemma DifferenceRun(v: seq<bv16>, w: seq<bv16>)
    requires |v| == |w|
    ensures Run(Xor, Shift, 0, XorWords(Xor, v, w)) == Xor(Run(Xor, Shift, 0, v), Run(Xor, Shift, 0, w))
  {
    hide Xor, Shift, Linear, Exchange;
    ShiftLinear();
    XorExchange();
    XorUnit(0);
    RunLinear(Xor, Shift, 0, 0, v, w);
  }

  lemma EqualChecksums(a: seq<byte>, b: seq<byte>)
    requires |a| == |b| && Checksum(a) == Checksum(b)
    ensures Run(Xor, Shift, 0, XorWords(Xor, Bits(a), Bits(b))) == 0
  {
    hide Xor, Shift, ShiftByte, Bits;
    NatInjective(CrcRegister(a), CrcRegister(b));
    BitSerial(a, 0);
    BitSerial(b, 0);
    XorZero(CrcRegister(a), CrcRegister(b));
    DifferenceRun(Bits(a), Bits(b));
  }

  /** `a` and `b` have one length and differ, but only inside bytes `i` and `i + 1`. */
  ghost predicate DifferWithinPair(a: seq<byte>, b: seq<byte>, i: nat) {
    && |a| == |b|
    && a != b
    && forall j :: 0 <= j < |a| && j != i && j != i + 1 ==> a[j] == b[j]
  }

  /** Damage within two adjacent bytes is such a burst. */
  lemma PairIsBurst(a: seq<byte>, b: seq<byte>, i: nat)
    requires DifferWithinPair(a, b, i)
    ensures DifferWithinBurst(a, b, 8 * i)
  {
    hide Bits, ByteBits;
    forall n | 0 <= n < 8 * |a| && !(8 * i <= n < 8 * i + 16) ensures Bits(a)[n] == Bits(b)[n] {
      BitsAt(a, n / 8, n % 8);
      BitsAt(b, n / 8, n % 8);
    }
  }
}
