/**
 The checksum CRC-16/ARC (packages/teltonika/src/crc.ts), its register starting
 at zero and written out as it ends. JavaScript keeps the register in a 32-bit
 integer; it never leaves the low 16 bits, so it is a `bv16` here.
 */
module Crc {
  import opened Bytes

  const POLYNOMIAL: bv16 := 0xa001

  // ---------- the register ----------

  /** One turn of the inner loop. */
  function Shift(crc: bv16): bv16 {
    if crc & 1 == 1 then (crc >> 1) ^ POLYNOMIAL else crc >> 1
  }

  function Repeat<T>(step: T -> T, r: T, n: nat): T
    decreases n
  {
    if n == 0 then r else Repeat(step, step(r), n - 1)
  }

  /** The whole inner loop. */
  function ShiftByte(crc: bv16): bv16 {
    Repeat(Shift, crc, 8)
  }

  function Xor(a: bv16, b: bv16): bv16 {
    a ^ b
  }

  /** The outer loop, for any register type: mix a word in, then step. */
  function Run<T>(xor: (T, T) -> T, step: T -> T, r: T, words: seq<T>): T
    decreases |words|
  {
    if words == [] then r else Run(xor, step, step(xor(r, words[0])), words[1..])
  }

  lemma Increment(r: bv16)
    requires r < 255
    ensures (r + 1) as nat == r as nat + 1
  {
  }

  /** A byte as the register sees it. */
  function Register(b: byte): (r: bv16)
    ensures r as nat == b && r < 256
  {
    if b == 0 then 0 else
      var r := Register(b - 1);
      Increment(r);
      r + 1
  }

  function Registers(data: seq<byte>): (words: seq<bv16>)
    ensures |words| == |data|
  {
    seq(|data|, i requires 0 <= i < |data| => Register(data[i]))
  }

  function CrcRegister(data: seq<byte>): bv16 {
    Run(Xor, ShiftByte, 0, Registers(data))
  }

  /** The checksum as the number written on the wire. */
  function Checksum(data: seq<byte>): (crc: nat)
    ensures crc < 0x1_0000
  {
    CrcRegister(data) as nat
  }

  method Crc16Ibm(data: seq<byte>) returns (result: nat)
    ensures result == Checksum(data)
  {
    var crc: bv16 := 0;
    for i := 0 to |data|
      invariant Run(Xor, ShiftByte, crc, Registers(data)[i..]) == CrcRegister(data)
    {
      crc := crc ^ Register(data[i]);
      ghost var shifted := ShiftByte(crc);
      for bit := 0 to 8
        invariant Repeat(Shift, crc, 8 - bit) == shifted
      {
        crc := Shift(crc);
      }
      assert Registers(data)[i..][1..] == Registers(data)[i + 1..];
    }
    assert Registers(data)[|data|..] == [];
    result := crc as nat;
  }

  lemma NatInjective(a: bv16, b: bv16)
    requires a as nat == b as nat
    ensures a == b
  {
    assert (a as nat) as bv16 == a;
    assert (b as nat) as bv16 == b;
  }

  // ---------- registers in general ----------

  ghost predicate Linear<T(!new)>(xor: (T, T) -> T, f: T -> T) {
    forall a, b {:trigger f(xor(a, b))} :: f(xor(a, b)) == xor(f(a), f(b))
  }

  ghost predicate Exchange<T(!new)>(xor: (T, T) -> T) {
    forall a, b, c, d {:trigger xor(xor(a, b), xor(c, d))} ::
      xor(xor(a, b), xor(c, d)) == xor(xor(a, c), xor(b, d))
  }

  /** `xor` is commutative and associative. */
  ghost predicate Regroups<T(!new)>(xor: (T, T) -> T) {
    && (forall a, b {:trigger xor(a, b)} :: xor(a, b) == xor(b, a))
    && (forall a, b, c {:trigger xor(xor(a, b), c)} :: xor(xor(a, b), c) == xor(a, xor(b, c)))
  }

  lemma RegroupsExchange<T(!new)>(xor: (T, T) -> T)
    requires Regroups(xor)
    ensures Exchange(xor)
  {
    forall a, b, c, d ensures xor(xor(a, b), xor(c, d)) == xor(xor(a, c), xor(b, d)) {
      ExchangeMiddle(xor, a, b, c, d);
    }
  }

  lemma ExchangeMiddle<T(!new)>(xor: (T, T) -> T, a: T, b: T, c: T, d: T)
    requires Regroups(xor)
    ensures xor(xor(a, b), xor(c, d)) == xor(xor(a, c), xor(b, d))
  {
    calc {
      xor(xor(a, b), xor(c, d));
      xor(a, xor(b, xor(c, d)));
      xor(a, xor(xor(b, c), d));
      xor(a, xor(xor(c, b), d));
      xor(a, xor(c, xor(b, d)));
      xor(xor(a, c), xor(b, d));
    }
  }

  /** `zero` is the unit of `xor`, and the only register that `f` takes to itself. */
  ghost predicate Faithful<T(!new)>(xor: (T, T) -> T, zero: T, f: T -> T) {
    && (forall a {:trigger xor(a, zero)} :: xor(a, zero) == a)
    && (forall a {:trigger f(a)} :: f(a) == zero <==> a == zero)
  }

  lemma {:induction false} RepeatLinear<T(!new)>(xor: (T, T) -> T, f: T -> T, a: T, b: T, n: nat)
    requires Linear(xor, f)
    ensures Repeat(f, xor(a, b), n) == xor(Repeat(f, a, n), Repeat(f, b, n))
    decreases n
  {
    if n > 0 {
      RepeatLinear(xor, f, f(a), f(b), n - 1);
    }
  }

  lemma {:induction false} RepeatFaithful<T(!new)>(xor: (T, T) -> T, zero: T, f: T -> T, r: T, n: nat)
    requires Faithful(xor, zero, f)
    ensures Repeat(f, r, n) == zero <==> r == zero
    decreases n
  {
    if n > 0 {
      RepeatFaithful(xor, zero, f, f(r), n - 1);
    }
  }

  function XorWords<T>(xor: (T, T) -> T, v: seq<T>, w: seq<T>): (d: seq<T>)
    requires |v| == |w|
    ensures |d| == |v|
  {
    seq(|v|, i requires 0 <= i < |v| => xor(v[i], w[i]))
  }

  lemma {:induction false} RunLinear<T(!new)>(xor: (T, T) -> T, f: T -> T, r: T, s: T, v: seq<T>, w: seq<T>)
    requires Linear(xor, f) && Exchange(xor)
    requires |v| == |w|
    ensures Run(xor, f, xor(r, s), XorWords(xor, v, w)) == xor(Run(xor, f, r, v), Run(xor, f, s, w))
    decreases |v|
  {
    if v != [] {
      assert XorWords(xor, v, w)[1..] == XorWords(xor, v[1..], w[1..]);
      RunLinear(xor, f, f(xor(r, v[0])), f(xor(s, w[0])), v[1..], w[1..]);
    }
  }

  lemma {:induction false} RunOverZeros<T(!new)>(xor: (T, T) -> T, zero: T, f: T -> T, r: T, words: seq<T>)
    requires Faithful(xor, zero, f)
    requires forall i :: 0 <= i < |words| ==> words[i] == zero
    ensures Run(xor, f, r, words) == zero <==> r == zero
    decreases |words|
  {
    if words != [] {
      RunOverZeros(xor, zero, f, f(xor(r, words[0])), words[1..]);
    }
  }

  lemma {:induction false} RunConcat<T>(xor: (T, T) -> T, f: T -> T, r: T, v: seq<T>, w: seq<T>)
    ensures Run(xor, f, r, v + w) == Run(xor, f, Run(xor, f, r, v), w)
    decreases |v|
  {
    if v == [] {
      assert v + w == w;
    } else {
      assert (v + w)[1..] == v[1..] + w;
      RunConcat(xor, f, f(xor(r, v[0])), v[1..], w);
    }
  }

  /** A predicate that behaves under `xor` as the parity of a register's bits does. */
  ghost predicate IsParity<T(!new)>(xor: (T, T) -> T, p: T -> bool) {
    forall a, b {:trigger p(xor(a, b))} :: p(xor(a, b)) <==> p(a) != p(b)
  }

  ghost predicate OddBy<T>(p: T -> bool, words: seq<T>) {
    if words == [] then false else p(words[0]) != OddBy(p, words[1..])
  }

  lemma {:induction false} RepeatKeepsParity<T(!new)>(p: T -> bool, f: T -> T, r: T, n: nat)
    requires forall a :: p(f(a)) <==> p(a)
    ensures p(Repeat(f, r, n)) <==> p(r)
    decreases n
  {
    if n > 0 {
      RepeatKeepsParity(p, f, f(r), n - 1);
    }
  }

  lemma {:induction false} RunCarriesParity<T(!new)>(
    xor: (T, T) -> T, p: T -> bool, f: T -> T, r: T, words: seq<T>)
    requires IsParity(xor, p)
    requires forall a :: p(f(a)) <==> p(a)
    ensures p(Run(xor, f, r, words)) <==> p(r) != OddBy(p, words)
    decreases |words|
  {
    if words != [] {
      RunCarriesParity(xor, p, f, f(xor(r, words[0])), words[1..]);
    }
  }

  // ---------- the step is linear and a bijection ----------

  lemma LowBit(a: bv16)
    ensures a & 1 == 0 || a & 1 == 1
  {
  }

  lemma ShiftOfXor(a: bv16, b: bv16)
    ensures (a ^ b) >> 1 == (a >> 1) ^ (b >> 1)
    ensures (a ^ b) & 1 == (a & 1) ^ (b & 1)
  {
  }

  lemma XorCommutes(a: bv16, b: bv16)
    ensures Xor(a, b) == Xor(b, a)
  {
  }

  lemma XorRegroup(a: bv16, b: bv16, c: bv16)
    ensures Xor(Xor(a, b), c) == Xor(a, Xor(b, c))
  {
  }

  lemma XorZero(a: bv16, b: bv16)
    ensures Xor(a, b) == 0 <==> a == b
  {
  }

  lemma XorUnit(a: bv16)
    ensures Xor(a, 0) == a == Xor(0, a)
  {
  }

  predicate LowBitSet(r: bv16) {
    r & 1 == 1
  }

  function Halve(r: bv16): bv16 {
    r >> 1
  }

  function Taps(r: bv16): bv16 {
    if LowBitSet(r) then POLYNOMIAL else 0
  }

  lemma HalveXor(a: bv16, b: bv16)
    ensures Halve(Xor(a, b)) == Xor(Halve(a), Halve(b))
  {
    ShiftOfXor(a, b);
  }

  lemma LowBitXor(a: bv16, b: bv16)
    ensures LowBitSet(Xor(a, b)) <==> LowBitSet(a) != LowBitSet(b)
  {
  }

  lemma TapsXor(a: bv16, b: bv16)
    ensures Taps(Xor(a, b)) == Xor(Taps(a), Taps(b))
  {
    LowBitXor(a, b);
    assert Xor(POLYNOMIAL, POLYNOMIAL) == 0 && Xor(POLYNOMIAL, 0) == POLYNOMIAL == Xor(0, POLYNOMIAL);
  }

  lemma ShiftIsHalveAndTaps(r: bv16)
    ensures Shift(r) == Xor(Halve(r), Taps(r))
  {
    XorUnit(Halve(r));
  }

  lemma SumOfLinear<T(!new)>(xor: (T, T) -> T, f: T -> T, g: T -> T, h: T -> T, a: T, b: T)
    requires Exchange(xor) && Linear(xor, g) && Linear(xor, h)
    requires forall r :: f(r) == xor(g(r), h(r))
    ensures f(xor(a, b)) == xor(f(a), f(b))
  {
  }

  lemma HalveLinear()
    ensures Linear(Xor, Halve)
  {
    forall a: bv16, b: bv16 ensures Halve(Xor(a, b)) == Xor(Halve(a), Halve(b)) { HalveXor(a, b); }
  }

  lemma TapsLinear()
    ensures Linear(Xor, Taps)
  {
    forall a: bv16, b: bv16 ensures Taps(Xor(a, b)) == Xor(Taps(a), Taps(b)) { TapsXor(a, b); }
  }

  lemma LowBitParity()
    ensures IsParity(Xor, LowBitSet)
  {
    forall a: bv16, b: bv16
      ensures LowBitSet(Xor(a, b)) <==> LowBitSet(a) != LowBitSet(b)
    {
      LowBitXor(a, b);
    }
  }

  lemma ShiftIsSum()
    ensures forall r :: Shift(r) == Xor(Halve(r), Taps(r))
  {
    forall r: bv16 ensures Shift(r) == Xor(Halve(r), Taps(r)) { ShiftIsHalveAndTaps(r); }
  }

  lemma XorRegroups()
    ensures Regroups(Xor)
  {
    hide Xor;
    forall a: bv16, b: bv16 ensures Xor(a, b) == Xor(b, a) { XorCommutes(a, b); }
    forall a: bv16, b: bv16, c: bv16 ensures Xor(Xor(a, b), c) == Xor(a, Xor(b, c)) { XorRegroup(a, b, c); }
  }

  lemma XorExchange()
    ensures Exchange(Xor)
  {
    hide Xor;
    XorRegroups();
    RegroupsExchange(Xor);
  }

  lemma ShiftXor(a: bv16, b: bv16)
    ensures Shift(Xor(a, b)) == Xor(Shift(a), Shift(b))
  {
    XorExchange();
    HalveLinear();
    TapsLinear();
    ShiftIsSum();
    SumOfLinear(Xor, Shift, Halve, Taps, a, b);
  }

  lemma ShiftKernel(r: bv16)
    ensures Shift(r) == 0 <==> r == 0
  {
  }

  lemma ShiftOnto(a: bv16) returns (c: bv16)
    ensures Shift(c) == a
  {
    c := if a & 0x8000 == 0 then a << 1 else ((a ^ POLYNOMIAL) << 1) | 1;
  }

  /** Two registers that agree after a step agreed before it, and every register is reached. */
  lemma ShiftBijective(a: bv16, b: bv16)
    ensures Shift(a) == Shift(b) <==> a == b
    ensures exists c :: Shift(c) == a
  {
    if Shift(a) == Shift(b) {
      ShiftXor(a, b);
      XorZero(Shift(a), Shift(b));
      ShiftKernel(Xor(a, b));
      XorZero(a, b);
    }
    var c := ShiftOnto(a);
  }

  lemma ShiftByteLinear()
    ensures Linear(Xor, ShiftByte)
  {
    forall a: bv16, b: bv16
      ensures ShiftByte(Xor(a, b)) == Xor(ShiftByte(a), ShiftByte(b))
    {
      forall x: bv16, y: bv16 ensures Shift(Xor(x, y)) == Xor(Shift(x), Shift(y)) { ShiftXor(x, y); }
      RepeatLinear(Xor, Shift, a, b, 8);
    }
  }

  lemma ShiftByteFaithful()
    ensures Faithful(Xor, 0, ShiftByte)
  {
    forall a: bv16 ensures Xor(a, 0) == a { XorUnit(a); }
    forall r: bv16
      ensures ShiftByte(r) == 0 <==> r == 0
    {
      forall s: bv16 ensures Shift(s) == 0 <==> s == 0 { ShiftKernel(s); }
      RepeatFaithful(Xor, 0, Shift, r, 8);
    }
  }

  /** The checksum is XOR-linear over data of one length. */
  lemma ChecksumLinear(a: seq<byte>, b: seq<byte>)
    requires |a| == |b|
    ensures Xor(CrcRegister(a), CrcRegister(b))
         == Run(Xor, ShiftByte, 0, XorWords(Xor, Registers(a), Registers(b)))
  {
    ShiftByteLinear();
    XorExchange();
    XorUnit(0);
    RunLinear(Xor, ShiftByte, 0, 0, Registers(a), Registers(b));
  }

  lemma RepeatTwice<T>(f: T -> T, r: T, n: nat)
    ensures Repeat(f, r, n + 2) == Repeat(f, f(f(r)), n)
  {
  }

  // ---------- parity ----------

  /** Whether an odd number of the lowest `n` bits is set. */
  predicate OddBits<T>(low: T -> bool, half: T -> T, r: T, n: nat)
    decreases n
  {
    n > 0 && low(r) != OddBits(low, half, half(r), n - 1)
  }

  predicate Odd(r: bv16) {
    OddBits(LowBitSet, Halve, r, 16)
  }

  lemma {:induction false} OddBitsXor<T(!new)>(xor: (T, T) -> T, low: T -> bool, half: T -> T, a: T, b: T, n: nat)
    requires IsParity(xor, low) && Linear(xor, half)
    ensures OddBits(low, half, xor(a, b), n) <==> OddBits(low, half, a, n) != OddBits(low, half, b, n)
    decreases n
  {
    if n > 0 {
      OddBitsXor(xor, low, half, half(a), half(b), n - 1);
    }
  }

  lemma {:induction false} OddBitsLast<T>(low: T -> bool, half: T -> T, r: T, n: nat)
    ensures OddBits(low, half, r, n + 1) <==> OddBits(low, half, r, n) != low(Repeat(half, r, n))
    decreases n
  {
    if n > 0 {
      OddBitsLast(low, half, half(r), n - 1);
    } else {
      assert !OddBits(low, half, half(r), 0);
    }
  }

  lemma OddXor(a: bv16, b: bv16)
    ensures Odd(Xor(a, b)) <==> Odd(a) != Odd(b)
  {
    hide Xor, LowBitSet, Halve;
    LowBitParity();
    HalveLinear();
    OddBitsXor(Xor, LowBitSet, Halve, a, b, 16);
  }

  /** Sixteen halvings leave nothing. */
  lemma HalvedAway(r: bv16)
    ensures Repeat(Halve, Halve(r), 15) == 0
  {
    RepeatTwice(Halve, Halve(r), 13);
    RepeatTwice(Halve, r >> 3, 11);
    RepeatTwice(Halve, r >> 5, 9);
    RepeatTwice(Halve, r >> 7, 7);
    RepeatTwice(Halve, r >> 9, 5);
    RepeatTwice(Halve, r >> 11, 3);
    RepeatTwice(Halve, r >> 13, 1);
    assert Repeat(Halve, r >> 15, 1) == Repeat(Halve, Halve(r >> 15), 0);
  }

  lemma OddStep(r: bv16)
    ensures Odd(r) <==> LowBitSet(r) != Odd(Halve(r))
  {
    HalvedAway(r);
    OddBitsLast(LowBitSet, Halve, Halve(r), 15);
  }

  lemma {:induction false} OddBitsOfZero(n: nat)
    ensures !OddBits(LowBitSet, Halve, 0, n)
  {
    if n > 0 {
      assert Halve(0) == 0;
      OddBitsOfZero(n - 1);
    }
  }

  lemma PolynomialOdd()
    ensures Odd(POLYNOMIAL) && !Odd(0)
  {
    OddBitsOfZero(16);
    OddStep(0x1);
    OddStep(0x2);
    OddStep(0x5);
    OddStep(0xa);
    OddStep(0x14);
    OddStep(0x28);
    OddStep(0x50);
    OddStep(0xa0);
    OddStep(0x140);
    OddStep(0x280);
    OddStep(0x500);
    OddStep(0xa00);
    OddStep(0x1400);
    OddStep(0x2800);
    OddStep(0x5000);
    OddStep(0xa001);
  }

  lemma ShiftKeepsParity(r: bv16)
    ensures Odd(Shift(r)) <==> Odd(r)
  {
    OddStep(r);
    LowBit(r);
    assert Shift(r) == if LowBitSet(r) then Xor(Halve(r), POLYNOMIAL) else Halve(r);
    OddXor(Halve(r), POLYNOMIAL);
    PolynomialOdd();
  }

  lemma ShiftByteKeepsParity(r: bv16)
    ensures Odd(ShiftByte(r)) <==> Odd(r)
  {
    forall s: bv16 ensures Odd(Shift(s)) <==> Odd(s) { ShiftKeepsParity(s); }
    RepeatKeepsParity(Odd, Shift, r, 8);
  }

  /** The polynomial is divisible by x + 1: the checksum carries the parity of the data's bits. */
  lemma ChecksumCarriesParity(data: seq<byte>)
    ensures Odd(CrcRegister(data)) <==> OddBy(Odd, Registers(data))
  {
    forall a: bv16, b: bv16 ensures Odd(Xor(a, b)) <==> Odd(a) != Odd(b) { OddXor(a, b); }
    forall r: bv16 ensures Odd(ShiftByte(r)) <==> Odd(r) { ShiftByteKeepsParity(r); }
    PolynomialOdd();
    RunCarriesParity(Xor, Odd, ShiftByte, 0, Registers(data));
  }

  /** Damage that flips an odd number of bits, anywhere, always changes the checksum. */
  lemma OddDamageDetected(a: seq<byte>, b: seq<byte>)
    requires OddBy(Odd, Registers(a)) != OddBy(Odd, Registers(b))
    ensures Checksum(a) != Checksum(b)
  {
    ChecksumCarriesParity(a);
    ChecksumCarriesParity(b);
    if Checksum(a) == Checksum(b) {
      NatInjective(CrcRegister(a), CrcRegister(b));
    }
  }
}
