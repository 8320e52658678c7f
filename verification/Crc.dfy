/** The CRC-32 of clause 3.2.9 of IEEE 802.3 that protects a sealed layer's metadata.

    The loop of layer.rs is `Crc32`. It is proved equal to `CrcOf`, and `CrcOf` is
    proved to separate any two equal-length blobs that differ in one burst of at most 32
    consecutive bits, hence within any four consecutive bytes. That `CrcOf` is the CRC-32 of the
    standard is fixed by its residue, its value on the empty blob and its check value.

    The register is a `bv32`. Facts about single machine operations are proved by the
    solver's bit-vector theory; the inductive proofs hide the operations' bodies.
 */
module Crc {
  import opened Bytes

  const POLY: bv32 := 0xEDB8_8320
  const INIT: bv32 := 0xFFFF_FFFF

  function Xor(a: bv32, b: bv32): bv32 { a ^ b }
  function Half(c: bv32): bv32 { c >> 1 }
  function Double(c: bv32): bv32 { c << 1 }
  function Not(c: bv32): bv32 { !c }
  predicate Odd(c: bv32) { c & 1 == 1 }

  /** One bit step: shift right, and fold the polynomial in when a one falls out. */
  function Step(c: bv32): bv32 {
    Half(c) ^ (POLY & (0 - (c & 1)))
  }

  function Steps(c: bv32, n: nat): bv32
    decreases n
  {
    if n == 0 then c else Steps(Step(c), n - 1)
  }

  function Bit(b: bool): bv32 { if b then 1 else 0 }

  function Join(b: bool, w: bv32): bv32 { Xor(Double(w), Bit(b)) }

  /** The word whose binary digits, lowest first, are `bits`. */
  function Pack(bits: seq<bool>): bv32 {
    if bits == [] then 0 else Join(bits[0], Pack(bits[1..]))
  }

  /** The `n` low binary digits of `v`, lowest first. */
  function Digits(v: nat, n: nat): (r: seq<bool>)
    ensures |r| == n
    decreases n
  {
    if n == 0 then [] else [v % 2 == 1] + Digits(v / 2, n - 1)
  }

  /** A byte widened to 32 bits. */
  function Word(b: Byte): bv32 { Pack(Digits(b, 8)) }

  /** The register after feeding `bytes` into register `c`. */
  function Feed(c: bv32, bytes: seq<Byte>): bv32
    decreases |bytes|
  {
    if bytes == [] then c else Feed(Steps(Xor(c, Word(bytes[0])), 8), bytes[1..])
  }

  function CrcOf(bytes: seq<Byte>): (crc: bv32) {
    Not(Feed(INIT, bytes))
  }

  method Crc32(bytes: seq<Byte>) returns (crc: bv32)
    ensures crc == CrcOf(bytes)
  {
    hide Steps, Word, Xor, Not;
    crc := INIT;
    for i := 0 to |bytes|
      invariant Feed(crc, bytes[i..]) == Feed(INIT, bytes)
    {
      crc := StepByte(Xor(crc, Word(bytes[i])));
      assert bytes[i..][1..] == bytes[i + 1..];
    }
    crc := Not(crc);
  }

  // The inner loop of layer.rs: eight masked shifts.
  method StepByte(c: bv32) returns (crc: bv32)
    ensures crc == Steps(c, 8)
  {
    crc := c;
    for j := 0 to 8
      invariant Steps(crc, 8 - j) == Steps(c, 8)
    {
      crc := Step(crc);
    }
  }

  // ---- the bit-serial view ---------------------------------------------------------------

  /** Feed one bit into the register. */
  function Push(c: bv32, b: bool): bv32 { Step(Xor(c, Bit(b))) }

  function Serial(c: bv32, bits: seq<bool>): bv32
    decreases |bits|
  {
    if bits == [] then c else Serial(Push(c, bits[0]), bits[1..])
  }

  /** The bits of a blob in the order the CRC consumes them: byte by byte, low bit first. */
  function Bits(bytes: seq<Byte>): (r: seq<bool>)
    ensures |r| == 8 * |bytes|
  {
    if bytes == [] then [] else Digits(bytes[0], 8) + Bits(bytes[1..])
  }

  lemma StepCases(c: bv32)
    ensures Step(c) == if Odd(c) then Xor(Half(c), POLY) else Half(c)
  {
    if Odd(c) {
      assert 0 - (c & 1) == 0xFFFF_FFFF;
    } else {
      assert c & 1 == 0;
    }
  }

  lemma StepInjective(a: bv32, b: bv32)
    requires Step(a) == Step(b)
    ensures a == b
  {
  }

  lemma XorAssoc(a: bv32, b: bv32, c: bv32)
    ensures Xor(Xor(a, b), c) == Xor(a, Xor(b, c))
  {
  }

  lemma XorComm(a: bv32, b: bv32)
    ensures Xor(a, b) == Xor(b, a)
  {
  }

  lemma XorSelf(a: bv32)
    ensures Xor(a, a) == 0 && Xor(a, 0) == a
  {
  }

  lemma XorSwap(p: bv32, q: bv32, r: bv32)
    ensures Xor(Xor(p, r), q) == Xor(Xor(p, q), r) == Xor(p, Xor(q, r))
  {
    hide Xor;
    XorAssoc(p, r, q);
    XorAssoc(p, q, r);
    XorComm(r, q);
  }

  lemma XorCancels(p: bv32, q: bv32, r: bv32)
    ensures Xor(Xor(p, r), Xor(q, r)) == Xor(p, q)
  {
    hide Xor;
    XorSwap(p, Xor(q, r), r);
    XorSwap(p, q, r);
    XorAssoc(Xor(p, q), r, r);
    XorSelf(r);
    XorSelf(Xor(p, q));
  }

  lemma XorParts(a: bv32, b: bv32)
    ensures Odd(Xor(a, b)) == (Odd(a) != Odd(b))
    ensures Half(Xor(a, b)) == Xor(Half(a), Half(b))
  {
  }

  lemma BitParts(b: bool)
    ensures Odd(Bit(b)) == b && Half(Bit(b)) == 0
  {
  }

  // Bits above the one that falls out pass through a step unchanged.
  lemma PeelBit(c: bv32, w: bv32)
    ensures Step(Xor(c, w)) == Xor(Push(c, Odd(w)), Half(w))
  {
    hide Step, Xor, Odd, Half, Bit;
    var b := Bit(Odd(w));
    XorParts(c, w);
    XorParts(c, b);
    BitParts(Odd(w));
    StepCases(Xor(c, w));
    StepCases(Xor(c, b));
    XorSelf(Half(c));
    XorSwap(Half(c), Half(w), POLY);
  }

  lemma JoinHalves(b: bool, w: bv32)
    requires Small(w)
    ensures Odd(Join(b, w)) == b && Half(Join(b, w)) == w
  {
    hide Xor, Double, Half, Odd, Bit, Small;
    HalfDouble(w);
    BitParts(b);
    XorParts(Double(w), Bit(b));
    XorSelf(w);
  }

  lemma JoinWithin(b: bool, w: bv32, m: bv32)
    requires Within(w, m)
    ensures Within(Join(b, w), Grow(m))
  {
    hide Xor, Double, Within, Grow;
    WithinDouble(w, Bit(b), m);
  }

  lemma WithinZero()
    ensures Within(0, 0)
  {
  }

  lemma {:induction false} PackWithin(bits: seq<bool>)
    requires |bits| <= 32
    ensures Within(Pack(bits), Mask(|bits|))
  {
    hide Join, Grow, Within, Small;
    if bits == [] {
      WithinZero();
    } else {
      PackWithin(bits[1..]);
      JoinWithin(bits[0], Pack(bits[1..]), Mask(|bits| - 1));
    }
  }

  // Stepping a register with a word xored in reads the word's digits serially.
  lemma {:induction false} PackIsSerial(c: bv32, bits: seq<bool>)
    requires |bits| <= 32
    ensures Steps(Xor(c, Pack(bits)), |bits|) == Serial(c, bits)
    decreases |bits|
  {
    hide Step, Xor, Half, Odd, Push, Join, Grow, Within, Small;
    if bits == [] {
      XorSelf(c);
    } else {
      var w := Pack(bits[1..]);
      PackWithin(bits[1..]);
      MaskSmall(|bits| - 1);
      WithinSmall(w, Mask(|bits| - 1));
      JoinHalves(bits[0], w);
      PeelBit(c, Pack(bits));
      PackIsSerial(Push(c, bits[0]), bits[1..]);
    }
  }

  lemma {:induction false} FeedIsSerial(c: bv32, bytes: seq<Byte>)
    ensures Feed(c, bytes) == Serial(c, Bits(bytes))
    decreases |bytes|
  {
    hide Steps, Xor, Push, Pack, Digits;
    if bytes != [] {
      var d := Digits(bytes[0], 8);
      PackIsSerial(c, d);
      FeedIsSerial(Serial(c, d), bytes[1..]);
      SerialAppend(c, d, Bits(bytes[1..]));
    }
  }

  lemma {:induction false} SerialAppend(c: bv32, a: seq<bool>, b: seq<bool>)
    ensures Serial(c, a + b) == Serial(Serial(c, a), b)
    decreases |a|
  {
    hide Push;
    if a == [] {
      assert a + b == b;
    } else {
      assert (a + b)[1..] == a[1..] + b;
      SerialAppend(Push(c, a[0]), a[1..], b);
    }
  }

  // ---- bursts ------------------------------------------------------------------------------

  lemma PushInjective(a: bv32, b: bv32, x: bool)
    requires Push(a, x) == Push(b, x)
    ensures a == b
  {
    hide Step, Bit;
    StepInjective(Xor(a, Bit(x)), Xor(b, Bit(x)));
  }

  lemma {:induction false} SerialInjective(a: bv32, b: bv32, bits: seq<bool>)
    requires Serial(a, bits) == Serial(b, bits)
    ensures a == b
    decreases |bits|
  {
    hide Push;
    if bits != [] {
      SerialInjective(Push(a, bits[0]), Push(b, bits[0]), bits[1..]);
      PushInjective(a, b, bits[0]);
    }
  }

  function Grow(m: bv32): bv32 { (m << 1) | 1 }

  /** 2^n - 1, for n up to 32. */
  function Mask(n: nat): bv32 {
    if n == 0 then 0 else Grow(Mask(n - 1))
  }

  predicate Contiguous(m: bv32) { m & (m + 1) == 0 }

  predicate Small(m: bv32) { m < 0x8000_0000 }

  lemma GrowContiguous(m: bv32)
    requires Contiguous(m)
    ensures Contiguous(Grow(m))
    ensures Small(Grow(m)) ==> Small(m)
  {
  }

  lemma {:induction false} MaskContiguous(n: nat)
    ensures Contiguous(Mask(n))
  {
    hide Grow;
    if n > 0 {
      MaskContiguous(n - 1);
      GrowContiguous(Mask(n - 1));
    }
  }

  lemma Mask31()
    ensures Mask(31) == 0x7FFF_FFFF
  {
    assert Mask(2) == 0x3;
    assert Mask(4) == 0xF;
    assert Mask(6) == 0x3F;
    assert Mask(8) == 0xFF;
    assert Mask(10) == 0x3FF;
    assert Mask(12) == 0xFFF;
    assert Mask(14) == 0x3FFF;
    assert Mask(16) == 0xFFFF;
    assert Mask(18) == 0x3_FFFF;
    assert Mask(20) == 0xF_FFFF;
    assert Mask(22) == 0x3F_FFFF;
    assert Mask(24) == 0xFF_FFFF;
    assert Mask(26) == 0x3FF_FFFF;
    assert Mask(28) == 0xFFF_FFFF;
    assert Mask(30) == 0x3FFF_FFFF;
  }

  lemma {:induction false} MaskSmall(n: nat)
    requires n <= 31
    ensures Small(Mask(n))
    decreases 31 - n
  {
    hide Grow;
    if n == 31 {
      Mask31();
    } else {
      MaskSmall(n + 1);
      MaskContiguous(n);
      GrowContiguous(Mask(n));
    }
  }

  /** The registers differ only in bits of `m`. */
  predicate Near(s: bv32, t: bv32, m: bv32) { Within(Xor(s, t), m) }

  // One bit back: if the registers after a bit differ within a small mask, then before it they
  // differed within the mask one bit wider; and from one register, the bits were equal.
  lemma NearBack(s: bv32, t: bv32, x: bool, y: bool, m: bv32)
    requires Small(m) && Near(Push(s, x), Push(t, y), m)
    ensures Near(s, t, Grow(m))
    ensures s == t ==> x == y
  {
    hide Step, Xor, Bit, Small, Grow, Odd, Half, Push, Within, Double;
    var d := Xor(Xor(s, Bit(x)), Xor(t, Bit(y)));
    var e := Xor(Push(s, x), Push(t, y));
    assert Step(d) == e by { PushDifference(s, t, x, y); }
    NearBackBits(d, e, m);
    assert d == Xor(Xor(s, t), Xor(Bit(x), Bit(y))) by {
      XorSwap(s, Xor(t, Bit(y)), Bit(x));
      XorAssoc(s, t, Bit(y));
      XorAssoc(Xor(s, t), Bit(y), Bit(x));
      XorComm(Bit(y), Bit(x));
    }
    NearBackMask(Xor(s, t), x, y, e, m);
    if s == t { XorSelf(s); }
  }

  predicate Within(e: bv32, m: bv32) { e & !m == 0 }

  lemma PushDifference(s: bv32, t: bv32, x: bool, y: bool)
    ensures Step(Xor(Xor(s, Bit(x)), Xor(t, Bit(y)))) == Xor(Push(s, x), Push(t, y))
  {
    hide Step, Xor, Bit;
    StepLinear(Xor(s, Bit(x)), Xor(t, Bit(y)));
  }

  lemma WithinSmall(e: bv32, m: bv32)
    requires Small(m) && Within(e, m)
    ensures Small(e)
  {
  }

  lemma HalfDouble(e: bv32)
    requires Small(e)
    ensures Half(Double(e)) == e && !Odd(Double(e))
  {
  }

  lemma NearBackBits(d: bv32, e: bv32, m: bv32)
    requires Small(m) && Within(e, m) && Step(d) == e
    ensures d == Double(e)
  {
    hide Step, Small, Within, Half, Double, Odd;
    WithinSmall(e, m);
    HalfDouble(e);
    StepCases(Double(e));
    StepInjective(d, Double(e));
  }

  lemma WithinDouble(e: bv32, b: bv32, m: bv32)
    requires Within(e, m) && b <= 1
    ensures Within(Xor(Double(e), b), Grow(m))
  {
  }

  lemma BitXor(x: bool, y: bool)
    ensures Xor(Bit(x), Bit(y)) == Bit(x != y) <= 1
  {
  }

  // `d` with two bits xored in is the doubled difference.
  lemma NearBackMask(d: bv32, x: bool, y: bool, e: bv32, m: bv32)
    requires Xor(d, Xor(Bit(x), Bit(y))) == Double(e) && Within(e, m)
    ensures Within(d, Grow(m))
    ensures d == 0 ==> x == y
  {
    hide Xor, Within, Grow, Double, Bit, Odd;
    var b := Xor(Bit(x), Bit(y));
    BitXor(x, y);
    WithinDouble(e, b, m);
    assert d == Xor(Double(e), b) by {
      XorAssoc(d, b, b);
      XorSelf(b);
      XorSelf(d);
    }
    if d == 0 {
      XorComm(0, b);
      XorSelf(b);
      BitParts(x != y);
      DoubleEven(e);
    }
  }

  lemma DoubleEven(e: bv32)
    ensures !Odd(Double(e))
  {
  }

  lemma StepLinear(a: bv32, b: bv32)
    ensures Step(Xor(a, b)) == Xor(Step(a), Step(b))
  {
    hide Step, Xor, Odd, Half;
    StepCases(a);
    StepCases(b);
    StepCases(Xor(a, b));
    XorParts(a, b);
    XorCancels(Half(a), Half(b), POLY);
    XorSwap(Half(a), Half(b), POLY);
  }

  lemma NearSame(s: bv32)
    ensures Near(s, s, 0)
  {
    hide Xor;
    XorSelf(s);
  }

  // If two runs of n <= 32 bits end in the same register, the registers they started from differ
  // only in the low n bits; from the same start, the bits are the same.
  lemma {:induction false} MeetImpliesNear(s: bv32, t: bv32, x: seq<bool>, y: seq<bool>)
    requires |x| == |y| <= 32
    requires Serial(s, x) == Serial(t, y)
    ensures Near(s, t, Mask(|x|))
    ensures s == t ==> x == y
    decreases |x|
  {
    hide Push, Grow, Near, Small;
    if x == [] {
      NearSame(s);
    } else {
      MeetImpliesNear(Push(s, x[0]), Push(t, y[0]), x[1..], y[1..]);
      MaskSmall(|x| - 1);
      NearBack(s, t, x[0], y[0], Mask(|x| - 1));
      if s == t { assert x == [x[0]] + x[1..] && y == [y[0]] + y[1..]; }
    }
  }

  /** Two bit strings that agree outside a burst of at most 32 positions leave different registers. */
  lemma BurstSeparates(c: bv32, x: seq<bool>, y: seq<bool>, i: nat, n: nat)
    requires |x| == |y| && i + n <= |x| && n <= 32 && x != y
    requires x[..i] == y[..i] && x[i + n..] == y[i + n..]
    ensures Serial(c, x) != Serial(c, y)
  {
    hide Push, Mask, Near;
    var p, q, u, v := x[..i], x[i + n..], x[i..i + n], y[i..i + n];
    assert x == p + (u + q) && y == p + (v + q);
    SerialAppend(c, p, u + q);
    SerialAppend(c, p, v + q);
    var s := Serial(c, p);
    SerialAppend(s, u, q);
    SerialAppend(s, v, q);
    if Serial(c, x) == Serial(c, y) {
      SerialInjective(Serial(s, u), Serial(s, v), q);
      MeetImpliesNear(s, s, u, v);
    }
  }

  function Pow2(n: nat): (p: nat)
    ensures p > 0
  {
    if n == 0 then 1 else 2 * Pow2(n - 1)
  }

  lemma {:induction false} DigitsInjective(a: nat, b: nat, n: nat)
    requires a < Pow2(n) && b < Pow2(n) && Digits(a, n) == Digits(b, n)
    ensures a == b
    decreases n
  {
    if n > 0 {
      assert Digits(a, n)[0] == Digits(b, n)[0];
      assert Digits(a, n)[1..] == Digits(a / 2, n - 1) && Digits(b, n)[1..] == Digits(b / 2, n - 1);
      DigitsInjective(a / 2, b / 2, n - 1);
    }
  }

  lemma {:induction false} BitsAppend(a: seq<Byte>, b: seq<Byte>)
    ensures Bits(a + b) == Bits(a) + Bits(b)
  {
    hide Digits;
    if a == [] {
      assert a + b == b;
    } else {
      assert (a + b)[1..] == a[1..] + b;
      BitsAppend(a[1..], b);
    }
  }

  lemma {:induction false} BitsInjective(a: seq<Byte>, b: seq<Byte>)
    requires |a| == |b| && Bits(a) == Bits(b)
    ensures a == b
  {
    if a != [] {
      assert Bits(a)[..8] == Digits(a[0], 8) && Bits(b)[..8] == Digits(b[0], 8);
      assert Pow2(8) == 256 by { assert Pow2(4) == 16; assert Pow2(6) == 64; }
      DigitsInjective(a[0], b[0], 8);
      assert Bits(a)[8..] == Bits(a[1..]) && Bits(b)[8..] == Bits(b[1..]);
      BitsInjective(a[1..], b[1..]);
      assert a == [a[0]] + a[1..] && b == [b[0]] + b[1..];
    }
  }

  lemma NotInjective(a: bv32, b: bv32)
    ensures Not(a) == Not(b) ==> a == b
  {
  }

  /** A burst of at most 32 consecutive wrong bits, at any bit position, changes the CRC. */
  lemma BurstDetected(a: seq<Byte>, b: seq<Byte>, i: nat, n: nat)
    requires |a| == |b| && i + n <= 8 * |a| && n <= 32 && a != b
    requires Bits(a)[..i] == Bits(b)[..i] && Bits(a)[i + n..] == Bits(b)[i + n..]
    ensures CrcOf(a) != CrcOf(b)
  {
    hide Not, Feed, Serial, Bits;
    if Bits(a) == Bits(b) { BitsInjective(a, b); }
    BurstSeparates(INIT, Bits(a), Bits(b), i, n);
    FeedIsSerial(INIT, a);
    FeedIsSerial(INIT, b);
    NotInjective(Feed(INIT, a), Feed(INIT, b));
  }

  lemma SplitBits(a: seq<Byte>, i: nat)
    requires i <= |a|
    ensures Bits(a)[..8 * i] == Bits(a[..i])
    ensures Bits(a)[8 * i..] == Bits(a[i..])
  {
    hide Bits;
    assert a == a[..i] + a[i..];
    BitsAppend(a[..i], a[i..]);
  }

  /** Corruption confined to four consecutive bytes changes the CRC. */
  lemma WindowDetected(a: seq<Byte>, b: seq<Byte>, i: nat, n: nat)
    requires |a| == |b| && i + n <= |a| && n <= 4 && a != b
    requires a[..i] == b[..i] && a[i + n..] == b[i + n..]
    ensures CrcOf(a) != CrcOf(b)
  {
    hide Bits, CrcOf;
    SplitBits(a, i);
    SplitBits(a, i + n);
    SplitBits(b, i);
    SplitBits(b, i + n);
    BurstDetected(a, b, 8 * i, 8 * n);
  }

  lemma CrcAsNat(a: bv32, b: bv32)
    requires a as nat == b as nat
    ensures a == b
  {
    assert (a as nat) as bv32 == a;
    assert (b as nat) as bv32 == b;
  }

  // ---- the standard's values -----------------------------------------------------------------

  lemma {:induction false} FeedAppend(c: bv32, a: seq<Byte>, b: seq<Byte>)
    ensures Feed(c, a + b) == Feed(Feed(c, a), b)
    decreases |a|
  {
    hide Steps, Xor, Word;
    if a == [] {
      assert a + b == b;
    } else {
      assert (a + b)[1..] == a[1..] + b;
      FeedAppend(Steps(Xor(c, Word(a[0])), 8), a[1..], b);
    }
  }

  // On the bare operators, where the solver's bit-vector theory sees them.
  lemma ShiftAsNat(w: bv32)
    requires w < 0x8000_0000
    ensures (w << 1) as nat == 2 * (w as nat)
  {
  }

  lemma ShiftOddAsNat(w: bv32)
    requires w < 0x8000_0000
    ensures ((w << 1) ^ 1) as nat == 2 * (w as nat) + 1
  {
  }

  /** The number a register stands for. */
  function Number(w: bv32): nat { w as nat }

  lemma JoinNumber(b: bool, w: bv32)
    requires Small(w)
    ensures Number(Join(b, w)) == 2 * Number(w) + if b then 1 else 0
  {
    if b {
      JoinOne(w);
      ShiftOddAsNat(w);
    } else {
      JoinZero(w);
      ShiftAsNat(w);
    }
  }

  lemma JoinOne(w: bv32)
    ensures Join(true, w) == (w << 1) ^ 1
  {
  }

  lemma JoinZero(w: bv32)
    ensures Join(false, w) == w << 1
  {
    XorSelf(Double(w));
  }

  lemma Rejoin(w: bv32)
    ensures Join(Odd(w), Half(w)) == w && Small(Half(w))
  {
  }

  lemma HalfNumber(w: bv32)
    ensures Number(Half(w)) == Number(w) / 2 && (Odd(w) <==> Number(w) % 2 == 1)
  {
    hide Number, Join, Half, Odd, Small;
    Rejoin(w);
    JoinNumber(Odd(w), Half(w));
  }

  lemma HalfWithin(w: bv32, m: bv32)
    requires Within(w, Grow(m))
    ensures Within(Half(w), m)
  {
  }

  // A word is packed from its binary digits.
  lemma {:induction false} PackDigits(w: bv32, n: nat)
    requires Within(w, Mask(n))
    ensures Pack(Digits(Number(w), n)) == w
    decreases n
  {
    hide Number, Join, Half, Odd, Within, Grow;
    if n == 0 {
      WithinNothing(w);
    } else {
      HalfNumber(w);
      HalfWithin(w, Mask(n - 1));
      PackDigits(Half(w), n - 1);
      Rejoin(w);
      var d := Digits(Number(w), n);
      assert d[0] == Odd(w) && d[1..] == Digits(Number(Half(w)), n - 1);
    }
  }

  lemma WithinNothing(w: bv32)
    requires Within(w, 0)
    ensures w == 0
  {
  }

  lemma AllWithin(w: bv32)
    ensures Within(w, Mask(32))
  {
    Mask31();
    assert Mask(32) == Grow(Mask(31));
  }

  /** `v` without its `n` low binary digits. */
  function Shifted(v: nat, n: nat): nat {
    if n == 0 then v else Shifted(v / 2, n - 1)
  }

  lemma ShiftedByte(v: nat)
    ensures Shifted(v, 8) == v / 256
  {
    assert Shifted(v, 8) == Shifted(v / 4, 6);
    assert Shifted(v / 4, 6) == Shifted(v / 16, 4);
    assert Shifted(v / 16, 4) == Shifted(v / 64, 2);
    assert Shifted(v / 64, 2) == Shifted(v / 128, 1) == Shifted(v / 256, 0);
  }

  lemma {:induction false} DigitsAppend(v: nat, n: nat, m: nat)
    ensures Digits(v, n + m) == Digits(v, n) + Digits(Shifted(v, n), m)
    decreases n
  {
    if n > 0 { DigitsAppend(v / 2, n - 1, m); }
  }

  lemma {:induction false} DigitsHigh(v: nat, k: nat, n: nat)
    ensures Digits(v + k * Pow2(n), n) == Digits(v, n)
    decreases n
  {
    if n > 0 {
      var p := k * Pow2(n - 1);
      assert k * Pow2(n) == 2 * p;
      DigitsHigh(v / 2, k, n - 1);
    }
  }

  lemma {:induction false} BitsOfLE(width: nat, v: nat)
    ensures Bits(LE(width, v)) == Digits(v, 8 * width)
  {
    hide Digits;
    if width == 0 {
      NoDigits(v);
    } else {
      assert Pow2(8) == 256 by { assert Pow2(4) == 16; assert Pow2(6) == 64; }
      DigitsHigh(v % 256, v / 256, 8);
      DigitsAppend(v, 8, 8 * (width - 1));
      ShiftedByte(v);
      BitsOfLE(width - 1, v / 256);
      assert LE(width, v)[1..] == LE(width - 1, v / 256);
    }
  }

  lemma NoDigits(v: nat)
    ensures Digits(v, 0) == []
  {
  }

  lemma XorNot(c: bv32)
    ensures Xor(c, Not(c)) == 0xFFFF_FFFF
  {
  }

  lemma EightSteps(c: bv32)
    ensures Steps(c, 8) == Step(Step(Step(Step(Step(Step(Step(Step(c))))))))
  {
    hide Step;
    assert Steps(c, 8) == Steps(Step(Step(c)), 6);
    assert Steps(Step(Step(c)), 6) == Steps(Step(Step(Step(Step(c)))), 4);
    assert Steps(Step(Step(Step(Step(c)))), 4) == Steps(Step(Step(Step(Step(Step(Step(c)))))), 2);
  }

  lemma {:induction false} StepsAppend(c: bv32, n: nat, m: nat)
    ensures Steps(c, n + m) == Steps(Steps(c, n), m)
    decreases n
  {
    hide Step;
    if n > 0 { StepsAppend(Step(c), n - 1, m); }
  }

  // Eight steps at a time from the register of all ones.
  lemma Ones8()
    ensures Steps(0xFFFF_FFFF, 8) == 0x2DFD_1072
  {
    EightSteps(0xFFFF_FFFF);
  }

  lemma Ones16()
    ensures Steps(0x2DFD_1072, 8) == 0xBE26_ED00
  {
    EightSteps(0x2DFD_1072);
  }

  lemma Ones24()
    ensures Steps(0xBE26_ED00, 8) == 0x00BE_26ED
  {
    EightSteps(0xBE26_ED00);
  }

  lemma Ones32()
    ensures Steps(0x00BE_26ED, 8) == 0xDEBB_20E3
  {
    EightSteps(0x00BE_26ED);
  }

  /** The residue of the standard: a blob followed by its own CRC, low byte first, always leaves the
      register 0xDEBB20E3. This fixes the polynomial and the final complement. */
  lemma Residue(m: seq<Byte>)
    ensures Feed(INIT, m + LE(4, CrcOf(m) as nat)) == 0xDEBB_20E3
  {
    hide Feed, Serial, Steps, Pack, Digits, Bits, Xor, Not, LE, Within, Mask;
    var c := Feed(INIT, m);
    var crc := CrcOf(m);
    var bits := Digits(Number(crc), 32);
    FeedAppend(INIT, m, LE(4, Number(crc)));
    FeedIsSerial(c, LE(4, Number(crc)));
    BitsOfLE(4, Number(crc));
    PackIsSerial(c, bits);
    AllWithin(crc);
    PackDigits(crc, 32);
    XorNot(c);
    StepsAppend(0xFFFF_FFFF, 8, 24);
    StepsAppend(0x2DFD_1072, 8, 16);
    StepsAppend(0xBE26_ED00, 8, 8);
    Ones8();
    Ones16();
    Ones24();
    Ones32();
  }

  /** The CRC of the empty blob, which fixes the initial value. */
  lemma EmptyCrc()
    ensures CrcOf([]) == 0
  {
  }

  // The register while the nine digits are fed.
  lemma Check1()
    ensures Steps(0xFFFF_FFCE, 8) == 0x7C23_1048
  {
    EightSteps(0xFFFF_FFCE);
  }

  lemma Check2()
    ensures Steps(0x7C23_107A, 8) == 0xB0AC_BB32
  {
    EightSteps(0x7C23_107A);
  }

  lemma Check3()
    ensures Steps(0xB0AC_BB01, 8) == 0x77B7_9C2D
  {
    EightSteps(0xB0AC_BB01);
  }

  lemma Check4()
    ensures Steps(0x77B7_9C19, 8) == 0x641C_1F5C
  {
    EightSteps(0x77B7_9C19);
  }

  lemma Check5()
    ensures Steps(0x641C_1F69, 8) == 0x340A_C5E3
  {
    EightSteps(0x641C_1F69);
  }

  lemma Check6()
    ensures Steps(0x340A_C5D5, 8) == 0xF68D_2C9E
  {
    EightSteps(0x340A_C5D5);
  }

  lemma Check7()
    ensures Steps(0xF68D_2CA9, 8) == 0xAFFC_9660
  {
    EightSteps(0xF68D_2CA9);
  }

  lemma Check8()
    ensures Steps(0xAFFC_9658, 8) == 0x651F_2550
  {
    EightSteps(0xAFFC_9658);
  }

  lemma Check9()
    ensures Steps(0x651F_2569, 8) == 0x340B_C6D9
  {
    EightSteps(0x651F_2569);
  }

  lemma ByteWord(b: Byte, w: bv32)
    requires Number(w) == b && w <= 0xFF
    ensures Word(b) == w
  {
    hide Number, Pack, Digits;
    assert Mask(8) == 0xFF by { assert Mask(2) == 0x3; assert Mask(4) == 0xF; assert Mask(6) == 0x3F; }
    PackDigits(w, 8);
  }

  lemma DigitWords()
    ensures Word(0x31) == 0x31 && Word(0x32) == 0x32 && Word(0x33) == 0x33
    ensures Word(0x34) == 0x34 && Word(0x35) == 0x35 && Word(0x36) == 0x36
    ensures Word(0x37) == 0x37 && Word(0x38) == 0x38 && Word(0x39) == 0x39
  {
    hide Word;
    ByteWord(0x31, 0x31);
    ByteWord(0x32, 0x32);
    ByteWord(0x33, 0x33);
    ByteWord(0x34, 0x34);
    ByteWord(0x35, 0x35);
    ByteWord(0x36, 0x36);
    ByteWord(0x37, 0x37);
    ByteWord(0x38, 0x38);
    ByteWord(0x39, 0x39);
  }

  lemma FeedOne(c: bv32, bytes: seq<Byte>, x: bv32, c': bv32)
    requires bytes != [] && Xor(c, Word(bytes[0])) == x && Steps(x, 8) == c'
    ensures Feed(c, bytes) == Feed(c', bytes[1..])
  {
  }

  /** The check value of the standard: the CRC of the nine bytes "123456789". */
  lemma CheckValue()
    ensures CrcOf([0x31, 0x32, 0x33, 0x34, 0x35, 0x36, 0x37, 0x38, 0x39]) == 0xCBF4_3926
  {
    hide Feed, Steps, Word;
    var m: seq<Byte> := [0x31, 0x32, 0x33, 0x34, 0x35, 0x36, 0x37, 0x38, 0x39];
    DigitWords();
    Check1();
    FeedOne(0xFFFF_FFFF, m[0..], 0xFFFF_FFCE, 0x7C23_1048);
    Check2();
    FeedOne(0x7C23_1048, m[1..], 0x7C23_107A, 0xB0AC_BB32);
    Check3();
    FeedOne(0xB0AC_BB32, m[2..], 0xB0AC_BB01, 0x77B7_9C2D);
    Check4();
    FeedOne(0x77B7_9C2D, m[3..], 0x77B7_9C19, 0x641C_1F5C);
    Check5();
    FeedOne(0x641C_1F5C, m[4..], 0x641C_1F69, 0x340A_C5E3);
    Check6();
    FeedOne(0x340A_C5E3, m[5..], 0x340A_C5D5, 0xF68D_2C9E);
    Check7();
    FeedOne(0xF68D_2C9E, m[6..], 0xF68D_2CA9, 0xAFFC_9660);
    Check8();
    FeedOne(0xAFFC_9660, m[7..], 0xAFFC_9658, 0x651F_2550);
    Check9();
    FeedOne(0x651F_2550, m[8..], 0x651F_2569, 0x340B_C6D9);
    assert m[0..] == m && m[9..] == [];
    assert forall i :: 0 <= i < 9 ==> m[i..][1..] == m[i + 1..];
    FeedNothing(0x340B_C6D9);
  }

  lemma FeedNothing(c: bv32)
    ensures Feed(c, []) == c
  {
  }
}
