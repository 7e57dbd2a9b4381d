/** The table-driven CRC-32 used as texture identity. */
module Crc32 {
  import opened CrcTable

  // It is the bit-serial reflected CRC of section 8 of RFC 1952, and it tells apart any two byte strings of
  // equal length that differ within four bytes.

  // The operators of the loop, named so that proofs can work with their laws instead of their bits.

  function Xor(x: bv32, y: bv32): bv32 {
    x ^ y
  }

  function Not(x: bv32): bv32 {
    !x
  }

  function Up(p: bv32): bv32 {
    p << 1
  }

  function Up8(p: bv32): bv32 {
    p << 8
  }

  function Down8(x: bv32): bv32 {
    x >> 8
  }

  // ---------------------------------------------------------------------------------------------
  // The table loop
  // ---------------------------------------------------------------------------------------------

  function LowByte(x: bv32): Byte {
    (x & 0xFF) as bv8
  }

  /** One iteration of the loop. */
  function TableStep(crc: bv32, b: Byte): bv32 {
    Xor(Down8(crc), Crc32Table(LowByte(Xor(crc, b as bv32))))
  }

  function TableRegister(crc: bv32, data: seq<Byte>): bv32
    decreases data
  {
    if data == [] then crc else TableRegister(TableStep(crc, data[0]), data[1..])
  }

  // ---------------------------------------------------------------------------------------------
  // The bit-serial definition
  // ---------------------------------------------------------------------------------------------

  /** One message bit goes in at the low end of the register. */
  function BitStep(r: bv32, bit: bool): bv32 {
    if (r & 1 == 1) != bit then (r >> 1) ^ POLYNOMIAL else r >> 1
  }

  /** The low `k` bits of `c`, least significant first. */
  function BitsOf(c: bv32, k: nat): seq<bool> {
    if k == 0 then [] else [c & 1 == 1] + BitsOf(c >> 1, k - 1)
  }

  /** The message as bits, each byte least significant bit first. */
  function Bits(data: seq<Byte>): seq<bool> {
    if data == [] then [] else BitsOf(data[0] as bv32, 8) + Bits(data[1..])
  }

  function BitRegister(r: bv32, bits: seq<bool>): bv32
    decreases bits
  {
    if bits == [] then r else BitRegister(BitStep(r, bits[0]), bits[1..])
  }

  /** CRC-32: the register is preset to ones and complemented at the end. */
  function Crc(data: seq<Byte>): bv32 {
    Not(BitRegister(0xFFFFFFFF, Bits(data)))
  }

  // ---------------------------------------------------------------------------------------------
  // Linearity of the register shift
  // ---------------------------------------------------------------------------------------------

  function Low(c: bv32): bv32 {
    c & 1
  }

  function Half(c: bv32): bv32 {
    c >> 1
  }

  predicate Odd(c: bv32) {
    c & 1 == 1
  }

  function FedBack(c: bv32): bv32 {
    c ^ POLYNOMIAL
  }

  lemma FeedBoth(x: bv32, y: bv32)
    ensures Xor(FedBack(x), FedBack(y)) == Xor(x, y)
  {
  }

  lemma FeedLeft(x: bv32, y: bv32)
    ensures Xor(FedBack(x), y) == FedBack(Xor(x, y))
  {
  }

  lemma FeedRight(x: bv32, y: bv32)
    ensures Xor(x, FedBack(y)) == FedBack(Xor(x, y))
  {
  }

  lemma HalfLinear(x: bv32, y: bv32)
    ensures Half(Xor(x, y)) == Xor(Half(x), Half(y))
  {
  }

  lemma OddLinear(x: bv32, y: bv32)
    ensures Odd(Xor(x, y)) <==> (Odd(x) != Odd(y))
  {
  }

  lemma ShiftIs(x: bv32)
    ensures Shift(x) == if Odd(x) then FedBack(Half(x)) else Half(x)
  {
  }

  /** `k` shifts. */
  function ShiftN(k: nat, r: bv32): bv32 {
    if k == 0 then r else ShiftN(k - 1, Shift(r))
  }

  lemma EightShifts(r: bv32)
    ensures ShiftN(8, r) == Shift8(r)
  {
    hide Shift;
    var r1 := Shift(r);
    var r2 := Shift(r1);
    var r3 := Shift(r2);
    assert ShiftN(8, r) == ShiftN(7, r1) == ShiftN(6, r2) == ShiftN(5, r3);
    var r4 := Shift(r3);
    var r5 := Shift(r4);
    var r6 := Shift(r5);
    assert ShiftN(5, r3) == ShiftN(4, r4) == ShiftN(3, r5) == ShiftN(2, r6);
    assert ShiftN(2, r6) == ShiftN(1, Shift(r6)) == ShiftN(0, Shift(Shift(r6)));
  }

  /** Shifting the register is linear over exclusive or. */
  lemma {:induction false} ShiftNLinear(k: nat, x: bv32, y: bv32)
    ensures ShiftN(k, Xor(x, y)) == Xor(ShiftN(k, x), ShiftN(k, y))
  {
    hide Shift, Xor, Half, Odd, FedBack;
    if k > 0 {
      ShiftIs(x);
      ShiftIs(y);
      ShiftIs(Xor(x, y));
      OddLinear(x, y);
      HalfLinear(x, y);
      FeedBoth(Half(x), Half(y));
      FeedLeft(Half(x), Half(y));
      FeedRight(Half(x), Half(y));
      ShiftNLinear(k - 1, Shift(x), Shift(y));
    }
  }

  /** Bits that have not reached the low end yet only move down. */
  lemma ShiftDown(p: bv32)
    requires p < 0x80000000
    ensures Shift(Up(p)) == p
  {
  }

  lemma EightUps(p: bv32)
    ensures Up(Up(Up(Up(Up(Up(Up(Up(p)))))))) == Up8(p)
  {
  }

  lemma StaysSmall(p: bv32)
    requires p < 0x1000000
    ensures p < 0x80000000 && Up(p) < 0x80000000 && Up(Up(p)) < 0x80000000 && Up(Up(Up(p))) < 0x80000000
    ensures Up(Up(Up(Up(p)))) < 0x80000000 && Up(Up(Up(Up(Up(p))))) < 0x80000000
    ensures Up(Up(Up(Up(Up(Up(p)))))) < 0x80000000 && Up(Up(Up(Up(Up(Up(Up(p))))))) < 0x80000000
  {
  }

  lemma Shift8Down(p: bv32)
    requires p < 0x1000000
    ensures Shift8(Up8(p)) == p
  {
    hide Shift, Up, Up8;
    EightUps(p);
    StaysSmall(p);
    var p1 := Up(p);
    var p2 := Up(p1);
    var p3 := Up(p2);
    var p4 := Up(p3);
    var p5 := Up(p4);
    var p6 := Up(p5);
    var p7 := Up(p6);
    ShiftDown(p7);
    ShiftDown(p6);
    ShiftDown(p5);
    ShiftDown(p4);
    ShiftDown(p3);
    ShiftDown(p2);
    ShiftDown(p1);
    ShiftDown(p);
  }

  /** The high bytes of the register only move down while the low byte is shifted out. */
  lemma HighBytesMoveDown(x: bv32, p: bv32)
    requires p < 0x1000000
    ensures Shift8(Xor(x, Up8(p))) == Xor(Shift8(x), p)
  {
    hide Shift8, Shift, Xor, Up8;
    EightShifts(Xor(x, Up8(p)));
    EightShifts(x);
    EightShifts(Up8(p));
    ShiftNLinear(8, x, Up8(p));
    Shift8Down(p);
  }

  lemma LowAndHigh(x: bv32)
    ensures Xor(LowByte(x) as bv32, Up8(Down8(x))) == x
    ensures Down8(x) < 0x1000000
  {
  }

  lemma HighBytesSurvive(crc: bv32, b: Byte)
    ensures Down8(Xor(crc, b as bv32)) == Down8(crc)
  {
  }

  lemma XorCommutes(x: bv32, y: bv32)
    ensures Xor(x, y) == Xor(y, x)
  {
  }

  /** The table looks up what eight shifts do to the low byte. */
  lemma TableStepIsShift8(crc: bv32, b: Byte)
    ensures TableStep(crc, b) == Shift8(Xor(crc, b as bv32))
  {
    hide Shift8, Crc32Table, Xor, Up8, Down8, LowByte;
    var x := Xor(crc, b as bv32);
    var low := LowByte(x);
    LowAndHigh(x);
    TableEntry(low);
    HighBytesMoveDown(low as bv32, Down8(x));
    HighBytesSurvive(crc, b);
    XorCommutes(Down8(crc), Crc32Table(low));
  }

  // ---------------------------------------------------------------------------------------------
  // Table loop and bit-serial register agree
  // ---------------------------------------------------------------------------------------------

  predicate Fits(c: bv32, k: nat) {
    if k == 0 then c == 0 else Fits(c >> 1, k - 1)
  }

  lemma ByteFits(b: Byte)
    ensures Fits(b as bv32, 8)
  {
    var c := b as bv32;
    assert c >> 1 >> 1 >> 1 >> 1 >> 1 >> 1 >> 1 >> 1 == 0;
    assert Fits(c >> 1 >> 1 >> 1 >> 1 >> 1 >> 1 >> 1 >> 1, 0);
    assert Fits(c >> 1 >> 1 >> 1 >> 1 >> 1 >> 1, 2);
    assert Fits(c >> 1 >> 1 >> 1 >> 1, 4);
    assert Fits(c >> 1 >> 1, 6);
  }

  lemma LowBitIn(r: bv32)
    ensures ((r ^ 1) & 1 == 1) != (r & 1 == 1) && (r ^ 1) >> 1 == r >> 1
  {
  }

  lemma BitStepIsShift(r: bv32, c: bv32)
    ensures BitStep(r, c & 1 == 1) == Shift(Xor(r, Low(c)))
  {
    LowBitIn(r);
    NoBitIn(r);
    OneOrZero(c);
  }

  lemma NoBitIn(r: bv32)
    ensures r ^ 0 == r
  {
  }

  lemma OneOrZero(c: bv32)
    ensures c & 1 == 0 || c & 1 == 1
  {
  }

  lemma SplitLow(c: bv32)
    ensures c == Xor(Low(c), Up(Half(c)))
    ensures Half(c) < 0x80000000
  {
  }

  lemma XorAssociates(x: bv32, y: bv32, z: bv32)
    ensures Xor(x, Xor(y, z)) == Xor(Xor(x, y), z)
  {
  }

  /** A bit xored into the register ahead of time is as good as the same bit shifted in when its turn comes. */
  lemma BitAhead(r: bv32, c: bv32)
    ensures Xor(BitStep(r, c & 1 == 1), Half(c)) == Shift(Xor(r, c))
  {
    hide Shift, Xor, Up, Half, Low, BitStep;
    BitStepIsShift(r, c);
    SplitLow(c);
    ShiftDown(Half(c));
    ShiftNLinear(1, Xor(r, Low(c)), Up(Half(c)));
    XorAssociates(r, Low(c), Up(Half(c)));
  }

  lemma {:induction false} BitsAhead(r: bv32, c: bv32, k: nat)
    requires Fits(c, k)
    ensures BitRegister(r, BitsOf(c, k)) == ShiftN(k, Xor(r, c))
    decreases k
  {
    hide Shift, BitStep;
    if k == 0 {
      NoBitIn(r);
    } else {
      var bits := BitsOf(c, k);
      assert bits[0] == (c & 1 == 1) && bits[1..] == BitsOf(Half(c), k - 1);
      BitAhead(r, c);
      BitsAhead(BitStep(r, bits[0]), Half(c), k - 1);
    }
  }

  lemma {:induction false} BitRegisterConcat(r: bv32, a: seq<bool>, b: seq<bool>)
    ensures BitRegister(r, a + b) == BitRegister(BitRegister(r, a), b)
    decreases a
  {
    hide BitStep;
    if a == [] {
      assert a + b == b;
    } else {
      assert (a + b)[1..] == a[1..] + b;
      BitRegisterConcat(BitStep(r, a[0]), a[1..], b);
    }
  }

  /** The table loop is the bit-serial register, for every register value and every input. */
  lemma {:induction false} TableIsBitSerial(r: bv32, data: seq<Byte>)
    ensures TableRegister(r, data) == BitRegister(r, Bits(data))
    decreases data
  {
    hide Shift8, TableStep, BitsOf, Xor;
    if data != [] {
      var b := data[0];
      ByteFits(b);
      BitsAhead(r, b as bv32, 8);
      EightShifts(Xor(r, b as bv32));
      TableStepIsShift8(r, b);
      BitRegisterConcat(r, BitsOf(b as bv32, 8), Bits(data[1..]));
      TableIsBitSerial(TableStep(r, b), data[1..]);
    }
  }

  /** compute_crc32 */
  method ComputeCrc32(data: array<Byte>) returns (crc: bv32)
    ensures crc == Crc(data[..])
  {
    hide Crc32Table, LowByte, Xor, Down8, Not, BitRegister, Bits;
    crc := 0xFFFFFFFF;
    var pos, size := 0, data.Length;
    while size != 0
      invariant 0 <= size <= data.Length && pos == data.Length - size
      invariant TableRegister(crc, data[pos..]) == TableRegister(0xFFFFFFFF, data[..])
    {
      assert data[pos..][0] == data[pos] && data[pos..][1..] == data[pos + 1..];
      crc := Xor(Down8(crc), Crc32Table(LowByte(Xor(crc, data[pos] as bv32))));
      size, pos := size - 1, pos + 1;
    }
    TableIsBitSerial(0xFFFFFFFF, data[..]);
    crc := Not(crc);
  }

  // ---------------------------------------------------------------------------------------------
  // What the checksum tells apart
  // ---------------------------------------------------------------------------------------------

  /** One byte through the register, bit by bit. */
  function ByteStep(r: bv32, b: Byte): bv32 {
    Shift8(Xor(r, b as bv32))
  }

  function Register(r: bv32, data: seq<Byte>): bv32
    decreases data
  {
    if data == [] then r else Register(ByteStep(r, data[0]), data[1..])
  }

  lemma {:induction false} RegisterIsTable(r: bv32, data: seq<Byte>)
    ensures Register(r, data) == TableRegister(r, data)
    decreases data
  {
    hide TableStep, Shift8, Xor;
    if data != [] {
      TableStepIsShift8(r, data[0]);
      RegisterIsTable(TableStep(r, data[0]), data[1..]);
    }
  }

  lemma {:induction false} RegisterConcat(r: bv32, a: seq<Byte>, b: seq<Byte>)
    ensures Register(r, a + b) == Register(Register(r, a), b)
    decreases a
  {
    hide ByteStep;
    if a == [] {
      assert a + b == b;
    } else {
      assert (a + b)[1..] == a[1..] + b;
      RegisterConcat(ByteStep(r, a[0]), a[1..], b);
    }
  }

  /** The bit that fell out of the register is recovered from its top bit. */
  function Unshift(r: bv32): bv32 {
    if r & 0x80000000 == 0 then r << 1 else ((r ^ POLYNOMIAL) << 1) | 1
  }

  lemma UnshiftEven(x: bv32)
    ensures x & 1 == 0 ==> (x >> 1) & 0x80000000 == 0 && (x >> 1) << 1 == x
  {
  }

  lemma UnshiftOdd(x: bv32)
    ensures ((x >> 1) ^ POLYNOMIAL) & 0x80000000 != 0
    ensures ((x >> 1) ^ POLYNOMIAL) ^ POLYNOMIAL == x >> 1
    ensures x & 1 == 1 ==> ((x >> 1) << 1) | 1 == x
  {
  }

  lemma UnshiftShift(x: bv32)
    ensures Unshift(Shift(x)) == x
  {
    OneOrZero(x);
    UnshiftEven(x);
    UnshiftOdd(x);
  }

  /** Different register values stay different. */
  lemma Shift8Injective(x: bv32, y: bv32)
    requires Shift8(x) == Shift8(y)
    ensures x == y
  {
    hide Shift, Unshift;
    EightUnshifts(x);
    EightUnshifts(y);
  }

  lemma EightUnshifts(x: bv32)
    ensures Unshift(Unshift(Unshift(Unshift(Unshift(Unshift(Unshift(Unshift(Shift8(x))))))))) == x
  {
    hide Shift, Unshift;
    var x1 := Shift(x);
    var x2 := Shift(x1);
    var x3 := Shift(x2);
    var x4 := Shift(x3);
    var x5 := Shift(x4);
    var x6 := Shift(x5);
    var x7 := Shift(x6);
    UnshiftShift(x7);
    UnshiftShift(x6);
    UnshiftShift(x5);
    UnshiftShift(x4);
    UnshiftShift(x3);
    UnshiftShift(x2);
    UnshiftShift(x1);
    UnshiftShift(x);
  }

  lemma XorCancels(x: bv32, y: bv32, b: bv32)
    requires Xor(x, b) == Xor(y, b)
    ensures x == y
  {
    assert x == (x ^ b) ^ b && y == (y ^ b) ^ b;
  }

  lemma {:induction false} RegisterInjective(r: bv32, q: bv32, data: seq<Byte>)
    requires Register(r, data) == Register(q, data)
    ensures r == q
    decreases data
  {
    hide Shift8, Xor;
    if data != [] {
      RegisterInjective(ByteStep(r, data[0]), ByteStep(q, data[0]), data[1..]);
      Shift8Injective(Xor(r, data[0] as bv32), Xor(q, data[0] as bv32));
      XorCancels(r, q, data[0] as bv32);
    }
  }

  /** At most four bytes as one word, first byte lowest. */
  function Pack(u: seq<Byte>): bv32 {
    if u == [] then 0 else Xor(u[0] as bv32, Up8(Pack(u[1..])))
  }

  function Shift8N(k: nat, r: bv32): bv32 {
    if k == 0 then r else Shift8N(k - 1, Shift8(r))
  }

  predicate Small(p: bv32, bytes: nat) {
    if bytes == 0 then p == 0
    else if bytes == 1 then p < 0x100
    else if bytes == 2 then p < 0x10000
    else if bytes == 3 then p < 0x1000000
    else true
  }

  lemma OneByteMore(b: Byte, p: bv32, bytes: nat)
    requires Small(p, bytes)
    ensures Small(Xor(b as bv32, Up8(p)), bytes + 1)
  {
  }

  lemma {:induction false} PackIsSmall(u: seq<Byte>)
    ensures Small(Pack(u), |u|)
    decreases u
  {
    hide Small, Xor, Up8;
    if u != [] {
      PackIsSmall(u[1..]);
      OneByteMore(u[0], Pack(u[1..]), |u| - 1);
    } else {
      NothingPacked();
    }
  }

  lemma NothingPacked()
    ensures Small(0, 0)
  {
  }

  lemma SmallBound(p: bv32, bytes: nat)
    requires Small(p, bytes) && bytes <= 3
    ensures p < 0x1000000
  {
  }

  lemma XorNothing(r: bv32)
    ensures Xor(r, 0) == r
  {
  }

  /** Up to four bytes go into the register as if they had all been xored in at once. */
  lemma {:induction false} WindowAtOnce(r: bv32, u: seq<Byte>)
    requires |u| <= 4
    ensures Register(r, u) == Shift8N(|u|, Xor(r, Pack(u)))
    decreases u
  {
    hide Shift8, Xor, Up8, Small;
    if u == [] {
      XorNothing(r);
    } else {
      var b := u[0] as bv32;
      var p := Pack(u[1..]);
      PackIsSmall(u[1..]);
      SmallBound(p, |u| - 1);
      WindowAtOnce(ByteStep(r, u[0]), u[1..]);
      HighBytesMoveDown(Xor(r, b), p);
      XorAssociates(r, b, Up8(p));
    }
  }

  lemma {:induction false} Shift8NInjective(k: nat, x: bv32, y: bv32)
    requires Shift8N(k, x) == Shift8N(k, y)
    ensures x == y
    decreases k
  {
    hide Shift8;
    if k > 0 {
      Shift8NInjective(k - 1, Shift8(x), Shift8(y));
      Shift8Injective(x, y);
    }
  }

  lemma UnpackLow(a: Byte, p: bv32)
    ensures LowByte(Xor(a as bv32, Up8(p))) == a
  {
  }

  lemma UnpackHigh(a: Byte, p: bv32)
    requires p < 0x1000000
    ensures Down8(Xor(a as bv32, Up8(p))) == p
  {
  }

  lemma UnpackByte(a: Byte, p: bv32, b: Byte, q: bv32)
    requires p < 0x1000000 && q < 0x1000000
    requires Xor(a as bv32, Up8(p)) == Xor(b as bv32, Up8(q))
    ensures a == b && p == q
  {
    hide Xor, Up8, LowByte, Down8;
    UnpackLow(a, p);
    UnpackLow(b, q);
    UnpackHigh(a, p);
    UnpackHigh(b, q);
  }

  lemma {:induction false} PackInjective(u: seq<Byte>, v: seq<Byte>)
    requires |u| == |v| <= 4 && Pack(u) == Pack(v)
    ensures u == v
    decreases u
  {
    hide Xor, Up8, Small;
    if u != [] {
      PackIsSmall(u[1..]);
      PackIsSmall(v[1..]);
      SmallBound(Pack(u[1..]), |u| - 1);
      SmallBound(Pack(v[1..]), |u| - 1);
      UnpackByte(u[0], Pack(u[1..]), v[0], Pack(v[1..]));
      PackInjective(u[1..], v[1..]);
      assert u == [u[0]] + u[1..] && v == [v[0]] + v[1..];
    }
  }

  lemma XorCancelsLeft(r: bv32, x: bv32, y: bv32)
    requires Xor(r, x) == Xor(r, y)
    ensures x == y
  {
    assert x == r ^ (r ^ x) && y == r ^ (r ^ y);
  }

  lemma ComplementInjective(x: bv32, y: bv32)
    requires Not(x) == Not(y)
    ensures x == y
  {
    assert x == !(!x) && y == !(!y);
  }

  lemma CrcIsRegister(data: seq<Byte>)
    ensures Crc(data) == Not(Register(0xFFFFFFFF, data))
  {
    hide Not, Register, TableRegister, BitRegister;
    RegisterIsTable(0xFFFFFFFF, data);
    TableIsBitSerial(0xFFFFFFFF, data);
  }

  /** Strings that differ only in a window of up to four consecutive bytes have different checksums. */
  lemma WindowChangesCrc(before: seq<Byte>, u: seq<Byte>, v: seq<Byte>, after: seq<Byte>)
    requires |u| == |v| <= 4 && u != v
    ensures Crc(before + u + after) != Crc(before + v + after)
  {
    hide Crc, Register, Shift8N, Xor, Pack, Not;
    var r := Register(0xFFFFFFFF, before);
    if Crc(before + u + after) == Crc(before + v + after) {
      CrcOfThree(before, u, after);
      CrcOfThree(before, v, after);
      ComplementInjective(Register(Register(r, u), after), Register(Register(r, v), after));
      RegisterInjective(Register(r, u), Register(r, v), after);
      WindowAtOnce(r, u);
      WindowAtOnce(r, v);
      Shift8NInjective(|u|, Xor(r, Pack(u)), Xor(r, Pack(v)));
      XorCancelsLeft(r, Pack(u), Pack(v));
      PackInjective(u, v);
    }
  }

  lemma CrcOfThree(before: seq<Byte>, u: seq<Byte>, after: seq<Byte>)
    ensures Crc(before + u + after) == Not(Register(Register(Register(0xFFFFFFFF, before), u), after))
  {
    hide Crc, Register, Not;
    CrcIsRegister(before + u + after);
    RegisterConcat(0xFFFFFFFF, before + u, after);
    RegisterConcat(0xFFFFFFFF, before, u);
  }

  /** The same, stated on positions. */
  lemma DifferingWithinFourBytes(x: seq<Byte>, y: seq<Byte>, at: nat)
    requires |x| == |y| && x != y
    requires forall i | 0 <= i < |x| && !(at <= i < at + 4) :: x[i] == y[i]
    ensures Crc(x) != Crc(y)
  {
    hide Crc;
    var lo := if at < |x| then at else |x|;
    var hi := if at + 4 < |x| then at + 4 else |x|;
    assert x[..lo] == y[..lo] && x[hi..] == y[hi..];
    assert x == x[..lo] + x[lo..hi] + x[hi..] && y == y[..lo] + y[lo..hi] + y[hi..];
    WindowChangesCrc(x[..lo], x[lo..hi], y[lo..hi], x[hi..]);
  }

  const COLLISION: seq<Byte> := [0x96, 0x30, 0x07, 0x77]

  lemma CollisionPacked()
    ensures Pack([0, 0, 0, 0]) == 0 && Pack(COLLISION) == Shift8(1)
  {
    var p: Byte := 0x96;
    assert [0, 0, 0, 0][1..] == [0, 0, 0] && [0, 0, 0][1..] == [0, 0] && [0, 0][1..] == [0] && [0][1..] == [];
    assert COLLISION[1..] == [0x30, 0x07, 0x77];
    assert [0x30, 0x07, 0x77][1..] == [0x07, 0x77] && [0x07, 0x77][1..] == [0x77] && [0x77][1..] == [];
    assert Pack([0x77]) == 0x77;
    assert Pack([0x07, 0x77]) == 0x7707;
    assert Pack([0x30, 0x07, 0x77]) == 0x770730;
    assert Shift8(1) == 0x77073096;
  }

  lemma CollisionStates(q: bv32, t: bv32)
    ensures Xor(Xor(q, t), t) == Xor(q, 0)
  {
  }

  /** The checksum without its own operators: the register is preset to ones, and exclusive-ored with ones at the
      end. */
  lemma PresetAndComplement(data: seq<Byte>)
    ensures Crc(data) == 0xFFFF_FFFF ^ BitRegister(0xFFFF_FFFF, Bits(data))
    ensures Crc(data) == 0xFFFF_FFFF ^ TableRegister(0xFFFF_FFFF, data)
  {
    hide BitRegister, TableRegister, Bits;
    TableIsBitSerial(0xFFFF_FFFF, data);
  }

  /** The usual check value: the CRC-32 of the digits 1 to 9. */
  lemma CheckValue()
    ensures Crc([0x31, 0x32, 0x33, 0x34, 0x35, 0x36, 0x37, 0x38, 0x39]) == 0xCBF43926
  {
    var d: seq<Byte> := [0x31, 0x32, 0x33, 0x34, 0x35, 0x36, 0x37, 0x38, 0x39];
    PresetAndComplement(d);
    DigitsByTable();
  }

  lemma DigitsByTable()
    ensures TableRegister(0xFFFF_FFFF, [0x31, 0x32, 0x33, 0x34, 0x35, 0x36, 0x37, 0x38, 0x39]) == 0x340BC6D9
  {
    hide TableStep;
    var d: seq<Byte> := [0x31, 0x32, 0x33, 0x34, 0x35, 0x36, 0x37, 0x38, 0x39];
    FirstDigits();
    MiddleDigits();
    LastDigits();
    NextByte(0xFFFFFFFF, d, 0, 0x7C231048);
    NextByte(0x7C231048, d, 1, 0xB0ACBB32);
    NextByte(0xB0ACBB32, d, 2, 0x77B79C2D);
    NextByte(0x77B79C2D, d, 3, 0x641C1F5C);
    NextByte(0x641C1F5C, d, 4, 0x340AC5E3);
    NextByte(0x340AC5E3, d, 5, 0xF68D2C9E);
    NextByte(0xF68D2C9E, d, 6, 0xAFFC9660);
    NextByte(0xAFFC9660, d, 7, 0x651F2550);
    NextByte(0x651F2550, d, 8, 0x340BC6D9);
    assert d[0..] == d && d[9..] == [];
  }

  lemma FirstDigits()
    ensures TableStep(0xFFFFFFFF, 0x31) == 0x7C231048
    ensures TableStep(0x7C231048, 0x32) == 0xB0ACBB32
    ensures TableStep(0xB0ACBB32, 0x33) == 0x77B79C2D
  {
    assert LowByte(Xor(0xFFFFFFFF, 0x31)) == 0xCE && Down8(0xFFFFFFFF) == 0x00FFFFFF;
    assert LowByte(Xor(0x7C231048, 0x32)) == 0x7A && Down8(0x7C231048) == 0x007C2310;
    assert LowByte(Xor(0xB0ACBB32, 0x33)) == 0x01 && Down8(0xB0ACBB32) == 0x00B0ACBB;
  }

  lemma MiddleDigits()
    ensures TableStep(0x77B79C2D, 0x34) == 0x641C1F5C
    ensures TableStep(0x641C1F5C, 0x35) == 0x340AC5E3
    ensures TableStep(0x340AC5E3, 0x36) == 0xF68D2C9E
  {
    assert LowByte(Xor(0x77B79C2D, 0x34)) == 0x19 && Down8(0x77B79C2D) == 0x0077B79C;
    assert LowByte(Xor(0x641C1F5C, 0x35)) == 0x69 && Down8(0x641C1F5C) == 0x00641C1F;
    assert LowByte(Xor(0x340AC5E3, 0x36)) == 0xD5 && Down8(0x340AC5E3) == 0x00340AC5;
  }

  lemma LastDigits()
    ensures TableStep(0xF68D2C9E, 0x37) == 0xAFFC9660
    ensures TableStep(0xAFFC9660, 0x38) == 0x651F2550
    ensures TableStep(0x651F2550, 0x39) == 0x340BC6D9
  {
    assert LowByte(Xor(0xF68D2C9E, 0x37)) == 0xA9 && Down8(0xF68D2C9E) == 0x00F68D2C;
    assert LowByte(Xor(0xAFFC9660, 0x38)) == 0x58 && Down8(0xAFFC9660) == 0x00AFFC96;
    assert LowByte(Xor(0x651F2550, 0x39)) == 0x69 && Down8(0x651F2550) == 0x00651F25;
  }

  lemma NextByte(r: bv32, d: seq<Byte>, k: nat, next: bv32)
    requires k < |d| && TableStep(r, d[k]) == next
    ensures TableRegister(r, d[k..]) == TableRegister(next, d[k + 1..])
  {
    hide TableStep;
    assert d[k..][1..] == d[k + 1..];
  }

  /** Five bytes are too many: exchanging these two windows never changes the checksum. */
  lemma FiveBytesCollide(before: seq<Byte>, after: seq<Byte>)
    ensures Crc(before + [0, 0, 0, 0, 0] + after) == Crc(before + [1, 0x96, 0x30, 0x07, 0x77] + after)
  {
    hide Crc, Register, Shift8N, Shift8, ShiftN, Xor, Pack, Not;
    var u, v := [0, 0, 0, 0, 0], [1, 0x96, 0x30, 0x07, 0x77];
    var r := Register(0xFFFFFFFF, before);
    CrcOfThree(before, u, after);
    CrcOfThree(before, v, after);
    FirstByte(r, u);
    FirstByte(r, v);
    assert u[1..] == [0, 0, 0, 0] && v[1..] == COLLISION;
    WindowAtOnce(ByteStep(r, 0), [0, 0, 0, 0]);
    WindowAtOnce(ByteStep(r, 1), COLLISION);
    CollisionPacked();
    XorNothing(r);
    EightShifts(r);
    EightShifts(1);
    EightShifts(Xor(r, 1));
    ShiftNLinear(8, r, 1);
    CollisionStates(Shift8(r), Shift8(1));
  }

  lemma FirstByte(r: bv32, u: seq<Byte>)
    requires u != []
    ensures Register(r, u) == Register(ByteStep(r, u[0]), u[1..])
  {
    hide ByteStep;
  }
}
