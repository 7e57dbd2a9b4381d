/**
 Bool shader constants, packed 32 to a word: through set, get and flagged transfer they behave as a plain array
 of booleans. And how many registers a call may touch.
 */
module BoolConstants {
  import opened DeviceState

  type Word = bv32

  // ---------------------------------------------------------------------------------------------
  // Bits of a word
  // ---------------------------------------------------------------------------------------------

  /** 1 << k */
  function Mask(k: nat): Word
    requires k < 32
  {
    match k
    case 0 => 0x1 case 1 => 0x2 case 2 => 0x4 case 3 => 0x8
    case 4 => 0x10 case 5 => 0x20 case 6 => 0x40 case 7 => 0x80
    case 8 => 0x100 case 9 => 0x200 case 10 => 0x400 case 11 => 0x800
    case 12 => 0x1000 case 13 => 0x2000 case 14 => 0x4000 case 15 => 0x8000
    case 16 => 0x10000 case 17 => 0x20000 case 18 => 0x40000 case 19 => 0x80000
    case 20 => 0x100000 case 21 => 0x200000 case 22 => 0x400000 case 23 => 0x800000
    case 24 => 0x1000000 case 25 => 0x2000000 case 26 => 0x4000000 case 27 => 0x8000000
    case 28 => 0x10000000 case 29 => 0x20000000 case 30 => 0x40000000 case _ => 0x80000000
  }

  // The word operations of the source, named so that proofs can work with their laws.

  function Or(w: Word, m: Word): Word {
    w | m
  }

  function AndNot(w: Word, m: Word): Word {
    w & !m
  }

  predicate Has(w: Word, m: Word) {
    w & m != 0
  }

  function Half(w: Word): Word {
    w >> 1
  }

  function Double(m: Word): Word {
    m << 1
  }

  predicate Odd(w: Word) {
    w & 1 == 1
  }

  predicate Small(m: Word) {
    m < 0x80000000
  }

  /** Bit `k`, shifted down to the low end. */
  function Bit(w: Word, k: nat): bool {
    if k == 0 then Odd(w) else Bit(Half(w), k - 1)
  }

  lemma MaskStep(k: nat)
    requires 0 < k < 32
    ensures Mask(k) == Double(Mask(k - 1)) && Small(Mask(k - 1))
  {
  }

  lemma ShiftOr(w: Word, m: Word)
    requires m < 0x80000000
    ensures (w | (m << 1)) >> 1 == (w >> 1) | m
  {
  }

  lemma LowOr(w: Word, m: Word)
    ensures (w | (m << 1)) & 1 == w & 1
  {
  }

  lemma HalfOr(w: Word, m: Word)
    requires Small(m)
    ensures Half(Or(w, Double(m))) == Or(Half(w), m)
  {
    ShiftOr(w, m);
  }

  lemma OddOr(w: Word, m: Word)
    ensures Odd(Or(w, Double(m))) == Odd(w)
  {
    LowOr(w, m);
  }

  lemma ShiftAndNot(w: Word, m: Word)
    requires m < 0x80000000
    ensures (w & !(m << 1)) >> 1 == (w >> 1) & !m
  {
  }

  lemma LowAndNot(w: Word, m: Word)
    ensures (w & !(m << 1)) & 1 == w & 1
  {
  }

  lemma HalfAndNot(w: Word, m: Word)
    requires Small(m)
    ensures Half(AndNot(w, Double(m))) == AndNot(Half(w), m)
  {
    ShiftAndNot(w, m);
  }

  lemma OddAndNot(w: Word, m: Word)
    ensures Odd(AndNot(w, Double(m))) == Odd(w)
  {
    LowAndNot(w, m);
  }

  lemma HalfHas(w: Word, m: Word)
    requires Small(m)
    ensures Has(w, Double(m)) <==> Has(Half(w), m)
  {
  }

  lemma HalfOrOne(w: Word)
    ensures Half(Or(w, 1)) == Half(w)
  {
  }

  lemma OddOrOne(w: Word)
    ensures Odd(Or(w, 1))
  {
  }

  lemma HalfAndNotOne(w: Word)
    ensures Half(AndNot(w, 1)) == Half(w)
  {
  }

  lemma EvenAndNotOne(w: Word)
    ensures !Odd(AndNot(w, 1))
  {
  }

  lemma HasOne(w: Word)
    ensures Has(w, 1) <==> Odd(w)
  {
  }

  lemma FirstMask()
    ensures Mask(0) == 1
  {
  }

  /** Or-ing a mask in raises its bit and no other. */
  lemma {:induction false} OrSetsBit(w: Word, k: nat, j: nat)
    requires k < 32 && j < 32
    ensures Bit(Or(w, Mask(k)), j) == (j == k || Bit(w, j))
    decreases k
  {
    hide Or, Half, Double, Odd, Small, Mask;
    FirstMask();
    if k == 0 {
      HalfOrOne(w);
      OddOrOne(w);
    } else {
      MaskStep(k);
      OddOr(w, Mask(k - 1));
      HalfOr(w, Mask(k - 1));
      if j > 0 {
        OrSetsBit(Half(w), k - 1, j - 1);
      }
    }
  }

  /** And-ing a complemented mask clears its bit and no other. */
  lemma {:induction false} AndNotClearsBit(w: Word, k: nat, j: nat)
    requires k < 32 && j < 32
    ensures Bit(AndNot(w, Mask(k)), j) == (j != k && Bit(w, j))
    decreases k
  {
    hide AndNot, Half, Double, Odd, Small, Mask;
    FirstMask();
    if k == 0 {
      HalfAndNotOne(w);
      EvenAndNotOne(w);
    } else {
      MaskStep(k);
      OddAndNot(w, Mask(k - 1));
      HalfAndNot(w, Mask(k - 1));
      if j > 0 {
        AndNotClearsBit(Half(w), k - 1, j - 1);
      }
    }
  }

  /** Testing a mask tests its bit. */
  lemma {:induction false} HasIsBit(w: Word, k: nat)
    requires k < 32
    ensures Has(w, Mask(k)) <==> Bit(w, k)
    decreases k
  {
    hide Has, Half, Double, Odd, Small, Mask;
    FirstMask();
    if k == 0 {
      HasOne(w);
    } else {
      MaskStep(k);
      HalfHas(w, Mask(k - 1));
      HasIsBit(Half(w), k - 1);
    }
  }

  // ---------------------------------------------------------------------------------------------
  // Packed arrays
  // ---------------------------------------------------------------------------------------------

  /** Register `i` of the packed array. */
  predicate At(words: seq<Word>, i: nat)
    requires i < 32 * |words|
  {
    Bit(words[i / 32], i % 32)
  }

  /** The packed array as the plain array of booleans it stands for. */
  function Bools(words: seq<Word>): (r: seq<bool>)
    ensures |r| == 32 * |words|
  {
    seq(32 * |words|, i requires 0 <= i < 32 * |words| => At(words, i))
  }

  function SetBit(words: seq<Word>, i: nat, b: bool): (r: seq<Word>)
    requires i < 32 * |words|
    ensures |r| == |words|
  {
    var w := words[i / 32];
    words[i / 32 := if b then Or(AndNot(w, Mask(i % 32)), Mask(i % 32)) else AndNot(w, Mask(i % 32))]
  }

  lemma SetBitAt(words: seq<Word>, i: nat, b: bool, j: nat)
    requires i < 32 * |words| && j < 32 * |words|
    ensures At(SetBit(words, i, b), j) == if j == i then b else At(words, j)
  {
    hide Or, AndNot, Mask, Bit;
    if j / 32 == i / 32 {
      var w, m := words[i / 32], Mask(i % 32);
      AndNotClearsBit(w, i % 32, j % 32);
      OrSetsBit(AndNot(w, m), i % 32, j % 32);
    }
  }

  lemma SetBitBools(words: seq<Word>, i: nat, b: bool)
    requires i < 32 * |words|
    ensures Bools(SetBit(words, i, b)) == Bools(words)[i := b]
  {
    hide SetBit, At;
    forall j | 0 <= j < 32 * |words|
      ensures Bools(SetBit(words, i, b))[j] == Bools(words)[i := b][j]
    {
      SetBitAt(words, i, b, j);
    }
  }

  /** Set: the addressed registers take the data, dirty flags are raised for them when recording, and nothing
      else changes. */
  method SetBools(words: array<Word>, start: nat, data: seq<int>, dirty: seq<bool>, recording: bool)
    returns (flags: seq<bool>)
    requires start + |data| <= 32 * words.Length && start + |data| <= |dirty|
    modifies words
    ensures forall j | 0 <= j < 32 * words.Length ::
              Bools(words[..])[j] == if start <= j < start + |data| then data[j - start] != 0 else old(Bools(words[..]))[j]
    ensures |flags| == |dirty|
    ensures forall j | 0 <= j < |dirty| :: flags[j] == (dirty[j] || (recording && start <= j < start + |data|))
  {
    hide SetBit, At, Or, AndNot, Mask;
    ghost var before := words[..];
    flags := dirty;
    var i := 0;
    while i < |data|
      invariant 0 <= i <= |data| && |flags| == |dirty|
      invariant |words[..]| == |before| && |Bools(words[..])| == |Bools(before)|
      invariant forall j | 0 <= j < 32 * words.Length ::
                  Bools(words[..])[j] == if start <= j < start + i then data[j - start] != 0 else Bools(before)[j]
      invariant forall j | 0 <= j < |dirty| :: flags[j] == (dirty[j] || (recording && start <= j < start + i))
    {
      StoreBit(words, start + i, data[i] != 0);
      if recording {
        flags := flags[start + i := true];
      }
      i := i + 1;
    }
  }

  /** One register: clear its bit, and set it again if the value is true. */
  method StoreBit(words: array<Word>, constantIdx: nat, value: bool)
    requires constantIdx < 32 * words.Length
    modifies words
    ensures words[..] == SetBit(old(words[..]), constantIdx, value)
    ensures Bools(words[..]) == old(Bools(words[..]))[constantIdx := value]
  {
    hide Or, AndNot, Mask;
    var arrayIdx, bit := constantIdx / 32, Mask(constantIdx % 32);
    SetBitBools(words[..], constantIdx, value);
    words[arrayIdx] := AndNot(words[arrayIdx], bit);
    if value {
      words[arrayIdx] := Or(words[arrayIdx], bit);
    }
  }

  /** Get: TRUE and FALSE for the addressed registers. */
  method GetBools(words: array<Word>, start: nat, count: nat) returns (data: seq<int>)
    requires start + count <= 32 * words.Length
    ensures |data| == count
    ensures forall i | 0 <= i < count :: data[i] == if Bools(words[..])[start + i] then 1 else 0
  {
    hide Has, Mask, Bit;
    data := [];
    while |data| < count
      invariant |data| <= count
      invariant forall i | 0 <= i < |data| :: data[i] == if Bools(words[..])[start + i] then 1 else 0
    {
      var constantIdx := start + |data|;
      HasIsBit(words[constantIdx / 32], constantIdx % 32);
      data := data + [if Has(words[constantIdx / 32], Mask(constantIdx % 32)) then 1 else 0];
    }
  }

  /** StateTransfer of bool constants: flagged registers are copied, the others keep their value. */
  method TransferBools(flags: seq<bool>, src: array<Word>, dst: array<Word>)
    requires |flags| <= 32 * src.Length && src.Length == dst.Length && src != dst
    modifies dst
    ensures forall j | 0 <= j < 32 * dst.Length ::
              Bools(dst[..])[j] == if j < |flags| && flags[j] then Bools(src[..])[j] else old(Bools(dst[..]))[j]
  {
    hide SetBit, At, Or, AndNot, Mask, Has;
    ghost var before := dst[..];
    var i := 0;
    while i < |flags|
      invariant 0 <= i <= |flags| && src[..] == old(src[..])
      invariant forall j | 0 <= j < 32 * dst.Length ::
                  Bools(dst[..])[j] == if j < i && flags[j] then Bools(src[..])[j] else Bools(before)[j]
    {
      if flags[i] {
        TransferBit(src, dst, i);
      }
      i := i + 1;
    }
  }

  method TransferBit(src: array<Word>, dst: array<Word>, i: nat)
    requires i < 32 * src.Length && src.Length == dst.Length && src != dst
    modifies dst
    ensures Bools(dst[..]) == old(Bools(dst[..]))[i := Bools(src[..])[i]]
  {
    hide Bit, Or, AndNot, Mask, Has;
    var dwordIndex, bitMask := i / 32, Mask(i % 32);
    ghost var before := dst[..];
    HasIsBit(src[dwordIndex], i % 32);
    dst[dwordIndex] := if Has(src[dwordIndex], bitMask) then Or(dst[dwordIndex], bitMask) else AndNot(dst[dwordIndex], bitMask);
    forall j | 0 <= j < 32 * dst.Length
      ensures Bools(dst[..])[j] == Bools(before)[i := Bools(src[..])[i]][j]
    {
      OrSetsBit(before[dwordIndex], i % 32, j % 32);
      AndNotClearsBit(before[dwordIndex], i % 32, j % 32);
    }
  }

  // ---------------------------------------------------------------------------------------------
  // How many registers a call may touch
  // ---------------------------------------------------------------------------------------------

  datatype HResult = D3D_OK | D3DERR_INVALIDCALL

  const UINT_RANGE: int := 0x1_0000_0000

  type Uint = x: int | 0 <= x < UINT_RANGE

  function HardwareRegCount(s: ShaderType, c: ConstantType): nat {
    match c
    case Float => if s == Vertex then 256 else 224
    case Int => 16
    case Bool => 16
  }

  function SoftwareRegCount(s: ShaderType, c: ConstantType): nat {
    match c
    case Float => if s == Vertex then 8192 else 224
    case _ => if s == Vertex then 2048 else 16
  }

  /** The conversion of an unsigned register index to a signed one. */
  function ToInt(x: Uint): int {
    if x < UINT_RANGE / 2 then x else x - UINT_RANGE
  }

  function Max(a: int, b: int): int {
    if a < b then b else a
  }

  function Clamp(x: int, lo: int, hi: int): int {
    if x < lo then lo else if hi < x then hi else x
  }

  /** commonGetSetConstants. The sum wraps around in 32 bits. */
  function CommonGetSetConstants(s: ShaderType, c: ConstantType, start: Uint, hasData: bool, count: Uint): (HResult, int) {
    var sum := (start + count) % UINT_RANGE;
    if sum > SoftwareRegCount(s, c) then (D3DERR_INVALIDCALL, count)
    else
      var adjCount := Max(Clamp(ToInt(sum), 0, HardwareRegCount(s, c)) - ToInt(start), 0);
      (if adjCount > 0 && !hasData then D3DERR_INVALIDCALL else D3D_OK, adjCount)
  }

  /** On success the adjusted count never exceeds the request. It stays within the hardware registers exactly
      when the start register is not one that makes start + count wrap around from the upper half; without
      wrap-around it is the part of the request that the hardware has registers for. */
  lemma AdjustedCount(s: ShaderType, c: ConstantType, start: Uint, hasData: bool, count: Uint)
    ensures var (r, adjCount) := CommonGetSetConstants(s, c, start, hasData, count);
            var n := HardwareRegCount(s, c);
            r == D3D_OK ==>
              && 0 <= adjCount <= count
              && (adjCount == 0 || start + adjCount <= n <==> !(start >= UINT_RANGE / 2 && start + count >= UINT_RANGE))
              && (start + count < UINT_RANGE ==> adjCount == Max(Clamp(start + count, 0, n) - start, 0))
              && (adjCount > 0 ==> hasData)
  {
    var sum := start + count;
    assert sum < UINT_RANGE ==> sum % UINT_RANGE == sum;
    assert sum >= UINT_RANGE ==> sum % UINT_RANGE == sum - UINT_RANGE;
  }

  /** How many registers there are: for vertex shaders 256 float and 16 other constants in hardware, 8192 and 2048
      with software vertex processing; for pixel shaders 224 and 16. */
  lemma RegisterCounts(c: ConstantType)
    ensures HardwareRegCount(Vertex, c) == (if c == Float then 256 else 16)
    ensures SoftwareRegCount(Vertex, c) == (if c == Float then 8192 else 2048)
    ensures HardwareRegCount(Pixel, c) == SoftwareRegCount(Pixel, c) == (if c == Float then 224 else 16)
  {
  }

  /** What is refused, without wrap-around: a range past the software registers, and a call without data that
      would reach at least one hardware register. */
  lemma RefusedExactly(s: ShaderType, c: ConstantType, start: Uint, hasData: bool, count: Uint)
    requires start + count < UINT_RANGE
    ensures CommonGetSetConstants(s, c, start, hasData, count).0 == D3DERR_INVALIDCALL
       <==> start + count > SoftwareRegCount(s, c) || (!hasData && count > 0 && start < HardwareRegCount(s, c))
  {
  }

  /** A call that wraps around: start at the last register, two of them. It succeeds, and its adjusted count
      reaches far past the hardware registers. */
  lemma WrappingCall(s: ShaderType, c: ConstantType)
    ensures CommonGetSetConstants(s, c, 0xFFFF_FFFF, true, 2) == (D3D_OK, 2)
    ensures 0xFFFF_FFFF + 2 > HardwareRegCount(s, c)
  {
    assert (0xFFFF_FFFF + 2) % UINT_RANGE == 1;
  }

  /** Without wrap-around, the registers a successful call addresses lie within the packed arrays. */
  lemma BoolRegistersFit(s: ShaderType, start: Uint, count: Uint)
    requires start + count < UINT_RANGE && CommonGetSetConstants(s, Bool, start, true, count).0 == D3D_OK
    ensures var adjCount := CommonGetSetConstants(s, Bool, start, true, count).1;
            adjCount > 0 ==> start + adjCount <= 16 <= 32 * (if s == Vertex then 2048 / 32 else Max(16 / 32, 1))
  {
    AdjustedCount(s, Bool, start, true, count);
  }
}
