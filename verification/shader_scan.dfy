/**
 Finding the end of a Direct3D shader: the scanner against the grammar of version, instruction, comment and end
 tokens.
 */
module ShaderScan {
  import opened Options

  type Token = x: int | 0 <= x < 0x1_0000_0000

  const D3DSIO_COMMENT: int := 0xFFFE
  const D3DSIO_END: int := 0xFFFF
  const D3DSIO_DEF: int := 0x51
  const D3DSIO_TEXCOORD: int := 0x40
  const D3DSIO_TEX: int := 0x42
  const PS_1_4: Token := 0xFFFF0104

  function Opcode(t: Token): (r: nat) {
    t % 0x10000
  }

  function CommentSize(t: Token): (r: nat) {
    t / 0x10000 % 0x8000
  }

  function InstLength(t: Token): (r: nat) {
    t / 0x100_0000 % 0x10
  }

  function MajorVersion(t: Token): (r: nat) {
    t / 0x100 % 0x100
  }

  function MinorVersion(t: Token): (r: nat) {
    t % 0x100
  }

  /** The masks and shifts of the source on 32-bit registers are the arithmetic used here. */
  lemma MasksAreArithmetic(t: bv32)
    ensures t & 0xFFFF == t % 0x10000
    ensures (t & 0x7FFF0000) >> 16 == t / 0x10000 % 0x8000
    ensures (t & 0x0F000000) >> 24 == t / 0x1000000 % 0x10
  {
  }

  /** A token put together from its fields is read back field by field: an opcode below a comment size and one flag
      bit, or below a byte, an instruction length and four flag bits. */
  lemma FieldsOfToken(opcode: nat, size: nat, bit: nat, byte: nat, length: nat, bits: nat)
    requires opcode < 0x1_0000 && size < 0x8000 && bit < 2 && byte < 0x100 && length < 0x10 && bits < 0x10
    ensures var t: int := opcode + 0x1_0000 * size + 0x8000_0000 * bit;
            t < 0x1_0000_0000 && Opcode(t) == opcode && CommentSize(t) == size
    ensures var t: int := opcode + 0x1_0000 * byte + 0x100_0000 * length + 0x1000_0000 * bits;
            t < 0x1_0000_0000 && Opcode(t) == opcode && InstLength(t) == length
  {
    var t: int := opcode + 0x1_0000 * size + 0x8000_0000 * bit;
    assert t / 0x1_0000 == size + 0x8000 * bit;
    var u: int := opcode + 0x1_0000 * byte + 0x100_0000 * length + 0x1000_0000 * bits;
    assert u / 0x100_0000 == length + 0x10 * bits;
  }

  /** And a version token: minor below major. */
  lemma FieldsOfVersion(minor: nat, major: nat, kind: nat)
    requires minor < 0x100 && major < 0x100 && kind < 0x1_0000
    ensures var t: int := minor + 0x100 * major + 0x1_0000 * kind;
            t < 0x1_0000_0000 && MinorVersion(t) == minor && MajorVersion(t) == major
  {
    var t: int := minor + 0x100 * major + 0x1_0000 * kind;
    assert t / 0x100 == major + 0x100 * kind;
  }

  /** The size of an instruction of a version 1 shader, by opcode. */
  function SizeOfOpcode(opcode: nat): (r: nat)
    ensures r >= 1
  {
    match opcode
    case 0x00 => 1 case 0x01 => 3 case 0x02 => 4 case 0x03 => 4 case 0x04 => 5 case 0x05 => 4 case 0x06 => 3 case 0x07 => 3
    case 0x08 => 4 case 0x09 => 4 case 0x0A => 4 case 0x0B => 4 case 0x0C => 4 case 0x0D => 4 case 0x0E => 3 case 0x0F => 3
    case 0x10 => 3 case 0x11 => 4 case 0x12 => 5 case 0x13 => 3 case 0x14 => 4 case 0x15 => 4 case 0x16 => 4 case 0x17 => 4
    case 0x18 => 4 case 0x19 => 2 case 0x1A => 3 case 0x1B => 3 case 0x1C => 1 case 0x1D => 1 case 0x1E => 2 case 0x1F => 3
    case 0x20 => 4 case 0x21 => 4 case 0x22 => 5 case 0x23 => 3 case 0x24 => 3 case 0x25 => 5 case 0x26 => 2 case 0x27 => 1
    case 0x28 => 2 case 0x29 => 3 case 0x2A => 1 case 0x2B => 1 case 0x2C => 1 case 0x2D => 3 case 0x2E => 3 case 0x2F => 3
    case 0x30 => 5 case 0x40 => 2 case 0x41 => 2 case 0x42 => 2 case 0x43 => 3 case 0x44 => 3 case 0x45 => 3 case 0x46 => 3
    case 0x47 => 3 case 0x48 => 3 case 0x49 => 3 case 0x4A => 3 case 0x4C => 4 case 0x4D => 3 case 0x4E => 3 case 0x4F => 3
    case 0x50 => 5 case 0x51 => 5 case 0x52 => 3 case 0x53 => 3 case 0x54 => 3 case 0x55 => 3 case 0x56 => 3 case 0x57 => 2
    case 0x58 => 5 case 0x59 => 4 case 0x5A => 5 case 0x5B => 3 case 0x5C => 3 case 0x5D => 5 case 0x5E => 4 case 0x5F => 4
    case 0x60 => 3
    case _ => 1
  }

  /** getShaderInstructionSize */
  function InstructionSize(major: nat, t: Token): (r: nat)
    ensures r >= 1
  {
    if Opcode(t) == D3DSIO_COMMENT then CommentSize(t) + 1
    else if major >= 2 then InstLength(t) + 1
    else SizeOfOpcode(Opcode(t))
  }

  /** Where the scan that has reached `pos` finds the end token, None if it runs off the tokens. */
  function Scan(major: nat, tokens: seq<Token>, pos: nat): (r: Option<nat>)
    ensures r.Some? ==> pos <= r.value < |tokens| && Opcode(tokens[r.value]) == D3DSIO_END
    decreases |tokens| - pos
  {
    if pos >= |tokens| then None
    else if Opcode(tokens[pos]) == D3DSIO_END then Some(pos)
    else Scan(major, tokens, pos + InstructionSize(major, tokens[pos]))
  }

  // ---------------------------------------------------------------------------------------------
  // The grammar
  // ---------------------------------------------------------------------------------------------

  /** An instruction or a comment: its head token and the tokens that belong to it. */
  datatype Item = Item(head: Token, body: seq<Token>)

  datatype Shader = Shader(version: Token, items: seq<Item>, end: Token)

  function Flatten(items: seq<Item>): seq<Token> {
    if items == [] then [] else [items[0].head] + items[0].body + Flatten(items[1..])
  }

  function Encode(s: Shader): seq<Token> {
    [s.version] + Flatten(s.items) + [s.end]
  }

  /** An item as long as the scanner takes it to be. Nothing is asked of the tokens in its body. */
  predicate ScannerItem(major: nat, i: Item) {
    Opcode(i.head) != D3DSIO_END && |i.body| == InstructionSize(major, i.head) - 1
  }

  predicate ScannerShader(s: Shader) {
    && (forall k | 0 <= k < |s.items| :: ScannerItem(MajorVersion(s.version), s.items[k]))
    && Opcode(s.end) == D3DSIO_END
  }

  /** What the shader code reference has after an instruction token of a version 1 shader: destination and source
      parameters, and tokens that are neither, the usage of dcl and the constants of def. */
  datatype Layout = Layout(destinations: nat, sources: nat, others: nat)

  /** The instructions of vertex shaders 1.1 and pixel shaders 1.1 to 1.4. */
  function VersionOneLayout(version: Token, opcode: nat): Option<Layout> {
    match opcode
    case 0x00 => Some(Layout(0, 0, 0))                                     // nop
    case 0x01 => Some(Layout(1, 1, 0))                                     // mov
    case 0x02 => Some(Layout(1, 2, 0)) case 0x03 => Some(Layout(1, 2, 0))  // add, sub
    case 0x04 => Some(Layout(1, 3, 0)) case 0x05 => Some(Layout(1, 2, 0))  // mad, mul
    case 0x06 => Some(Layout(1, 1, 0)) case 0x07 => Some(Layout(1, 1, 0))  // rcp, rsq
    case 0x08 => Some(Layout(1, 2, 0)) case 0x09 => Some(Layout(1, 2, 0))  // dp3, dp4
    case 0x0A => Some(Layout(1, 2, 0)) case 0x0B => Some(Layout(1, 2, 0))  // min, max
    case 0x0C => Some(Layout(1, 2, 0)) case 0x0D => Some(Layout(1, 2, 0))  // slt, sge
    case 0x0E => Some(Layout(1, 1, 0)) case 0x0F => Some(Layout(1, 1, 0))  // exp, log
    case 0x10 => Some(Layout(1, 1, 0)) case 0x11 => Some(Layout(1, 2, 0))  // lit, dst
    case 0x12 => Some(Layout(1, 3, 0)) case 0x13 => Some(Layout(1, 1, 0))  // lrp, frc
    case 0x14 => Some(Layout(1, 2, 0)) case 0x15 => Some(Layout(1, 2, 0))  // m4x4, m4x3
    case 0x16 => Some(Layout(1, 2, 0)) case 0x17 => Some(Layout(1, 2, 0))  // m3x4, m3x3
    case 0x18 => Some(Layout(1, 2, 0)) case 0x1F => Some(Layout(1, 0, 1))  // m3x2, dcl
    case 0x40 => Some(Layout(1, if version == PS_1_4 then 1 else 0, 0))    // texcoord, texcrd
    case 0x41 => Some(Layout(1, 0, 0))                                     // texkill
    case 0x42 => Some(Layout(1, if version == PS_1_4 then 1 else 0, 0))    // tex, texld
    case 0x43 => Some(Layout(1, 1, 0)) case 0x44 => Some(Layout(1, 1, 0))  // texbem, texbeml
    case 0x45 => Some(Layout(1, 1, 0)) case 0x46 => Some(Layout(1, 1, 0))  // texreg2ar, texreg2gb
    case 0x47 => Some(Layout(1, 1, 0)) case 0x48 => Some(Layout(1, 1, 0))  // texm3x2pad, texm3x2tex
    case 0x49 => Some(Layout(1, 1, 0)) case 0x4A => Some(Layout(1, 1, 0))  // texm3x3pad, texm3x3tex
    case 0x4C => Some(Layout(1, 2, 0)) case 0x4D => Some(Layout(1, 1, 0))  // texm3x3spec, texm3x3vspec
    case 0x4E => Some(Layout(1, 1, 0)) case 0x4F => Some(Layout(1, 1, 0))  // expp, logp
    case 0x50 => Some(Layout(1, 3, 0)) case 0x51 => Some(Layout(1, 0, 4))  // cnd, def
    case 0x52 => Some(Layout(1, 1, 0)) case 0x53 => Some(Layout(1, 1, 0))  // texreg2rgb, texdp3tex
    case 0x54 => Some(Layout(1, 1, 0)) case 0x55 => Some(Layout(1, 1, 0))  // texm3x2depth, texdp3
    case 0x56 => Some(Layout(1, 1, 0)) case 0x57 => Some(Layout(1, 0, 0))  // texm3x3, texdepth
    case 0x58 => Some(Layout(1, 3, 0)) case 0x59 => Some(Layout(1, 2, 0))  // cmp, bem
    case 0xFFFD => Some(Layout(0, 0, 0))                                   // phase
    case _ => None
  }

  /** How many tokens belong to a head token, None if no instruction starts with it. From version 2 on the
      instruction token says how many there are; before, the instruction does. */
  function Operands(version: Token, t: Token): Option<nat> {
    if Opcode(t) == D3DSIO_COMMENT then Some(CommentSize(t))
    else if MajorVersion(version) >= 2 then Some(InstLength(t))
    else
      match VersionOneLayout(version, Opcode(t))
      case Some(l) => Some(l.destinations + l.sources + l.others)
      case None => None
  }

  /** The version 1 instructions that the scanner's table makes one token too short: def, and in pixel shaders 1.4
      texcrd and texld. */
  predicate Undersized(version: Token, opcode: nat) {
    && MajorVersion(version) < 2
    && (opcode == D3DSIO_DEF || (version == PS_1_4 && (opcode == D3DSIO_TEXCOORD || opcode == D3DSIO_TEX)))
  }

  /** The scanner's table against the reference: it is right for every instruction of version 1 except exactly
      the undersized ones, for which it is one short. */
  lemma TableAgainstReference(version: Token, opcode: nat)
    requires MajorVersion(version) < 2 && VersionOneLayout(version, opcode).Some?
    ensures var l := VersionOneLayout(version, opcode).value;
            && SizeOfOpcode(opcode) <= 1 + l.destinations + l.sources + l.others <= SizeOfOpcode(opcode) + 1
            && (SizeOfOpcode(opcode) == 1 + l.destinations + l.sources + l.others <==> !Undersized(version, opcode))
  {
  }

  /** An item of a well-formed shader by the reference. */
  predicate WellFormedItem(version: Token, i: Item) {
    Opcode(i.head) != D3DSIO_END && Operands(version, i.head) == Some(|i.body|)
  }

  /** How the scanner's size relates to it below version 2. */
  lemma WellFormedSize(version: Token, i: Item)
    requires WellFormedItem(version, i) && MajorVersion(version) < 2
    ensures InstructionSize(1, i.head) == |i.body| + (if Undersized(version, Opcode(i.head)) then 0 else 1)
  {
    hide SizeOfOpcode, VersionOneLayout;
    if Opcode(i.head) != D3DSIO_COMMENT {
      TableAgainstReference(version, Opcode(i.head));
    }
  }

  predicate WellFormed(s: Shader) {
    && (forall k | 0 <= k < |s.items| :: WellFormedItem(s.version, s.items[k]))
    && Opcode(s.end) == D3DSIO_END
  }

  // ---------------------------------------------------------------------------------------------
  // The scanner recognises exactly its grammar
  // ---------------------------------------------------------------------------------------------

  lemma Regroup(a: seq<Token>, b: seq<Token>, c: seq<Token>, d: seq<Token>, e: seq<Token>)
    ensures a + (b + c + d) + e == (a + b + c) + d + e
  {
  }

  lemma ScanStepsOver(major: nat, before: seq<Token>, i: Item, rest: seq<Token>)
    requires ScannerItem(major, i)
    ensures Scan(major, before + [i.head] + i.body + rest, |before|)
         == Scan(major, before + [i.head] + i.body + rest, |before + [i.head] + i.body|)
  {
    hide InstructionSize, Opcode;
    assert (before + [i.head] + i.body + rest)[|before|] == i.head;
  }

  /** The scan passes over items without looking inside them. */
  lemma {:induction false} ScanPasses(major: nat, before: seq<Token>, items: seq<Item>, after: seq<Token>)
    requires forall k | 0 <= k < |items| :: ScannerItem(major, items[k])
    ensures Scan(major, before + Flatten(items) + after, |before|)
         == Scan(major, before + Flatten(items) + after, |before| + |Flatten(items)|)
    decreases items
  {
    hide ScannerItem, Scan;
    if items != [] {
      var i, flat := items[0], Flatten(items[1..]);
      var next := before + [i.head] + i.body;
      Regroup(before, [i.head], i.body, flat, after);
      assert next + (flat + after) == next + flat + after;
      ScanStepsOver(major, before, i, flat + after);
      ScanPasses(major, next, items[1..], after);
    }
  }

  /** Whatever tokens follow and whatever the operands and comments contain, the scan stops at the end token. */
  lemma ScanFindsEnd(s: Shader, tail: seq<Token>)
    requires ScannerShader(s)
    ensures Scan(MajorVersion(s.version), Encode(s) + tail, 1) == Some(|Encode(s)| - 1)
  {
    hide ScannerItem, InstructionSize, Opcode, MajorVersion, Flatten;
    var tokens := Encode(s) + tail;
    assert tokens == [s.version] + Flatten(s.items) + ([s.end] + tail);
    ScanPasses(MajorVersion(s.version), [s.version], s.items, [s.end] + tail);
    assert tokens[1 + |Flatten(s.items)|] == s.end;
  }

  /** The items the scan passes on its way from `pos` to the end token. */
  function ItemsFrom(major: nat, tokens: seq<Token>, pos: nat): (r: seq<Item>)
    requires Scan(major, tokens, pos).Some?
    decreases |tokens| - pos
  {
    if Opcode(tokens[pos]) == D3DSIO_END then []
    else
      var next := pos + InstructionSize(major, tokens[pos]);
      [Item(tokens[pos], tokens[pos + 1..next])] + ItemsFrom(major, tokens, next)
  }

  lemma {:induction false} ItemsAreTokens(major: nat, tokens: seq<Token>, pos: nat)
    requires Scan(major, tokens, pos).Some?
    ensures Flatten(ItemsFrom(major, tokens, pos)) == tokens[pos..Scan(major, tokens, pos).value]
    ensures forall k | 0 <= k < |ItemsFrom(major, tokens, pos)| :: ScannerItem(major, ItemsFrom(major, tokens, pos)[k])
    decreases |tokens| - pos
  {
    hide InstructionSize, Opcode;
    if Opcode(tokens[pos]) != D3DSIO_END {
      var next := pos + InstructionSize(major, tokens[pos]);
      var first := Item(tokens[pos], tokens[pos + 1..next]);
      var rest := ItemsFrom(major, tokens, next);
      ItemsAreTokens(major, tokens, next);
      var items := ItemsFrom(major, tokens, pos);
      assert items == [first] + rest && items[1..] == rest;
      var end := Scan(major, tokens, pos).value;
      hide ItemsFrom, Scan;
      SplitTokens(tokens, pos, next, end);
    }
  }

  lemma SplitTokens(tokens: seq<Token>, pos: nat, next: nat, end: nat)
    requires pos < next <= end <= |tokens|
    ensures tokens[pos..end] == [tokens[pos]] + tokens[pos + 1..next] + tokens[next..end]
  {
  }

  /** The shader the scan found. */
  function Found(tokens: seq<Token>): Shader
    requires tokens != [] && Scan(MajorVersion(tokens[0]), tokens, 1).Some?
  {
    var end := Scan(MajorVersion(tokens[0]), tokens, 1).value;
    Shader(tokens[0], ItemsFrom(MajorVersion(tokens[0]), tokens, 1), tokens[end])
  }

  /** Conversely, when the scan stops, what it passed over is a shader of the grammar. */
  lemma ScanOnlyAccepts(tokens: seq<Token>)
    requires tokens != [] && Scan(MajorVersion(tokens[0]), tokens, 1).Some?
    ensures ScannerShader(Found(tokens))
    ensures Encode(Found(tokens)) == tokens[..Scan(MajorVersion(tokens[0]), tokens, 1).value + 1]
  {
    hide ItemsFrom, ScannerItem, Opcode, Flatten;
    var end := Scan(MajorVersion(tokens[0]), tokens, 1).value;
    ItemsAreTokens(MajorVersion(tokens[0]), tokens, 1);
    assert tokens[..end + 1] == [tokens[0]] + tokens[1..end] + [tokens[end]];
  }

  // ---------------------------------------------------------------------------------------------
  // The reference grammar
  // ---------------------------------------------------------------------------------------------

  /** From version 2 on, the scanner's grammar is the reference. */
  lemma ReferenceFromVersion2(s: Shader)
    requires MajorVersion(s.version) >= 2
    ensures WellFormed(s) <==> ScannerShader(s)
  {
  }

  /** A token the version 1 scanner steps over alone when it meets it where it expects an instruction. */
  predicate Inert(t: Token) {
    Opcode(t) != D3DSIO_END && InstructionSize(1, t) == 1
  }

  /** The last operand of every undersized instruction is inert. */
  predicate LastOperandsInert(version: Token, items: seq<Item>) {
    forall k | 0 <= k < |items| :: LastOperandInert(version, items[k])
  }

  predicate LastOperandInert(version: Token, i: Item) {
    Undersized(version, Opcode(i.head)) && i.body != [] ==> Inert(i.body[|i.body| - 1])
  }

  lemma VersionOneSize(major: nat, t: Token)
    requires major < 2
    ensures InstructionSize(major, t) == InstructionSize(1, t)
  {
  }

  /** The scanner sees an undersized instruction without its last operand, and that as an instruction. */
  function AsScanned(version: Token, items: seq<Item>): seq<Item> {
    if items == [] then []
    else Cut(version, items[0]) + AsScanned(version, items[1..])
  }

  function Cut(version: Token, i: Item): seq<Item> {
    var n := |i.body| - 1;
    if Undersized(version, Opcode(i.head)) && i.body != [] then [Item(i.head, i.body[..n]), Item(i.body[n], [])] else [i]
  }

  lemma FlattenConcat(a: seq<Item>, b: seq<Item>)
    ensures Flatten(a + b) == Flatten(a) + Flatten(b)
    decreases a
  {
    if a == [] {
      assert a + b == b;
    } else {
      assert (a + b)[1..] == a[1..] + b;
      FlattenConcat(a[1..], b);
    }
  }

  lemma CutSameTokens(version: Token, i: Item)
    ensures Flatten(Cut(version, i)) == [i.head] + i.body
  {
    hide Undersized, Opcode;
    FlattenOne(i);
    if i.body != [] {
      var n := |i.body| - 1;
      FlattenTwo(Item(i.head, i.body[..n]), Item(i.body[n], []));
      assert i.body == i.body[..n] + [i.body[n]];
    }
  }

  lemma FlattenTwo(a: Item, b: Item)
    ensures Flatten([a, b]) == [a.head] + a.body + [b.head] + b.body
  {
    assert [a, b][1..] == [b];
    FlattenOne(b);
  }

  lemma {:induction false} AsScannedSameTokens(version: Token, items: seq<Item>)
    ensures Flatten(AsScanned(version, items)) == Flatten(items)
    decreases items
  {
    hide Cut;
    if items != [] {
      AsScannedSameTokens(version, items[1..]);
      CutSameTokens(version, items[0]);
      FlattenConcat(Cut(version, items[0]), AsScanned(version, items[1..]));
    }
  }

  lemma CutIsScanned(version: Token, i: Item)
    requires MajorVersion(version) < 2 && WellFormedItem(version, i) && LastOperandInert(version, i)
    ensures forall k | 0 <= k < |Cut(version, i)| :: ScannerItem(MajorVersion(version), Cut(version, i)[k])
  {
    hide InstructionSize, VersionOneLayout;
    WellFormedSize(version, i);
    VersionOneSize(MajorVersion(version), i.head);
    if i.body != [] {
      VersionOneSize(MajorVersion(version), i.body[|i.body| - 1]);
    }
  }

  lemma {:induction false} AsScannedIsScanned(version: Token, items: seq<Item>)
    requires MajorVersion(version) < 2 && LastOperandsInert(version, items)
    requires forall k | 0 <= k < |items| :: WellFormedItem(version, items[k])
    ensures forall k | 0 <= k < |AsScanned(version, items)| :: ScannerItem(MajorVersion(version), AsScanned(version, items)[k])
    decreases items
  {
    hide Cut, ScannerItem, WellFormedItem, LastOperandInert, MajorVersion;
    if items != [] {
      assert forall k | 0 <= k < |items[1..]| :: items[1..][k] == items[k + 1];
      AsScannedIsScanned(version, items[1..]);
      CutIsScanned(version, items[0]);
    }
  }

  /** For every well-formed shader, whatever follows it, the scan returns exactly its length: always from
      version 2 on, and before that if the last operand of every undersized instruction is inert. */
  lemma ScanOfWellFormed(s: Shader, tail: seq<Token>)
    requires WellFormed(s) && (MajorVersion(s.version) < 2 ==> LastOperandsInert(s.version, s.items))
    ensures Scan(MajorVersion(s.version), Encode(s) + tail, 1) == Some(|Encode(s)| - 1)
  {
    if MajorVersion(s.version) >= 2 {
      ScanFindsEnd(s, tail);
    } else {
      AsScannedSameTokens(s.version, s.items);
      AsScannedIsScanned(s.version, s.items);
      ScanFindsEnd(s.(items := AsScanned(s.version, s.items)), tail);
    }
  }

  /** The last operand of item `k`, which the scanner reads as an instruction. */
  function LastOperand(s: Shader, k: nat): Token
    requires k < |s.items| && s.items[k].body != []
  {
    s.items[k].body[|s.items[k].body| - 1]
  }

  /** The first last operand that is not inert decides what happens: the scan reaches it as an instruction. If it
      looks like an end token the scan stops there, short of the shader's end, whatever follows; otherwise it
      skips the tokens after it by the size of that instruction. */
  lemma FirstLooseOperand(s: Shader, k: nat, tail: seq<Token>)
    requires WellFormed(s) && k < |s.items| && LastOperandsInert(s.version, s.items[..k])
    requires Undersized(s.version, Opcode(s.items[k].head))
    ensures s.items[k].body != []
    ensures var at := |Flatten(s.items[..k])| + |s.items[k].body| + 1;
            var r := Scan(MajorVersion(s.version), Encode(s) + tail, 1);
            && at < |Encode(s)| - 1 && Encode(s)[at] == LastOperand(s, k)
            && (Opcode(LastOperand(s, k)) == D3DSIO_END ==> r == Some(at))
            && (Opcode(LastOperand(s, k)) != D3DSIO_END ==>
                  r == Scan(MajorVersion(s.version), Encode(s) + tail, at + InstructionSize(1, LastOperand(s, k))))
  {
    hide InstructionSize, Opcode, Encode, MajorVersion, WellFormed, LastOperandsInert, Undersized;
    var head := UpToOperand(s, k, tail);
    var tokens := Encode(s) + tail;
    assert tokens[|head|] == LastOperand(s, k);
    VersionOneSize(MajorVersion(s.version), LastOperand(s, k));
  }

  /** For an undersized instruction right before the end token the condition is exact: the scan returns the
      shader's length if and only if the last operand is inert. */
  lemma LastInstructionExactly(s: Shader, tail: seq<Token>)
    requires WellFormed(s) && s.items != []
    requires LastOperandsInert(s.version, s.items[..|s.items| - 1])
    requires Undersized(s.version, Opcode(s.items[|s.items| - 1].head))
    ensures Scan(MajorVersion(s.version), Encode(s) + tail, 1) == Some(|Encode(s)| - 1)
            <==> LastOperandInert(s.version, s.items[|s.items| - 1])
  {
    var major, n := MajorVersion(s.version), |s.items| - 1;
    hide InstructionSize, Opcode, Scan, Inert, Encode, MajorVersion, WellFormed, LastOperandsInert, Undersized;
    var head := UpToOperand(s, n, tail);
    assert s.items[n + 1..] == [];
    var tokens := Encode(s) + tail;
    assert tokens[|head|] == LastOperand(s, n) && tokens[|head| + 1] == s.end && |head| + 2 == |Encode(s)|;
    EndIsEnd(s);
    ScanOneMore(major, tokens, |head|);
  }

  lemma EndIsEnd(s: Shader)
    requires WellFormed(s)
    ensures Opcode(s.end) == D3DSIO_END
  {
  }

  /** Scanning on from a token right before the end token. */
  lemma ScanOneMore(major: nat, tokens: seq<Token>, pos: nat)
    requires major < 2 && pos + 1 < |tokens| && Opcode(tokens[pos + 1]) == D3DSIO_END
    ensures Scan(major, tokens, pos) == Some(pos + 1) <==> Inert(tokens[pos])
  {
    VersionOneSize(major, tokens[pos]);
    hide SizeOfOpcode;
    assert Scan(major, tokens, pos + 1) == Some(pos + 1);
  }

  /** The scan reaches the last operand of item `k`. */
  lemma UpToOperand(s: Shader, k: nat, tail: seq<Token>) returns (head: seq<Token>)
    requires WellFormed(s) && k < |s.items| && LastOperandsInert(s.version, s.items[..k])
    requires Undersized(s.version, Opcode(s.items[k].head))
    ensures s.items[k].body != [] && MajorVersion(s.version) < 2
    ensures Encode(s) == head + [LastOperand(s, k)] + Flatten(s.items[k + 1..]) + [s.end]
    ensures |head| == |Flatten(s.items[..k])| + |s.items[k].body| + 1
    ensures Scan(MajorVersion(s.version), Encode(s) + tail, 1)
         == Scan(MajorVersion(s.version), Encode(s) + tail, |head|)
  {
    hide InstructionSize, Opcode, Scan, ScannerItem, WellFormedItem, AsScanned, MajorVersion, LastOperandInert, Encode, Flatten, Undersized;
    var before, i, after := s.items[..k], s.items[k], s.items[k + 1..];
    assert WellFormedItem(s.version, i);
    ShortIsScanned(s.version, i);
    AsScannedIsScanned(s.version, before);
    var m := |i.body| - 1;
    var scanned := AsScanned(s.version, before) + [Item(i.head, i.body[..m])];
    assert s.items == before + [i] + after;
    SplitAtOperand(s.version, before, i, after, s.end);
    head := [s.version] + Flatten(scanned);
    var rest := [i.body[m]] + Flatten(after) + [s.end] + tail;
    assert Encode(s) + tail == head + rest;
    ScanPasses(MajorVersion(s.version), [s.version], scanned, rest);
  }

  lemma ShortIsScanned(version: Token, i: Item)
    requires WellFormedItem(version, i) && Undersized(version, Opcode(i.head))
    ensures MajorVersion(version) < 2 && i.body != []
    ensures ScannerItem(MajorVersion(version), Item(i.head, i.body[..|i.body| - 1]))
  {
    hide InstructionSize, VersionOneLayout;
    WellFormedSize(version, i);
    VersionOneSize(MajorVersion(version), i.head);
  }

  lemma SplitAtOperand(version: Token, before: seq<Item>, i: Item, after: seq<Item>, end: Token)
    requires i.body != []
    ensures var m := |i.body| - 1;
            var scanned := AsScanned(version, before) + [Item(i.head, i.body[..m])];
            && Encode(Shader(version, before + [i] + after, end))
               == [version] + Flatten(scanned) + [i.body[m]] + Flatten(after) + [end]
            && |Flatten(scanned)| == |Flatten(before)| + |i.body|
  {
    hide AsScanned, Flatten;
    var m := |i.body| - 1;
    var short := Item(i.head, i.body[..m]);
    AsScannedSameTokens(version, before);
    FlattenConcat(before + [i], after);
    FlattenConcat(before, [i]);
    FlattenConcat(AsScanned(version, before), [short]);
    FlattenOne(i);
    FlattenOne(short);
    assert i.body == i.body[..m] + [i.body[m]];
  }

  lemma FlattenOne(i: Item)
    ensures Flatten([i]) == [i.head] + i.body
  {
    assert [i][1..] == [];
  }

  /** A well-formed ps_1_1 shader the scanner cuts short: the last constant of its DEF looks like an end token. */
  lemma DefCutsShort()
    ensures var s := Shader(0xFFFF0101, [Item(0x51, [0xA00F0000, 0, 0, 0, 0x3F80FFFF])], 0xFFFF);
            && WellFormed(s)
            && |Encode(s)| == 8
            && Scan(1, Encode(s), 1) == Some(6)
  {
    var def := Item(0x51, [0xA00F0000, 0, 0, 0, 0x3F80FFFF]);
    var s := Shader(0xFFFF0101, [def], 0xFFFF);
    FlattenOne(def);
    var t := Encode(s);
    assert t == [0xFFFF0101, 0x51, 0xA00F0000, 0, 0, 0, 0x3F80FFFF, 0xFFFF];
    assert InstructionSize(1, t[1]) == 5;
    assert Opcode(t[6]) == D3DSIO_END;
    assert Scan(1, t, 6) == Some(6);
  }

  /** A well-formed ps_1_4 shader, texld r0, t1, whose end token the scanner steps over: it takes the source
      register for a three-token instruction. */
  lemma TexldOverruns()
    ensures var s := Shader(PS_1_4, [Item(0x42, [0x800F0000, 0xB0E40001])], 0xFFFF);
            WellFormed(s) && Scan(1, Encode(s), 1) == None
  {
    var texld := Item(0x42, [0x800F0000, 0xB0E40001]);
    var s := Shader(PS_1_4, [texld], 0xFFFF);
    FlattenOne(texld);
    var t := Encode(s);
    assert t == [0xFFFF0104, 0x42, 0x800F0000, 0xB0E40001, 0xFFFF];
    assert InstructionSize(1, t[1]) == 2;
    assert Opcode(t[3]) == 1 && InstructionSize(1, t[3]) == 3;
    assert Scan(1, t, 6) == None;
  }

  // ---------------------------------------------------------------------------------------------
  // CommonShader
  // ---------------------------------------------------------------------------------------------

  class CommonShader {
    var code: seq<Token>
    var majorVersion: nat
    var minorVersion: nat

    /** The constructor analyzes the function and copies exactly the tokens up to its end. */
    constructor (function_: array<Token>)
      requires function_.Length > 0
      requires Scan(MajorVersion(function_[0]), function_[..], 1).Some?
      ensures majorVersion == MajorVersion(function_[0]) && minorVersion == MinorVersion(function_[0])
      ensures code == function_[..Scan(majorVersion, function_[..], 1).value + 1]
    {
      var size := GetShaderByteSize(MajorVersion(function_[0]), function_);
      majorVersion, minorVersion := MajorVersion(function_[0]), MinorVersion(function_[0]);
      code := function_[..size / 4];
    }
  }

  /** getShaderByteSize, for a function whose end token the scan reaches. */
  method GetShaderByteSize(major: nat, tokens: array<Token>) returns (size: nat)
    requires tokens.Length > 0 && Scan(major, tokens[..], 1).Some?
    ensures size == 4 * (Scan(major, tokens[..], 1).value + 1)
  {
    var pos := 1;
    while Opcode(tokens[pos]) != D3DSIO_END
      invariant pos < tokens.Length && Scan(major, tokens[..], pos) == Scan(major, tokens[..], 1)
      decreases tokens.Length - pos
    {
      pos := pos + InstructionSize(major, tokens[pos]);
    }
    size := (pos + 1) * 4;
  }
}
