/** What each setter call leaves in each slot, stated outright, for direct and for recorded calls. */
module SetterEffects {
  import opened Options
  import opened DeviceState

  /** Nothing outside of `touched` reads differently. */
  ghost predicate Untouched(before: Slot -> Value, after: Slot -> Value, touched: set<Slot>) {
    forall s {:trigger after(s)} | s !in touched :: after(s) == before(s)
  }

  /** View, projection, eight texture and 256 world transforms. */
  predicate TransformType(t: nat) {
    t == 2 || t == 3 || 16 <= t <= 23 || 256 <= t <= 511
  }

  /** Sixteen pixel shader samplers, the displacement map sampler and four vertex shader samplers. */
  predicate SamplerNumber(s: nat) {
    s <= 15 || 256 <= s <= 260
  }

  predicate IsMatrix(v: Value) {
    v.Matrix? && |v.m| == 16
  }

  /** `r` is the matrix product of `a` and `b`, in this order: each cell is a row of `a` times a column of `b`. */
  predicate IsProduct(a: seq<real>, b: seq<real>, r: seq<real>)
    requires |a| == 16 && |b| == 16
  {
    |r| == 16 && forall i, j | 0 <= i < 4 && 0 <= j < 4 :: CellIs(a, b, r, i, j)
  }

  predicate CellIs(a: seq<real>, b: seq<real>, r: seq<real>, i: nat, j: nat)
    requires |a| == 16 && |b| == 16 && |r| == 16 && i < 4 && j < 4
  {
    r[i * 4 + j] == a[i * 4] * b[j] + a[i * 4 + 1] * b[4 + j] + a[i * 4 + 2] * b[8 + j] + a[i * 4 + 3] * b[12 + j]
  }

  /** If the slots read as `before`, they read as `after` once call `c` has been made. */
  ghost predicate Leaves(c: Call, before: Slot -> Value, after: Slot -> Value) {
    match c
    case SetTransform(t, v) =>
      if !TransformType(t) then Untouched(before, after, {})
      else var s := Transform(MapXformStateTypeToIdx(t)); after(s) == v && Untouched(before, after, {s})
    case MultiplyTransform(t, v) =>
      if !TransformType(t) then Untouched(before, after, {})
      else
        var s := Transform(MapXformStateTypeToIdx(t));
        && Untouched(before, after, {s})
        && (IsMatrix(before(s)) && IsMatrix(v) ==> IsMatrix(after(s)) && IsProduct(before(s).m, v.m, after(s).m))
    case SetSlot(slot, v) =>
      if slot.Viewport? || slot.Material? || slot.Light? || slot.ClipPlane? || slot.RenderState? || slot.ScissorRect?
         || slot.VertexShader? || slot.PixelShader? || slot.Indices? || slot.StreamFreq?
      then after(slot) == v && Untouched(before, after, {slot})
      else Untouched(before, after, {})
    case EnableLight(i, b) =>
      && after(LightEnable(i)) == (if b == 0 then Number(0) else Number(1))
      && Untouched(before, after, {LightEnable(i)})
    case SetTexture(stage, texture, resourceType) =>
      if !SamplerNumber(stage) then Untouched(before, after, {})
      else
        var k := if stage <= 15 then stage else stage - 240;
        && (texture.Some? ==> after(Texture(k)) == Number(texture.value) && after(TextureType(k)) == Number(resourceType))
        && (texture.None? ==> after(Texture(k)) == Number(-1) && after(TextureType(k)) == Number(0x7FFF_FFFF))
        && Untouched(before, after, {Texture(k), TextureType(k)})
    case SetTextureStageState(stage, t, v) =>
      if stage >= 8 || t !in {1, 2, 3, 4, 5, 6, 7, 8, 9, 10, 11, 22, 23, 24, 26, 27, 28, 32} then Untouched(before, after, {})
      else
        exists j: nat :: after(TextureStage(stage, j)) == v && Untouched(before, after, {TextureStage(stage, j)})
                         && TexStageStateTypeToIdx(t) == Some(j)
    case SetSamplerState(sampler, t, v) =>
      if !SamplerNumber(sampler) || t < 1 || t > 14 then Untouched(before, after, {})
      else
        var s := Sampler(if sampler <= 15 then sampler else sampler - 240, t - 1);
        after(s) == v && Untouched(before, after, {s})
    case SetStreamSource(n, buffer, offset, stride) =>
      && (buffer.Some? ==>
            && after(Stream(n)) == Number(buffer.value)
            && after(StreamOffset(n)) == Number(offset) && after(StreamStride(n)) == Number(stride)
            && Untouched(before, after, {Stream(n), StreamOffset(n), StreamStride(n)}))
      && (buffer.None? ==> after(Stream(n)) == Number(-1) && Untouched(before, after, {Stream(n)}))
    case SetConstants(shader, kind, start, values) =>
      && (forall k: nat | k < |values| :: after(Constant(shader, kind, start + k)) == values[k])
      && (forall s: Slot {:trigger after(s)} | !(s.Constant? && s.shader == shader && s.kind == kind && start <= s.i < start + |values|) ::
            after(s) == before(s))
    case SetVertexDeclaration(v) => after(VertexDecl) == v && Untouched(before, after, {VertexDecl})
  }

  lemma ProductIs(a: Value, b: Value)
    requires IsMatrix(a) && IsMatrix(b)
    ensures IsMatrix(Product(a, b)) && IsProduct(a.m, b.m, Product(a, b).m)
  {
    var r := Product(a, b).m;
    forall i, j | 0 <= i < 4 && 0 <= j < 4
      ensures CellIs(a.m, b.m, r, i, j)
    {
      assert (i * 4 + j) / 4 == i && (i * 4 + j) % 4 == j;
      assert r[i * 4 + j] == Cell(a.m, b.m, i, j);
    }
  }

  /** `after` differs from `before` by what the call writes. */
  ghost predicate Written(c: Call, before: Slot -> Value, after: Slot -> Value) {
    forall s {:trigger after(s)} :: after(s) == if s in Writes(c, before) then Writes(c, before)[s] else before(s)
  }

  lemma MultiplyLeaves(c: Call, before: Slot -> Value, after: Slot -> Value)
    requires c.MultiplyTransform? && Written(c, before, after)
    ensures Leaves(c, before, after)
  {
    if TransformType(c.t) {
      var s := Transform(MapXformStateTypeToIdx(c.t));
      assert after(s) == Product(before(s), c.v);
      if IsMatrix(before(s)) && IsMatrix(c.v) {
        ProductIs(before(s), c.v);
      }
    }
  }

  lemma StageStateLeaves(c: Call, before: Slot -> Value, after: Slot -> Value)
    requires c.SetTextureStageState? && Written(c, before, after)
    ensures Leaves(c, before, after)
  {
    if c.stage < 8 && TexStageStateTypeToIdx(c.t).Some? {
      var j := TexStageStateTypeToIdx(c.t).value;
      assert after(TextureStage(c.stage, j)) == c.v;
    }
  }

  lemma ConstantsLeave(c: Call, before: Slot -> Value, after: Slot -> Value)
    requires c.SetConstants? && Written(c, before, after)
    ensures Leaves(c, before, after)
  {
    forall k: nat | k < |c.values|
      ensures after(Constant(c.shader, c.kind, c.start + k)) == c.values[k]
    {
      assert Constant(c.shader, c.kind, c.start + k) in Registers(c.shader, c.kind, c.start, |c.values|);
    }
  }

  lemma SingleSlotLeaves(c: Call, before: Slot -> Value, after: Slot -> Value)
    requires c.SetTransform? || c.SetSlot? || c.EnableLight? || c.SetSamplerState? || c.SetVertexDeclaration?
    requires Written(c, before, after)
    ensures Leaves(c, before, after)
  {
  }

  lemma BindingLeaves(c: Call, before: Slot -> Value, after: Slot -> Value)
    requires c.SetTexture? || c.SetStreamSource?
    requires Written(c, before, after)
    ensures Leaves(c, before, after)
  {
  }

  lemma WritesLeave(c: Call, before: Slot -> Value, after: Slot -> Value)
    requires Written(c, before, after)
    ensures Leaves(c, before, after)
  {
    hide Written, Leaves;
    match c
    case MultiplyTransform(_, _) => MultiplyLeaves(c, before, after);
    case SetTextureStageState(_, _, _) => StageStateLeaves(c, before, after);
    case SetConstants(_, _, _, _) => ConstantsLeave(c, before, after);
    case SetTexture(_, _, _) => BindingLeaves(c, before, after);
    case SetStreamSource(_, _, _, _) => BindingLeaves(c, before, after);
    case _ => SingleSlotLeaves(c, before, after);
  }

  /** A direct call leaves in the device what it should, with and without elimination. */
  lemma DirectLeaves(eliminate: bool, live: State, c: Call)
    ensures Leaves(c, s => Lookup(live, s), s => Lookup(Direct(eliminate, live, c), s))
  {
    hide Direct, Writes, Leaves;
    var before: Slot -> Value := s => Lookup(live, s);
    var after: Slot -> Value := s => Lookup(Direct(eliminate, live, c), s);
    forall s
      ensures after(s) == if s in Writes(c, before) then Writes(c, before)[s] else before(s)
    {
      DirectLookup(eliminate, live, c, s);
      SameReads(c, before, q => Lookup(live, q));
    }
    WritesLeave(c, before, after);
  }

  /** A recorded call leaves the same in the block, seen over the device, and the device as it is; only a vertex
      declaration goes to the device at once. */
  lemma RecordLeaves(eliminate: bool, live: State, b: Block, c: Call)
    ensures var (live', b') := Record(eliminate, live, b, c);
            && (!c.SetVertexDeclaration? ==>
                  live' == live && Leaves(c, s => ReadThrough(live, b, s), s => ReadThrough(live', b', s)))
            && (c.SetVertexDeclaration? ==>
                  b' == b && Leaves(c, s => Lookup(live, s), s => Lookup(live', s)))
  {
    hide Writes, Leaves;
    var (live', b') := Record(eliminate, live, b, c);
    if c.SetVertexDeclaration? {
      DirectLeaves(eliminate, live, c);
      DeclarationIsDirect(eliminate, live, b, c);
    } else {
      var before: Slot -> Value := s => ReadThrough(live, b, s);
      var after: Slot -> Value := s => ReadThrough(live', b', s);
      forall s
        ensures after(s) == if s in Writes(c, before) then Writes(c, before)[s] else before(s)
      {
        RecordLookup(eliminate, live, b, c, s);
        SameReads(c, before, q => ReadThrough(live, b, q));
      }
      WritesLeave(c, before, after);
    }
  }

  lemma DeclarationIsDirect(eliminate: bool, live: State, b: Block, c: Call)
    requires c.SetVertexDeclaration?
    ensures Record(eliminate, live, b, c) == (Direct(eliminate, live, c), b)
  {
    assert Writes(c, q => Lookup(live, q)) == map[VertexDecl := c.v] == Writes(c, q => ReadThrough(live, b, q));
  }
}
