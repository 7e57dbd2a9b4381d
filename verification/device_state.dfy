/**
 The client's shadow of the device state: live setters, recording into a state block, and moving flagged
 slots between a block and the device.
 */
module DeviceState {
  import opened Options

  /** The slots of struct State that setters write. */
  datatype Slot =
    | Transform(i: nat) | Viewport | Material | Light(i: nat) | LightEnable(i: nat) | ClipPlane(i: nat)
    | RenderState(i: nat) | Texture(i: nat) | TextureType(i: nat) | TextureStage(i: nat, j: nat) | Sampler(i: nat, j: nat)
    | ScissorRect | VertexDecl | VertexShader | PixelShader | Indices
    | Stream(i: nat) | StreamOffset(i: nat) | StreamStride(i: nat) | StreamFreq(i: nat)
    | Constant(shader: ShaderType, kind: ConstantType, i: nat)

  datatype ShaderType = Vertex | Pixel
  datatype ConstantType = Float | Int | Bool

  datatype Value = Number(n: int) | Matrix(m: seq<real>)

  type State = map<Slot, Value>

  /** What a slot holds before anything is written: zeros, as default construction and operator[] give. */
  function Default(s: Slot): Value {
    if s.Transform? then Matrix(seq(16, _ => 0.0)) else Number(0)
  }

  function Lookup(m: State, s: Slot): Value {
    if s in m then m[s] else Default(s)
  }

  ghost predicate Same(a: State, b: State) {
    forall s {:trigger Lookup(a, s)} {:trigger Lookup(b, s)} :: Lookup(a, s) == Lookup(b, s)
  }

  // ---------------------------------------------------------------------------------------------
  // Index maps
  // ---------------------------------------------------------------------------------------------

  const D3DTS_VIEW: nat := 2
  const D3DTS_PROJECTION: nat := 3
  const D3DTS_TEXTURE0: nat := 16
  const D3DTS_TEXTURE7: nat := 23
  const D3DTS_WORLD: nat := 256
  const D3DDMAPSAMPLER: nat := 256
  const D3DVERTEXTEXTURESAMPLER3: nat := 260
  const MAX_TEXTURES_PS: nat := 16
  const MAX_SIMULTANEOUS_TEXTURES: nat := 8
  const MAX_STAGE_SAMPLER_STATE_TYPES: nat := 14

  predicate IsValidTransform(t: nat) {
    t == D3DTS_VIEW || t == D3DTS_PROJECTION || D3DTS_TEXTURE0 <= t <= D3DTS_TEXTURE7 || D3DTS_WORLD <= t < D3DTS_WORLD + 256
  }

  function MapXformStateTypeToIdx(t: nat): nat
    requires IsValidTransform(t)
  {
    if t == D3DTS_VIEW then 0
    else if t == D3DTS_PROJECTION then 1
    else if D3DTS_TEXTURE0 <= t <= D3DTS_TEXTURE7 then 2 + (t - D3DTS_TEXTURE0)
    else 10 + (t - D3DTS_WORLD)
  }

  predicate IsInvalidSamplerStage(s: nat) {
    (s > 15 && s < D3DDMAPSAMPLER) || s > D3DVERTEXTEXTURESAMPLER3
  }

  function MapSamplerStageToIdx(s: nat): nat {
    if s >= D3DDMAPSAMPLER then MAX_TEXTURES_PS + (s - D3DDMAPSAMPLER) else s
  }

  /** D3DTEXTURESTAGESTATETYPE to the compact index, or None for a type that does not exist. */
  function TexStageStateTypeToIdx(t: nat): Option<nat> {
    match t
    case 1 => Some(0) case 2 => Some(1) case 3 => Some(2)         // COLOROP, COLORARG1, COLORARG2
    case 4 => Some(3) case 5 => Some(4) case 6 => Some(5)         // ALPHAOP, ALPHAARG1, ALPHAARG2
    case 7 => Some(6) case 8 => Some(7) case 9 => Some(8) case 10 => Some(9)  // BUMPENVMAT00 to 11
    case 11 => Some(10) case 22 => Some(11) case 23 => Some(12)   // TEXCOORDINDEX, BUMPENVLSCALE, BUMPENVLOFFSET
    case 24 => Some(13) case 26 => Some(14) case 27 => Some(15)   // TEXTURETRANSFORMFLAGS, COLORARG0, ALPHAARG0
    case 28 => Some(16) case 32 => Some(17)                       // RESULTARG, CONSTANT
    case _ => None
  }

  // ---------------------------------------------------------------------------------------------
  // Setter calls
  // ---------------------------------------------------------------------------------------------

  datatype Call =
    | SetTransform(t: nat, v: Value)
    | MultiplyTransform(t: nat, v: Value)
    | SetSlot(slot: Slot, v: Value)              // setters that write one slot under its own index
    | EnableLight(i: nat, b: nat)
    | SetTexture(stage: nat, texture: Option<nat>, resourceType: nat)
    | SetTextureStageState(stage: nat, t: nat, v: Value)
    | SetSamplerState(sampler: nat, t: nat, v: Value)
    | SetStreamSource(n: nat, buffer: Option<nat>, offset: nat, stride: nat)
    | SetConstants(shader: ShaderType, kind: ConstantType, start: nat, values: seq<Value>)
    | SetVertexDeclaration(v: Value)             // ignores recording

  const D3DRTYPE_FORCE_DWORD: nat := 0x7FFFFFFF

  function Reference(r: Option<nat>): Value {
    if r.Some? then Number(r.value) else Number(-1)
  }

  /** Row by column, as MultiplyTransform accumulates it. */
  function Cell(a: seq<real>, b: seq<real>, i: nat, j: nat): real
    requires |a| == 16 && |b| == 16 && i < 4 && j < 4
  {
    a[i * 4] * b[j] + a[i * 4 + 1] * b[4 + j] + a[i * 4 + 2] * b[8 + j] + a[i * 4 + 3] * b[12 + j]
  }

  function Product(a: Value, b: Value): Value {
    if a.Matrix? && b.Matrix? && |a.m| == 16 && |b.m| == 16
    then Matrix(seq(16, k requires 0 <= k < 16 => Cell(a.m, b.m, k / 4, k % 4)))
    else a
  }

  /** The slots a call writes and the values it writes, given the values it may read; nothing if the call is
      rejected. */
  function Writes(c: Call, read: Slot -> Value): State {
    match c
    case SetTransform(t, v) => if IsValidTransform(t) then map[Transform(MapXformStateTypeToIdx(t)) := v] else map[]
    case MultiplyTransform(t, v) =>
      if IsValidTransform(t) then
        var s := Transform(MapXformStateTypeToIdx(t));
        map[s := Product(read(s), v)]
      else map[]
    case SetSlot(slot, v) => if HasOwnSetter(slot) then map[slot := v] else map[]
    case EnableLight(i, b) => map[LightEnable(i) := Number(if b != 0 then 1 else 0)]
    case SetTexture(stage, texture, resourceType) =>
      if IsInvalidSamplerStage(stage) then map[]
      else
        var i := MapSamplerStageToIdx(stage);
        map[Texture(i) := Reference(texture),
            TextureType(i) := Number(if texture.Some? then resourceType else D3DRTYPE_FORCE_DWORD)]
    case SetTextureStageState(stage, t, v) =>
      var j := TexStageStateTypeToIdx(t);
      if stage >= MAX_SIMULTANEOUS_TEXTURES || j.None? then map[] else map[TextureStage(MapSamplerStageToIdx(stage), j.value) := v]
    case SetSamplerState(sampler, t, v) =>
      if IsInvalidSamplerStage(sampler) || t < 1 || t - 1 >= MAX_STAGE_SAMPLER_STATE_TYPES then map[]
      else map[Sampler(MapSamplerStageToIdx(sampler), t - 1) := v]
    case SetStreamSource(n, buffer, offset, stride) =>
      if buffer.Some?
      then map[Stream(n) := Reference(buffer), StreamOffset(n) := Number(offset), StreamStride(n) := Number(stride)]
      else map[Stream(n) := Reference(None)]
    case SetConstants(shader, kind, start, values) =>
      map s: Slot | s in Registers(shader, kind, start, |values|) :: values[s.i - start]
    case SetVertexDeclaration(v) => map[VertexDecl := v]
  }

  /** Slots written by a setter of their own, one value under the caller's index. */
  predicate HasOwnSetter(s: Slot) {
    s.Viewport? || s.Material? || s.Light? || s.ClipPlane? || s.RenderState? || s.ScissorRect? || s.VertexShader?
    || s.PixelShader? || s.Indices? || s.StreamFreq?
  }

  function Registers(shader: ShaderType, kind: ConstantType, start: nat, count: nat): (r: set<Slot>)
    ensures forall s :: s in r <==> s.Constant? && s.shader == shader && s.kind == kind && start <= s.i < start + count
  {
    if count == 0 then {} else Registers(shader, kind, start, count - 1) + {Constant(shader, kind, start + count - 1)}
  }

  /** The setters that skip a call which would not change anything. */
  predicate Eliminating(c: Call) {
    c.SetTransform? || c.EnableLight? || c.SetTextureStageState? || c.SetSamplerState?
    || (c.SetSlot? && (c.slot.Light? || c.slot.RenderState?))
  }

  // ---------------------------------------------------------------------------------------------
  // State blocks
  // ---------------------------------------------------------------------------------------------

  /** The dirty flag that covers a slot. Texture types share the texture's flag, and strides the offset's. */
  function FlagOf(s: Slot): Slot {
    match s
    case TextureType(i) => Texture(i)
    case StreamStride(i) => StreamOffset(i)
    case _ => s
  }

  function CoveredBy(f: Slot): set<Slot> {
    match f
    case Texture(i) => {Texture(i), TextureType(i)}
    case StreamOffset(i) => {StreamOffset(i), StreamStride(i)}
    case TextureType(i) => {}
    case StreamStride(i) => {}
    case _ => {f}
  }

  function Covered(flags: set<Slot>): (r: set<Slot>)
    ensures forall s :: s in r <==> FlagOf(s) in flags
  {
    var r := set f, s | f in flags && s in CoveredBy(f) :: s;
    assert forall s | FlagOf(s) in flags :: s in CoveredBy(FlagOf(s));
    r
  }

  datatype Block = Block(flags: set<Slot>, capture: State)

  const EMPTY_BLOCK: Block := Block({}, map[])

  /** StateTransfer: the flagged slots of `src` into `dst`. */
  function Transfer(flags: set<Slot>, src: State, dst: State): State {
    dst + (map s | s in Covered(flags) :: Lookup(src, s))
  }

  lemma TransferLookup(flags: set<Slot>, src: State, dst: State, s: Slot)
    ensures Lookup(Transfer(flags, src, dst), s) == if FlagOf(s) in flags then Lookup(src, s) else Lookup(dst, s)
  {
  }

  function FlagsOf(writes: State): set<Slot> {
    set s | s in writes :: FlagOf(s)
  }

  /** Whether the call is dropped because it would write what is there already. */
  predicate Redundant(eliminate: bool, c: Call, writes: State, flags: set<Slot>, current: State, recording: bool) {
    eliminate && Eliminating(c)
    && forall s | s in writes :: (recording ==> FlagOf(s) in flags) && Lookup(current, s) == writes[s]
  }

  /** A setter call outside a recording. */
  function Direct(eliminate: bool, live: State, c: Call): State {
    var writes := Writes(c, s => Lookup(live, s));
    if Redundant(eliminate, c, writes, {}, live, false) then live else live + writes
  }

  /** What a slot reads as while `b` is being recorded. */
  function ReadThrough(live: State, b: Block, s: Slot): Value {
    if FlagOf(s) in b.flags then Lookup(b.capture, s) else Lookup(live, s)
  }

  /** A setter call during a recording: the device stays as it is and the block takes the write. */
  function Record(eliminate: bool, live: State, b: Block, c: Call): (State, Block) {
    var writes := Writes(c, s => ReadThrough(live, b, s));
    if c.SetVertexDeclaration? then (live + writes, b)
    else if Redundant(eliminate, c, writes, b.flags, b.capture, true) then (live, b)
    else (live, Block(b.flags + FlagsOf(writes), b.capture + writes))
  }

  function DirectRun(eliminate: bool, live: State, calls: seq<Call>): State
    decreases calls
  {
    if calls == [] then live else DirectRun(eliminate, Direct(eliminate, live, calls[0]), calls[1..])
  }

  function RecordRun(eliminate: bool, live: State, b: Block, calls: seq<Call>): (State, Block)
    decreases calls
  {
    if calls == [] then (live, b)
    else
      var (live', b') := Record(eliminate, live, b, calls[0]);
      RecordRun(eliminate, live', b', calls[1..])
  }

  // ---------------------------------------------------------------------------------------------
  // Recording and applying is the same as calling directly
  // ---------------------------------------------------------------------------------------------

  /** A call writes either all slots under a flag or none of them. */
  lemma WritesWholeFlags(c: Call, read: Slot -> Value, s: Slot)
    requires !c.SetVertexDeclaration?
    ensures FlagOf(s) in FlagsOf(Writes(c, read)) <==> s in Writes(c, read)
  {
    var writes := Writes(c, read);
    if FlagOf(s) in FlagsOf(writes) {
      var q :| q in writes && FlagOf(q) == FlagOf(s);
      if q != s {
        assert (q.Texture? || q.TextureType? || q.StreamOffset? || q.StreamStride?) by {
          hide Writes;
        }
      }
    }
  }

  /** The device after the calls made so far, and the device and block that have been recorded instead. */
  ghost predicate InStep(direct: State, live: State, b: Block) {
    forall s {:trigger Lookup(direct, s)} {:trigger ReadThrough(live, b, s)} :: Lookup(direct, s) == ReadThrough(live, b, s)
  }

  /** What a call writes depends only on the values it reads. */
  lemma SameReads(c: Call, f: Slot -> Value, g: Slot -> Value)
    requires forall s :: f(s) == g(s)
    ensures Writes(c, f) == Writes(c, g)
  {
  }

  lemma DirectLookup(eliminate: bool, live: State, c: Call, s: Slot)
    ensures var writes := Writes(c, q => Lookup(live, q));
            Lookup(Direct(eliminate, live, c), s) == if s in writes then writes[s] else Lookup(live, s)
  {
    hide Writes;
  }

  lemma RecordLookup(eliminate: bool, live: State, b: Block, c: Call, s: Slot)
    requires !c.SetVertexDeclaration?
    ensures var writes := Writes(c, q => ReadThrough(live, b, q));
            var (live', b') := Record(eliminate, live, b, c);
            ReadThrough(live', b', s) == if s in writes then writes[s] else ReadThrough(live, b, s)
  {
    WritesWholeFlags(c, q => ReadThrough(live, b, q), s);
    hide Writes;
  }

  lemma NeverFlagged(c: Call, read: Slot -> Value)
    requires !c.SetVertexDeclaration?
    ensures VertexDecl !in FlagsOf(Writes(c, read))
  {
    WritesWholeFlags(c, read, VertexDecl);
  }

  lemma StaysInStep(eliminate: bool, direct: State, live: State, b: Block, c: Call)
    requires InStep(direct, live, b) && VertexDecl !in b.flags
    ensures var (live', b') := Record(eliminate, live, b, c);
            InStep(Direct(eliminate, direct, c), live', b') && VertexDecl !in b'.flags
  {
    var (live', b') := Record(eliminate, live, b, c);
    if c.SetVertexDeclaration? {
      forall s
        ensures Lookup(Direct(eliminate, direct, c), s) == ReadThrough(live', b', s)
      {
        assert Lookup(direct, s) == ReadThrough(live, b, s);
      }
    } else {
      NeverFlagged(c, q => ReadThrough(live, b, q));
      hide Writes, Direct, Record;
      SameReads(c, q => Lookup(direct, q), q => ReadThrough(live, b, q));
      forall s
        ensures Lookup(Direct(eliminate, direct, c), s) == ReadThrough(live', b', s)
      {
        DirectLookup(eliminate, direct, c, s);
        RecordLookup(eliminate, live, b, c, s);
        assert Lookup(direct, s) == ReadThrough(live, b, s);
      }
      RecordFlags(eliminate, live, b, c);
    }
  }

  lemma RecordFlags(eliminate: bool, live: State, b: Block, c: Call)
    ensures Record(eliminate, live, b, c).1.flags <= b.flags + FlagsOf(Writes(c, q => ReadThrough(live, b, q)))
  {
    hide Writes;
  }

  lemma {:induction false} RunStaysInStep(eliminate: bool, direct: State, live: State, b: Block, calls: seq<Call>)
    requires InStep(direct, live, b) && VertexDecl !in b.flags
    ensures var (live', b') := RecordRun(eliminate, live, b, calls);
            InStep(DirectRun(eliminate, direct, calls), live', b')
    decreases calls
  {
    hide Direct, Record, InStep;
    if calls != [] {
      StaysInStep(eliminate, direct, live, b, calls[0]);
      var (live', b') := Record(eliminate, live, b, calls[0]);
      RunStaysInStep(eliminate, Direct(eliminate, direct, calls[0]), live', b', calls[1..]);
    }
  }

  /** Recording any sequence of setter calls and then applying the block leaves the device as if the calls
      had been made directly, with and without the elimination of redundant calls. */
  lemma RecordThenApply(eliminate: bool, live: State, calls: seq<Call>)
    ensures var (live', b) := RecordRun(eliminate, live, EMPTY_BLOCK, calls);
            Same(Transfer(b.flags, b.capture, live'), DirectRun(eliminate, live, calls))
  {
    RunStaysInStep(eliminate, live, live, EMPTY_BLOCK, calls);
    var (live', b) := RecordRun(eliminate, live, EMPTY_BLOCK, calls);
    var direct := DirectRun(eliminate, live, calls);
    forall s
      ensures Lookup(Transfer(b.flags, b.capture, live'), s) == Lookup(direct, s)
    {
      TransferLookup(b.flags, b.capture, live', s);
      assert Lookup(direct, s) == ReadThrough(live', b, s);
    }
  }

  /** Until it is applied, recording leaves the device alone, except for the vertex declaration. */
  lemma {:induction false} RecordingLeavesDevice(eliminate: bool, live: State, b: Block, calls: seq<Call>, s: Slot)
    ensures s != VertexDecl ==> Lookup(RecordRun(eliminate, live, b, calls).0, s) == Lookup(live, s)
    decreases calls
  {
    if calls != [] {
      var (live', b') := Record(eliminate, live, b, calls[0]);
      RecordingLeavesDevice(eliminate, live', b', calls[1..], s);
    }
  }
}
