/** Dropping redundant setter messages: a server fed the reduced stream ends in the same state as one fed all. */
module SetterElimination {
  import opened Options
  import opened DeviceState

  // The client keeps the device state in its own index space; the server's runtime keeps it under the keys the
  // messages carry.

  /** What a setter message addresses on the server. */
  datatype Key =
    | TransformKey(t: nat) | LightKey(i: nat) | LightEnableKey(i: nat) | RenderStateKey(i: nat)
    | TextureStageKey(stage: nat, t: nat) | SamplerKey(sampler: nat, t: nat)

  datatype Message = SetMessage(k: Key, v: Value) | BeginMessage | EndMessage(id: nat) | CaptureMessage(id: nat) | ApplyMessage(id: nat)

  type KeyMap = map<Key, Value>

  datatype Server = Server(live: KeyMap, recording: Option<KeyMap>, blocks: map<nat, KeyMap>)

  datatype Client = Client(live: State, recording: Option<Block>, blocks: map<nat, Block>, next: nat)

  datatype AppCall = Setter(c: Call) | BeginStateBlock | EndStateBlock | Capture(id: nat) | Apply(id: nat)

  // ---------------------------------------------------------------------------------------------
  // Keys and slots
  // ---------------------------------------------------------------------------------------------

  /** The client slot behind a key, None for keys the client rejects. */
  function SlotFor(k: Key): Option<Slot> {
    match k
    case TransformKey(t) => if IsValidTransform(t) then Some(Transform(MapXformStateTypeToIdx(t))) else None
    case LightKey(i) => Some(Light(i))
    case LightEnableKey(i) => Some(LightEnable(i))
    case RenderStateKey(i) => Some(RenderState(i))
    case TextureStageKey(stage, t) =>
      if stage >= MAX_SIMULTANEOUS_TEXTURES || TexStageStateTypeToIdx(t).None? then None
      else Some(TextureStage(MapSamplerStageToIdx(stage), TexStageStateTypeToIdx(t).value))
    case SamplerKey(sampler, t) =>
      if IsInvalidSamplerStage(sampler) || t < 1 || t - 1 >= MAX_STAGE_SAMPLER_STATE_TYPES then None
      else Some(Sampler(MapSamplerStageToIdx(sampler), t - 1))
  }

  predicate Valid(k: Key) {
    SlotFor(k).Some?
  }

  /** The index maps give different valid keys different slots. */
  lemma IndexMapsInjective(a: Key, b: Key)
    requires Valid(a) && SlotFor(a) == SlotFor(b)
    ensures a == b
  {
    if a.TextureStageKey? {
      StageTypesInjective(a.t, b.t);
    }
  }

  lemma StageTypesInjective(a: nat, b: nat)
    requires TexStageStateTypeToIdx(a).Some? && TexStageStateTypeToIdx(a) == TexStageStateTypeToIdx(b)
    ensures a == b
  {
  }

  /** Every slot index stays within the arrays of struct State. */
  lemma IndicesInBounds(k: Key)
    requires Valid(k)
    ensures match SlotFor(k).value
            case Transform(i) => i < 266
            case TextureStage(i, j) => i < 21 && j < 18
            case Sampler(i, j) => i < 21 && j < 14
            case _ => true
  {
  }

  function KeyOf(c: Call): Key
    requires Eliminating(c)
  {
    match c
    case SetTransform(t, _) => TransformKey(t)
    case EnableLight(i, _) => LightEnableKey(i)
    case SetTextureStageState(stage, t, _) => TextureStageKey(stage, t)
    case SetSamplerState(sampler, t, _) => SamplerKey(sampler, t)
    case SetSlot(slot, _) => if slot.Light? then LightKey(slot.i) else RenderStateKey(slot.i)
  }

  /** The value as the server stores it: the runtime, like the client, only keeps whether a light is on. */
  function ValueOf(c: Call): Value
    requires Eliminating(c)
  {
    if c.EnableLight? then Number(if c.b != 0 then 1 else 0) else c.v
  }

  lemma WritesOneSlot(c: Call, read: Slot -> Value)
    requires Eliminating(c)
    ensures Writes(c, read) == if Valid(KeyOf(c)) then map[SlotFor(KeyOf(c)).value := ValueOf(c)] else map[]
  {
  }

  /** The client's state read through its index maps is an array under the callers' keys: a setter changes what
      its own key reads and nothing else. */
  lemma LastSetWins(eliminate: bool, live: State, c: Call, q: Key)
    requires Eliminating(c) && Valid(KeyOf(c)) && Valid(q)
    ensures Lookup(Direct(eliminate, live, c), SlotFor(q).value)
         == if q == KeyOf(c) then ValueOf(c) else Lookup(live, SlotFor(q).value)
  {
    WritesOneSlot(c, s => Lookup(live, s));
    DirectLookup(eliminate, live, c, SlotFor(q).value);
    hide Direct, Writes;
    if SlotFor(q) == SlotFor(KeyOf(c)) {
      IndexMapsInjective(q, KeyOf(c));
    }
  }

  // ---------------------------------------------------------------------------------------------
  // The two sides
  // ---------------------------------------------------------------------------------------------

  /** The server's runtime: a map of state, a map being recorded, and recorded maps. */
  function Handle(s: Server, m: Message): Server {
    match m
    case SetMessage(k, v) =>
      if s.recording.Some? then s.(recording := Some(s.recording.value[k := v])) else s.(live := s.live[k := v])
    case BeginMessage => s.(recording := Some(map[]))
    case EndMessage(id) => if s.recording.Some? then s.(blocks := s.blocks[id := s.recording.value], recording := None) else s
    case CaptureMessage(id) =>
      if id in s.blocks then s.(blocks := s.blocks[id := map k | k in s.blocks[id] :: Read(s.live, k)]) else s
    case ApplyMessage(id) => if id in s.blocks then s.(live := s.live + s.blocks[id]) else s
  }

  function Read(m: KeyMap, k: Key): Value {
    if k in m then m[k] else if Valid(k) then Default(SlotFor(k).value) else Number(0)
  }

  function HandleAll(s: Server, stream: seq<Message>): Server
    decreases stream
  {
    if stream == [] then s else HandleAll(Handle(s, stream[0]), stream[1..])
  }

  /** One call into the client, with or without elimination, and the messages it sends. */
  function ClientStep(eliminate: bool, c: Client, call: AppCall): (Client, seq<Message>)
    requires call.Setter? ==> Eliminating(call.c)
  {
    match call
    case Setter(sc) =>
      var k := KeyOf(sc);
      if !Valid(k) then (c, [])
      else
        var writes := Writes(sc, s => Lookup(c.live, s));
        var redundant :=
          if c.recording.Some? then Redundant(eliminate, sc, writes, c.recording.value.flags, c.recording.value.capture, true)
          else Redundant(eliminate, sc, writes, {}, c.live, false);
        (if c.recording.Some? then c.(recording := Some(Record(eliminate, c.live, c.recording.value, sc).1))
         else c.(live := Direct(eliminate, c.live, sc)),
         if redundant then [] else [SetMessage(k, ValueOf(sc))])
    case BeginStateBlock => if c.recording.Some? then (c, []) else (c.(recording := Some(EMPTY_BLOCK)), [BeginMessage])
    case EndStateBlock =>
      if c.recording.None? then (c, [])
      else (c.(recording := None, blocks := c.blocks[c.next := c.recording.value], next := c.next + 1), [EndMessage(c.next)])
    case Capture(id) =>
      if c.recording.Some? || id !in c.blocks then (c, [])
      else
        var b := c.blocks[id];
        (c.(blocks := c.blocks[id := b.(capture := Transfer(b.flags, c.live, b.capture))]), [CaptureMessage(id)])
    case Apply(id) =>
      if id !in c.blocks then (c, [])
      else (c.(live := Transfer(c.blocks[id].flags, c.blocks[id].capture, c.live)), [ApplyMessage(id)])
  }

  /** What the state block calls do, each on its own: a recording is begun only if none is under way, and starts
      empty; ending it hands out its block under a new handle; a block is captured only outside recordings. */
  lemma StateBlockCalls(eliminate: bool, c: Client, id: nat)
    ensures ClientStep(eliminate, c, BeginStateBlock)
         == if c.recording.Some? then (c, []) else (c.(recording := Some(Block({}, map[]))), [BeginMessage])
    ensures var (d, sent) := ClientStep(eliminate, c, EndStateBlock);
            && (c.recording.None? ==> d == c && sent == [])
            && (c.recording.Some? ==>
                  && sent == [EndMessage(c.next)] && d.recording.None? && d.next == c.next + 1 && d.live == c.live
                  && c.next in d.blocks && d.blocks[c.next] == c.recording.value
                  && (forall k | k in c.blocks && k != c.next :: k in d.blocks && d.blocks[k] == c.blocks[k]))
    ensures var (d, sent) := ClientStep(eliminate, c, Capture(id));
            && (c.recording.Some? || id !in c.blocks ==> d == c && sent == [])
            && (c.recording.None? && id in c.blocks ==>
                  && sent == [CaptureMessage(id)] && d.live == c.live && d.recording.None? && d.next == c.next
                  && d.blocks.Keys == c.blocks.Keys && d.blocks[id].flags == c.blocks[id].flags
                  && (forall s :: Lookup(d.blocks[id].capture, s)
                               == if FlagOf(s) in c.blocks[id].flags then Lookup(c.live, s) else Lookup(c.blocks[id].capture, s))
                  && (forall k | k in c.blocks && k != id :: d.blocks[k] == c.blocks[k]))
    ensures var (d, sent) := ClientStep(eliminate, c, Apply(id));
            && (id !in c.blocks ==> d == c && sent == [])
            && (id in c.blocks ==>
                  && sent == [ApplyMessage(id)] && d == c.(live := d.live)
                  && (forall s :: Lookup(d.live, s)
                               == if FlagOf(s) in c.blocks[id].flags then Lookup(c.blocks[id].capture, s) else Lookup(c.live, s)))
  {
    if id in c.blocks {
      var b := c.blocks[id];
      forall s
        ensures Lookup(Transfer(b.flags, c.live, b.capture), s) == if FlagOf(s) in b.flags then Lookup(c.live, s) else Lookup(b.capture, s)
        ensures Lookup(Transfer(b.flags, b.capture, c.live), s) == if FlagOf(s) in b.flags then Lookup(b.capture, s) else Lookup(c.live, s)
      {
        TransferLookup(b.flags, c.live, b.capture, s);
        TransferLookup(b.flags, b.capture, c.live, s);
      }
    }
  }

  /** What an eliminating setter does: rejected for an invalid key; dropped, with nothing changed, if elimination is
      on and the value is there already, in the block while recording; otherwise stored there, and sent. */
  lemma SetterCall(eliminate: bool, c: Client, sc: Call)
    requires Eliminating(sc)
    ensures var (d, sent) := ClientStep(eliminate, c, Setter(sc));
            && (!Valid(KeyOf(sc)) ==> d == c && sent == [])
            && (Valid(KeyOf(sc)) ==>
                  var slot, v := SlotFor(KeyOf(sc)).value, ValueOf(sc);
                  var there := if c.recording.Some?
                               then slot in c.recording.value.flags && Lookup(c.recording.value.capture, slot) == v
                               else Lookup(c.live, slot) == v;
                  && (eliminate && there ==> d == c && sent == [])
                  && (!(eliminate && there) ==>
                        && sent == [SetMessage(KeyOf(sc), v)]
                        && (c.recording.None? ==> d == c.(live := c.live[slot := v]))
                        && (c.recording.Some? ==>
                              d == c.(recording := Some(Block(c.recording.value.flags + {slot}, c.recording.value.capture[slot := v]))))))
  {
    if Valid(KeyOf(sc)) {
      var slot, v := SlotFor(KeyOf(sc)).value, ValueOf(sc);
      WritesOneSlot(sc, q => Lookup(c.live, q));
      OwnFlag(KeyOf(sc));
      var writes := map[slot := v];
      assert slot in writes && forall s | s in writes :: s == slot;
      assert c.live + writes == c.live[slot := v];
      if c.recording.Some? {
        RecordIs(eliminate, c.live, c.recording.value, sc);
      }
      hide Writes, Direct, Record;
    }
  }

  /** Blocks are not applied while another is being recorded. */
  predicate Allowed(c: Client, call: AppCall) {
    && (call.Setter? ==> Eliminating(call.c))
    && (call.Apply? ==> c.recording.None?)
  }

  predicate Run(eliminate: bool, c: Client, calls: seq<AppCall>)
    decreases calls
  {
    calls == [] || (Allowed(c, calls[0]) && Run(eliminate, ClientStep(eliminate, c, calls[0]).0, calls[1..]))
  }

  /** The client at the end of a run, and everything it sent. */
  function Play(eliminate: bool, c: Client, calls: seq<AppCall>): (Client, seq<Message>)
    requires Run(eliminate, c, calls)
    decreases calls
  {
    if calls == [] then (c, [])
    else
      var (d, sent) := ClientStep(eliminate, c, calls[0]);
      var (e, rest) := Play(eliminate, d, calls[1..]);
      (e, sent + rest)
  }

  // ---------------------------------------------------------------------------------------------
  // The server mirrors the client
  // ---------------------------------------------------------------------------------------------

  predicate LiveAt(c: State, s: KeyMap, k: Key) {
    Valid(k) ==> Read(s, k) == Lookup(c, SlotFor(k).value)
  }

  ghost predicate LiveMatches(c: State, s: KeyMap) {
    forall k {:trigger LiveAt(c, s, k)} :: LiveAt(c, s, k)
  }

  predicate BlockAt(b: Block, m: KeyMap, k: Key) {
    && (k in m <==> Valid(k) && SlotFor(k).value in b.flags)
    && (k in m ==> m[k] == Lookup(b.capture, SlotFor(k).value))
  }

  ghost predicate BlockMatches(b: Block, m: KeyMap) {
    && (forall k {:trigger BlockAt(b, m, k)} :: BlockAt(b, m, k))
    && (forall f | f in b.flags :: FlagOf(f) == f && exists k :: Valid(k) && SlotFor(k) == Some(f))
  }

  ghost predicate Matches(c: Client, s: Server) {
    && LiveMatches(c.live, s.live)
    && (c.recording.Some? <==> s.recording.Some?)
    && (c.recording.Some? ==> BlockMatches(c.recording.value, s.recording.value))
    && s.blocks.Keys == c.blocks.Keys
    && (forall id | id in c.blocks :: BlockMatches(c.blocks[id], s.blocks[id]))
  }

  /** Slots of valid keys are covered by a flag of their own. */
  lemma OwnFlag(k: Key)
    requires Valid(k)
    ensures FlagOf(SlotFor(k).value) == SlotFor(k).value
  {
  }

  lemma SetLive(live: State, s: KeyMap, k: Key, v: Value)
    requires LiveMatches(live, s) && Valid(k)
    ensures LiveMatches(live[SlotFor(k).value := v], s[k := v])
    ensures Lookup(live, SlotFor(k).value) == v ==> LiveMatches(live, s[k := v]) && LiveMatches(live[SlotFor(k).value := v], s)
  {
    var live', s' := live[SlotFor(k).value := v], s[k := v];
    forall q
      ensures LiveAt(live', s', q)
      ensures Lookup(live, SlotFor(k).value) == v ==> LiveAt(live, s', q) && LiveAt(live', s, q)
    {
      assert LiveAt(live, s, q);
      if Valid(q) && SlotFor(q) == SlotFor(k) {
        IndexMapsInjective(q, k);
      }
    }
  }

  lemma SetRecorded(b: Block, m: KeyMap, k: Key, v: Value)
    requires BlockMatches(b, m) && Valid(k)
    ensures BlockMatches(Block(b.flags + {SlotFor(k).value}, b.capture[SlotFor(k).value := v]), m[k := v])
  {
    var b' := Block(b.flags + {SlotFor(k).value}, b.capture[SlotFor(k).value := v]);
    var m' := m[k := v];
    OwnFlag(k);
    forall q
      ensures BlockAt(b', m', q)
    {
      assert BlockAt(b, m, q);
      if Valid(q) && SlotFor(q) == SlotFor(k) {
        IndexMapsInjective(q, k);
      }
    }
  }

  /** One setter call: whether or not its message is dropped, the server still mirrors the client. */
  lemma SetterKeepsMatch(eliminate: bool, c: Client, s: Server, sc: Call)
    requires Matches(c, s) && Eliminating(sc)
    ensures var (d, sent) := ClientStep(eliminate, c, Setter(sc)); Matches(d, HandleAll(s, sent))
  {
    var k := KeyOf(sc);
    if Valid(k) {
      var slot, v := SlotFor(k).value, ValueOf(sc);
      WritesOneSlot(sc, q => Lookup(c.live, q));
      OwnFlag(k);
      assert HandleAll(s, []) == s;
      assert HandleAll(s, [SetMessage(k, v)]) == Handle(s, SetMessage(k, v)) by {
        assert [SetMessage(k, v)][1..] == [];
      }
      if c.recording.Some? {
        var b := c.recording.value;
        WritesOneSlot(sc, q => ReadThrough(c.live, b, q));
        assert FlagsOf(map[slot := v]) == {slot};
        assert b.capture + map[slot := v] == b.capture[slot := v];
        SetRecorded(b, s.recording.value, k, v);
      } else {
        assert c.live + map[slot := v] == c.live[slot := v];
        SetLive(c.live, s.live, k, v);
      }
    }
  }

  lemma CaptureKeepsBlock(b: Block, m: KeyMap, live: State, s: KeyMap)
    requires BlockMatches(b, m) && LiveMatches(live, s)
    ensures BlockMatches(b.(capture := Transfer(b.flags, live, b.capture)), map k | k in m :: Read(s, k))
  {
    var b' := b.(capture := Transfer(b.flags, live, b.capture));
    var m' := map k | k in m :: Read(s, k);
    forall k
      ensures BlockAt(b', m', k)
    {
      assert BlockAt(b, m, k) && LiveAt(live, s, k);
      if k in m {
        OwnFlag(k);
        TransferLookup(b.flags, live, b.capture, SlotFor(k).value);
      }
    }
  }

  lemma ApplyKeepsLive(b: Block, m: KeyMap, live: State, s: KeyMap)
    requires BlockMatches(b, m) && LiveMatches(live, s)
    ensures LiveMatches(Transfer(b.flags, b.capture, live), s + m)
  {
    forall k
      ensures LiveAt(Transfer(b.flags, b.capture, live), s + m, k)
    {
      assert BlockAt(b, m, k) && LiveAt(live, s, k);
      if Valid(k) {
        OwnFlag(k);
        TransferLookup(b.flags, b.capture, live, SlotFor(k).value);
      }
    }
  }

  lemma StepKeepsMatch(eliminate: bool, c: Client, s: Server, call: AppCall)
    requires Matches(c, s) && Allowed(c, call)
    ensures var (d, sent) := ClientStep(eliminate, c, call); Matches(d, HandleAll(s, sent))
  {
    hide LiveMatches, BlockMatches, Transfer, Writes;
    if call.Setter? {
      SetterKeepsMatch(eliminate, c, s, call.c);
    } else {
      var (d, sent) := ClientStep(eliminate, c, call);
      if sent == [] {
        assert HandleAll(s, sent) == s;
      } else {
        assert sent[1..] == [];
        assert HandleAll(s, sent) == Handle(s, sent[0]);
        match call
        case BeginStateBlock => EmptyBlockMatches();
        case EndStateBlock =>
        case Capture(id) => CaptureKeepsBlock(c.blocks[id], s.blocks[id], c.live, s.live);
        case Apply(id) => ApplyKeepsLive(c.blocks[id], s.blocks[id], c.live, s.live);
      }
    }
  }

  lemma EmptyBlockMatches()
    ensures BlockMatches(EMPTY_BLOCK, map[])
  {
    var m: KeyMap := map[];
    forall k
      ensures BlockAt(EMPTY_BLOCK, m, k)
    {
    }
  }

  lemma {:induction false} HandleAllConcat(s: Server, a: seq<Message>, b: seq<Message>)
    ensures HandleAll(s, a + b) == HandleAll(HandleAll(s, a), b)
    decreases a
  {
    if a == [] {
      assert a + b == b;
    } else {
      assert (a + b)[1..] == a[1..] + b;
      HandleAllConcat(Handle(s, a[0]), a[1..], b);
    }
  }

  lemma {:induction false} RunKeepsMatch(eliminate: bool, c: Client, s: Server, calls: seq<AppCall>)
    requires Matches(c, s) && Run(eliminate, c, calls)
    ensures var (d, stream) := Play(eliminate, c, calls); Matches(d, HandleAll(s, stream))
    decreases calls
  {
    hide ClientStep, Handle, Matches;
    if calls != [] {
      StepKeepsMatch(eliminate, c, s, calls[0]);
      var (d, sent) := ClientStep(eliminate, c, calls[0]);
      RunKeepsMatch(eliminate, d, HandleAll(s, sent), calls[1..]);
      HandleAllConcat(s, sent, Play(eliminate, d, calls[1..]).1);
    }
  }

  // ---------------------------------------------------------------------------------------------
  // With and without elimination
  // ---------------------------------------------------------------------------------------------

  /** Two clients that hold the same values, though one may have written some of them again. */
  ghost predicate TwinBlocks(a: Block, b: Block) {
    a.flags == b.flags && forall s | s in a.flags :: Lookup(a.capture, s) == Lookup(b.capture, s)
  }

  ghost predicate Twins(a: Client, b: Client) {
    && Same(a.live, b.live)
    && (a.recording.Some? <==> b.recording.Some?)
    && (a.recording.Some? ==> TwinBlocks(a.recording.value, b.recording.value) && PlainFlags(a.recording.value))
    && a.blocks.Keys == b.blocks.Keys && a.next == b.next
    && (forall id | id in a.blocks :: TwinBlocks(a.blocks[id], b.blocks[id]) && PlainFlags(a.blocks[id]))
  }

  /** Only flags that cover a single slot: those of the eliminating setters. */
  ghost predicate PlainFlags(b: Block) {
    forall f, s {:trigger FlagOf(s), f in b.flags} | f in b.flags && FlagOf(s) == f :: s == f
  }

  lemma DirectKeepsTwins(a: State, b: State, sc: Call)
    requires Same(a, b) && Eliminating(sc)
    ensures Same(Direct(false, a, sc), Direct(true, b, sc))
  {
    WritesOneSlot(sc, q => Lookup(a, q));
    WritesOneSlot(sc, q => Lookup(b, q));
    var a', b' := Direct(false, a, sc), Direct(true, b, sc);
    hide Writes, Direct;
    forall q
      ensures Lookup(a', q) == Lookup(b', q)
    {
      assert Lookup(a, q) == Lookup(b, q);
      DirectLookup(false, a, sc, q);
      DirectLookup(true, b, sc, q);
    }
  }

  /** Recording one value under one flag. */
  function RecordOne(eliminate: bool, b: Block, slot: Slot, v: Value): Block {
    if eliminate && slot in b.flags && Lookup(b.capture, slot) == v then b
    else Block(b.flags + {slot}, b.capture[slot := v])
  }

  lemma RecordIs(eliminate: bool, live: State, b: Block, sc: Call)
    requires Eliminating(sc) && Valid(KeyOf(sc))
    ensures Record(eliminate, live, b, sc).1 == RecordOne(eliminate, b, SlotFor(KeyOf(sc)).value, ValueOf(sc))
  {
    var slot, v := SlotFor(KeyOf(sc)).value, ValueOf(sc);
    WritesOneSlot(sc, q => ReadThrough(live, b, q));
    hide Writes;
    OwnFlag(KeyOf(sc));
    var writes := map[slot := v];
    assert FlagsOf(writes) == {slot};
    assert b.capture + writes == b.capture[slot := v];
    assert slot in writes && forall s | s in writes :: s == slot;
  }

  lemma RecordOneKeepsTwins(a: Block, b: Block, slot: Slot, v: Value)
    requires TwinBlocks(a, b) && PlainFlags(a) && forall s | FlagOf(s) == slot :: s == slot
    ensures TwinBlocks(RecordOne(false, a, slot, v), RecordOne(true, b, slot, v))
    ensures PlainFlags(RecordOne(false, a, slot, v))
  {
    hide FlagOf;
    var a', b' := RecordOne(false, a, slot, v), RecordOne(true, b, slot, v);
    assert slot in a.flags ==> a.flags + {slot} == a.flags;
    forall s | s in a'.flags
      ensures Lookup(a'.capture, s) == Lookup(b'.capture, s)
    {
    }
  }

  lemma RecordKeepsTwins(live: State, live': State, a: Block, b: Block, sc: Call)
    requires TwinBlocks(a, b) && PlainFlags(a) && Eliminating(sc) && Valid(KeyOf(sc))
    ensures TwinBlocks(Record(false, live, a, sc).1, Record(true, live', b, sc).1)
    ensures PlainFlags(Record(false, live, a, sc).1)
  {
    hide Record, RecordOne, TwinBlocks, PlainFlags, FlagOf;
    RecordIs(false, live, a, sc);
    RecordIs(true, live', b, sc);
    SlotIsPlain(KeyOf(sc));
    RecordOneKeepsTwins(a, b, SlotFor(KeyOf(sc)).value, ValueOf(sc));
  }

  lemma SetterKeepsTwins(a: Client, b: Client, sc: Call)
    requires Twins(a, b) && Eliminating(sc)
    ensures Twins(ClientStep(false, a, Setter(sc)).0, ClientStep(true, b, Setter(sc)).0)
  {
    if Valid(KeyOf(sc)) {
      if a.recording.Some? {
        RecordKeepsTwins(a.live, b.live, a.recording.value, b.recording.value, sc);
      } else {
        DirectKeepsTwins(a.live, b.live, sc);
      }
      hide Writes, Direct, Record, Redundant;
    }
  }

  lemma SlotIsPlain(k: Key)
    requires Valid(k)
    ensures forall s | FlagOf(s) == SlotFor(k).value :: s == SlotFor(k).value
  {
  }

  lemma StepKeepsTwins(a: Client, b: Client, call: AppCall)
    requires Twins(a, b) && Allowed(a, call)
    ensures Allowed(b, call)
    ensures Twins(ClientStep(false, a, call).0, ClientStep(true, b, call).0)
  {
    match call
    case Setter(sc) => SetterKeepsTwins(a, b, sc);
    case Capture(id) =>
      if a.recording.None? && id in a.blocks {
        forall s | s in a.blocks[id].flags
          ensures Lookup(Transfer(a.blocks[id].flags, a.live, a.blocks[id].capture), s)
               == Lookup(Transfer(b.blocks[id].flags, b.live, b.blocks[id].capture), s)
        {
          TransferLookup(a.blocks[id].flags, a.live, a.blocks[id].capture, s);
          TransferLookup(b.blocks[id].flags, b.live, b.blocks[id].capture, s);
          assert Lookup(a.live, s) == Lookup(b.live, s);
        }
      }
    case Apply(id) =>
      if id in a.blocks {
        forall s
          ensures Lookup(Transfer(a.blocks[id].flags, a.blocks[id].capture, a.live), s)
               == Lookup(Transfer(b.blocks[id].flags, b.blocks[id].capture, b.live), s)
        {
          TransferLookup(a.blocks[id].flags, a.blocks[id].capture, a.live, s);
          TransferLookup(b.blocks[id].flags, b.blocks[id].capture, b.live, s);
          assert Lookup(a.live, s) == Lookup(b.live, s);
        }
      }
    case _ =>
  }

  lemma {:induction false} RunsAreTwins(a: Client, b: Client, calls: seq<AppCall>)
    requires Twins(a, b) && Run(false, a, calls)
    ensures Run(true, b, calls)
    ensures Twins(Play(false, a, calls).0, Play(true, b, calls).0)
    decreases calls
  {
    hide ClientStep, Twins, Allowed;
    if calls != [] {
      StepKeepsTwins(a, b, calls[0]);
      RunsAreTwins(ClientStep(false, a, calls[0]).0, ClientStep(true, b, calls[0]).0, calls[1..]);
    }
  }

  /** The same live state under every valid key, the same recording, the same recorded blocks. */
  ghost predicate SameServers(a: Server, b: Server) {
    && (forall k | Valid(k) :: Read(a.live, k) == Read(b.live, k))
    && a.recording == b.recording
    && a.blocks == b.blocks
  }

  lemma MatchingBlocksAgree(a: Block, b: Block, m: KeyMap, n: KeyMap)
    requires TwinBlocks(a, b) && BlockMatches(a, m) && BlockMatches(b, n)
    ensures m == n
  {
    forall k
      ensures k in m <==> k in n
      ensures k in m && k in n ==> m[k] == n[k]
    {
      assert BlockAt(a, m, k) && BlockAt(b, n, k);
    }
  }

  lemma MatchingServersAgree(c: Client, d: Client, s: Server, t: Server)
    requires Twins(c, d) && Matches(c, s) && Matches(d, t)
    ensures SameServers(s, t)
  {
    forall k | Valid(k)
      ensures Read(s.live, k) == Read(t.live, k)
    {
      assert LiveAt(c.live, s.live, k) && LiveAt(d.live, t.live, k);
      assert Lookup(c.live, SlotFor(k).value) == Lookup(d.live, SlotFor(k).value);
    }
    if c.recording.Some? {
      MatchingBlocksAgree(c.recording.value, d.recording.value, s.recording.value, t.recording.value);
    }
    forall id | id in s.blocks
      ensures s.blocks[id] == t.blocks[id]
    {
      MatchingBlocksAgree(c.blocks[id], d.blocks[id], s.blocks[id], t.blocks[id]);
    }
    assert s.blocks.Keys == t.blocks.Keys;
  }

  lemma SelfTwins(c: Client, s: Server)
    requires Matches(c, s)
    ensures Twins(c, c)
  {
    if c.recording.Some? {
      MatchedIsPlain(c.recording.value, s.recording.value);
    }
    forall id | id in c.blocks
      ensures PlainFlags(c.blocks[id])
    {
      MatchedIsPlain(c.blocks[id], s.blocks[id]);
    }
  }

  lemma MatchedIsPlain(b: Block, m: KeyMap)
    requires BlockMatches(b, m)
    ensures PlainFlags(b)
  {
    forall f, s | f in b.flags && FlagOf(s) == f
      ensures s == f
    {
      var k :| Valid(k) && SlotFor(k) == Some(f);
      SlotIsPlain(k);
    }
  }

  /** From agreed initial values, for every sequence of eliminating setters, BeginStateBlock, EndStateBlock,
      Capture, and Apply outside recording: the server fed the reduced stream and the server fed every message
      end with the same live values, the same recording and the same blocks. */
  lemma EliminationIsInvisible(c: Client, s: Server, calls: seq<AppCall>)
    requires Matches(c, s) && Run(false, c, calls)
    ensures Run(true, c, calls)
    ensures SameServers(HandleAll(s, Play(false, c, calls).1), HandleAll(s, Play(true, c, calls).1))
  {
    SelfTwins(c, s);
    RunsAreTwins(c, c, calls);
    RunKeepsMatch(false, c, s, calls);
    RunKeepsMatch(true, c, s, calls);
    MatchingServersAgree(Play(false, c, calls).0, Play(true, c, calls).0,
                         HandleAll(s, Play(false, c, calls).1), HandleAll(s, Play(true, c, calls).1));
  }
}
