/** When elimination is invisible: exactly from agreed values, and what that means across Reset. */
module SetterReset {
  import opened Options
  import opened DeviceState
  import opened SetterElimination

  /** No sequence of calls from here tells the reduced stream from the full one. */
  ghost predicate Invisible(c: Client, s: Server) {
    forall calls {:trigger Run(false, c, calls)} | Run(false, c, calls) ::
      && Run(true, c, calls)
      && SameServers(HandleAll(s, Play(false, c, calls).1), HandleAll(s, Play(true, c, calls).1))
  }

  /** Outside recordings, with the same blocks on both sides; the client keeps lights as on or off. */
  ghost predicate Idle(c: Client, s: Server) {
    && c.recording.None? && s.recording.None?
    && s.blocks.Keys == c.blocks.Keys
    && (forall id | id in c.blocks :: BlockMatches(c.blocks[id], s.blocks[id]))
    && (forall i: nat {:trigger LightEnable(i)} :: Lookup(c.live, LightEnable(i)) in {Number(0), Number(1)})
  }

  /** The setter call that stores `v` under key `k`. */
  function CallFor(k: Key, v: Value): (r: Call)
    ensures Eliminating(r) && KeyOf(r) == k
    ensures !k.LightEnableKey? || v == Number(0) || v == Number(1) ==> ValueOf(r) == v
  {
    match k
    case TransformKey(t) => SetTransform(t, v)
    case LightKey(i) => SetSlot(Light(i), v)
    case LightEnableKey(i) => EnableLight(i, if v == Number(0) then 0 else 1)
    case RenderStateKey(i) => SetSlot(RenderState(i), v)
    case TextureStageKey(stage, t) => SetTextureStageState(stage, t, v)
    case SamplerKey(sampler, t) => SetSamplerState(sampler, t, v)
  }

  /** Where the sides disagree, setting the client's own value is dropped, and the server keeps its other one. */
  lemma DroppedWrongly(c: Client, s: Server, k: Key)
    requires Idle(c, s) && Valid(k) && Read(s.live, k) != Lookup(c.live, SlotFor(k).value)
    ensures var calls := [Setter(CallFor(k, Lookup(c.live, SlotFor(k).value)))];
            && Run(false, c, calls) && Run(true, c, calls)
            && Read(HandleAll(s, Play(true, c, calls).1).live, k) != Read(HandleAll(s, Play(false, c, calls).1).live, k)
  {
    var slot := SlotFor(k).value;
    var v := Lookup(c.live, slot);
    var sc := CallFor(k, v);
    var call := Setter(sc);
    assert k.LightEnableKey? ==> slot == LightEnable(k.i);
    WritesOneSlot(sc, q => Lookup(c.live, q));
    hide Writes;
    assert [call][1..] == [];
    forall eliminate
      ensures Run(eliminate, c, [call]) && Play(eliminate, c, [call]).1 == ClientStep(eliminate, c, call).1
    {
      var d := ClientStep(eliminate, c, call).0;
      assert Run(eliminate, d, []) && Play(eliminate, d, []) == (d, []);
    }
    assert ClientStep(true, c, call).1 == [];
    assert ClientStep(false, c, call).1 == [SetMessage(k, v)];
    assert HandleAll(s, []) == s;
    assert [SetMessage(k, v)][1..] == [];
    assert HandleAll(s, [SetMessage(k, v)]) == Handle(s, SetMessage(k, v));
  }

  /** Agreed values are not only enough, they are what it takes. */
  lemma InvisibleExactly(c: Client, s: Server)
    requires Idle(c, s)
    ensures Invisible(c, s) <==> LiveMatches(c.live, s.live)
  {
    hide Run, Play, HandleAll;
    if LiveMatches(c.live, s.live) {
      forall calls | Run(false, c, calls)
        ensures Run(true, c, calls)
        ensures SameServers(HandleAll(s, Play(false, c, calls).1), HandleAll(s, Play(true, c, calls).1))
      {
        EliminationIsInvisible(c, s, calls);
      }
    } else {
      var k :| !LiveAt(c.live, s.live, k);
      DroppedWrongly(c, s, k);
      var calls := [Setter(CallFor(k, Lookup(c.live, SlotFor(k).value)))];
      assert Run(false, c, calls);
    }
  }

  // ---------------------------------------------------------------------------------------------
  // Reset
  // ---------------------------------------------------------------------------------------------

  const D3DRS_ZENABLE: nat := 7

  /** What ResetState assigns: texture stage and sampler states, render states, light switches and stream
      frequencies, but neither transforms nor lights. Reset calls it while the device has no swapchain, and then
      it takes depth buffering to be off. */
  predicate ResetValues(values: State) {
    && (forall s | s in values :: s.TextureStage? || s.Sampler? || s.RenderState? || s.LightEnable? || s.StreamFreq?)
    && (forall s | s in values && s.LightEnable? :: values[s] == Number(0))
    && RenderState(D3DRS_ZENABLE) in values && values[RenderState(D3DRS_ZENABLE)] == Number(0)
  }

  /** The client after Reset, whose ResetState assigns `values`. */
  function ResetClient(c: Client, values: State): Client {
    c.(live := c.live + values)
  }

  /** Elimination stays invisible across a Reset that leaves the runtime with `initial` if and only if the runtime's
      new values are those ResetState assigns and, where it assigns none, those set before the Reset. */
  lemma InvisibleAcrossReset(c: Client, s: Server, values: State, initial: KeyMap)
    requires Idle(c, s) && ResetValues(values)
    ensures Invisible(ResetClient(c, values), s.(live := initial))
       <==> forall k {:trigger Read(initial, k)} | Valid(k) ::
              var slot := SlotFor(k).value;
              Read(initial, k) == if slot in values then values[slot] else Lookup(c.live, slot)
  {
    var d, t := ResetClient(c, values), s.(live := initial);
    forall i: nat
      ensures Lookup(d.live, LightEnable(i)) in {Number(0), Number(1)}
    {
      assert Lookup(c.live, LightEnable(i)) in {Number(0), Number(1)};
    }
    InvisibleExactly(d, t);
    if LiveMatches(d.live, t.live) {
      forall k | Valid(k)
        ensures var slot := SlotFor(k).value;
                Read(initial, k) == if slot in values then values[slot] else Lookup(c.live, slot)
      {
        assert LiveAt(d.live, t.live, k);
      }
    }
  }

  /** So a transform that had another value than the one Reset gives it is one too many, and so is an automatic
      depth stencil, with which the runtime turns depth buffering on. */
  lemma ResetIsSeen(c: Client, s: Server, values: State, initial: KeyMap, t: nat)
    requires Idle(c, s) && ResetValues(values)
    requires || (IsValidTransform(t) && Lookup(c.live, Transform(MapXformStateTypeToIdx(t))) != Read(initial, TransformKey(t)))
             || Read(initial, RenderStateKey(D3DRS_ZENABLE)) != Number(0)
    ensures !Invisible(ResetClient(c, values), s.(live := initial))
  {
    InvisibleAcrossReset(c, s, values, initial);
    hide Invisible;
    if IsValidTransform(t) {
      var slot := SlotFor(TransformKey(t)).value;
      assert slot == Transform(MapXformStateTypeToIdx(t)) && slot !in values;
    }
  }
}
