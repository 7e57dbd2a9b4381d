/** The device's setters and state blocks in place: which field each call updates and what it sends. */
module DeviceSetters {
  import opened Options
  import opened DeviceState
  import opened SetterElimination

  class Device {
    const eliminate: bool                // the option to drop redundant setter calls
    var live: State                      // m_state
    var recording: Option<Block>         // m_stateRecording: m_dirtyFlags and m_captureState
    var blocks: map<nat, Block>
    var next: nat
    var sent: seq<Message>

    function Model(): Client
      reads this
    {
      Client(live, recording, blocks, next)
    }

    constructor (eliminate: bool, initial: State)
      ensures this.eliminate == eliminate && Model() == Client(initial, None, map[], 0) && sent == []
    {
      this.eliminate := eliminate;
      live, recording, blocks, next, sent := initial, None, map[], 0, [];
    }

    /** An eliminating setter: rejected, dropped, or stored and sent. */
    method Set(sc: Call) returns (ok: bool)
      requires Eliminating(sc)
      modifies this
      ensures ok <==> Valid(KeyOf(sc))
      ensures Model() == ClientStep(eliminate, old(Model()), Setter(sc)).0
      ensures sent == old(sent) + ClientStep(eliminate, old(Model()), Setter(sc)).1
    {
      var key, v := KeyOf(sc), ValueOf(sc);
      if SlotFor(key).None? {
        return false;
      }
      var slot := SlotFor(key).value;
      SetterCall(eliminate, Model(), sc);
      ok := true;
      if recording.Some? {
        var b := recording.value;
        if eliminate && slot in b.flags && Lookup(b.capture, slot) == v {
          return;
        }
        recording := Some(Block(b.flags + {slot}, b.capture[slot := v]));
      } else {
        if eliminate && Lookup(live, slot) == v {
          return;
        }
        live := live[slot := v];
      }
      sent := sent + [SetMessage(key, v)];
    }

    method BeginStateBlock() returns (ok: bool)
      modifies this
      ensures ok <==> old(recording).None?
      ensures Model() == ClientStep(eliminate, old(Model()), AppCall.BeginStateBlock).0
      ensures sent == old(sent) + ClientStep(eliminate, old(Model()), AppCall.BeginStateBlock).1
    {
      if recording.Some? {
        return false;
      }
      recording := Some(EMPTY_BLOCK);
      sent := sent + [BeginMessage];
      ok := true;
    }

    method EndStateBlock() returns (id: Option<nat>)
      modifies this
      ensures id == if old(recording).Some? then Some(old(next)) else None
      ensures Model() == ClientStep(eliminate, old(Model()), AppCall.EndStateBlock).0
      ensures sent == old(sent) + ClientStep(eliminate, old(Model()), AppCall.EndStateBlock).1
    {
      if recording.None? {
        return None;
      }
      id := Some(next);
      sent := sent + [EndMessage(next)];
      blocks, next, recording := blocks[next := recording.value], next + 1, None;
    }

    method Capture(id: nat) returns (ok: bool)
      requires id in blocks
      modifies this
      ensures ok <==> old(recording).None?
      ensures Model() == ClientStep(eliminate, old(Model()), AppCall.Capture(id)).0
      ensures sent == old(sent) + ClientStep(eliminate, old(Model()), AppCall.Capture(id)).1
    {
      if recording.Some? {
        return false;
      }
      var b := blocks[id];
      var captured := StateTransfer(b.flags, live, b.capture);
      blocks := blocks[id := Block(b.flags, captured)];
      sent := sent + [CaptureMessage(id)];
      ok := true;
    }

    method Apply(id: nat)
      requires id in blocks
      modifies this
      ensures Model() == ClientStep(eliminate, old(Model()), AppCall.Apply(id)).0
      ensures sent == old(sent) + ClientStep(eliminate, old(Model()), AppCall.Apply(id)).1
    {
      live := StateTransfer(blocks[id].flags, blocks[id].capture, live);
      sent := sent + [ApplyMessage(id)];
    }
  }

  /** Slot by slot, every slot under a raised flag. */
  method StateTransfer(flags: set<Slot>, src: State, dst: State) returns (r: State)
    ensures r == Transfer(flags, src, dst)
  {
    hide Covered, Lookup, FlagOf;
    r := dst;
    var todo := Covered(flags);
    ghost var all := todo;
    while todo != {}
      invariant todo <= all && r.Keys == dst.Keys + (all - todo)
      invariant forall s | s in r :: r[s] == if s in all - todo then Lookup(src, s) else dst[s]
      decreases |todo|
    {
      var slot :| slot in todo;
      r := r[slot := Lookup(src, slot)];
      todo := todo - {slot};
    }
    assert r.Keys == Transfer(flags, src, dst).Keys;
  }
}
