/** Buffers in shadow mode: what the server's buffer has to do with the client's copy at any time. */
module ShadowBuffer {
  import opened Options
  import HeapBuffer

  // The application writes into the copy, and each unlock sends the locked range to the server.

  type Byte = bv8
  type Flags = HeapBuffer.Flags

  datatype LockInfo = LockInfo(offset: nat, size: nat, flags: Flags)

  datatype Message = UnlockBytes(offset: nat, data: seq<Byte>, flags: Flags)

  datatype State = State(
    shadow: seq<Byte>, sendWhole: bool,
    locks: seq<LockInfo>,        // oldest first
    pending: seq<Message>,       // sent and not yet processed
    server: seq<Byte>,
    reported: set<nat>)          // history: positions some unlock has sent

  /** A step of the application, or of the server. `blank` is what a discarding lock on the server returns. */
  datatype Event =
    | LockCall(offset: nat, size: nat, flags: Flags)
    | Write(i: nat, b: Byte)
    | UnlockCall
    | Process(blank: seq<Byte>)

  // ---------------------------------------------------------------------------------------------
  // Operations
  // ---------------------------------------------------------------------------------------------

  /** Position `i` is in the range the application asked for; size 0 asks for everything up to the end. */
  predicate InRange(s: State, info: LockInfo, i: nat) {
    info.offset <= i < |s.shadow| && (info.size == 0 || i < info.offset + info.size)
  }

  /** Where the range an unlock sends ends. */
  function RangeEnd(s: State, info: LockInfo): (hi: nat)
    ensures info.offset <= |s.shadow| ==> info.offset <= hi <= |s.shadow|
  {
    if info.offset <= |s.shadow| then info.offset + HeapBuffer.ClampedSize(info.size, info.offset, |s.shadow|) else info.offset
  }

  /** Positions the application may currently write. */
  predicate Open(s: State, i: nat) {
    exists k :: 0 <= k < |s.locks| && !s.locks[k].flags.readOnly && InRange(s, s.locks[k], i)
  }

  predicate SendsAll(s: State, info: LockInfo) {
    s.sendWhole || (info.offset == 0 && (info.size == 0 || info.size >= |s.shadow|))
  }

  /** What the source demands: offsets within the buffer, writes only where an outstanding lock allows them,
      and DISCARD only when the whole buffer is to be rewritten. */
  predicate Allowed(s: State, e: Event) {
    match e
    case LockCall(offset, size, flags) =>
      offset <= |s.shadow| && (flags.discard && !flags.readOnly ==> SendsAll(s, LockInfo(offset, size, flags)))
    case Write(i, _) => i < |s.shadow| && Open(s, i)
    case UnlockCall => true
    case Process(blank) => s.pending != [] && |blank| == |s.server|
  }

  /** The bytes from `lo` up to `hi` replaced by `data`. */
  function Overwrite(buf: seq<Byte>, lo: nat, data: seq<Byte>): (r: seq<Byte>)
    requires lo + |data| <= |buf|
    ensures |r| == |buf|
    ensures forall i | 0 <= i < |buf| :: r[i] == if lo <= i < lo + |data| then data[i - lo] else buf[i]
  {
    buf[..lo] + data + buf[lo + |data|..]
  }

  /** The server's unlock command: lock with the client's flags, copy, unlock. */
  function Apply(buf: seq<Byte>, m: Message, blank: seq<Byte>): (r: seq<Byte>)
    requires m.offset + |m.data| <= |buf| == |blank|
    ensures |r| == |buf|
  {
    Overwrite(if m.flags.discard then blank else buf, m.offset, m.data)
  }

  predicate MessageOk(m: Message, size: nat) {
    m.offset + |m.data| <= size && (m.flags.discard ==> |m.data| == size)
  }

  predicate Between(lo: nat, i: nat, hi: nat) {
    lo <= i < hi
  }

  function Positions(lo: nat, hi: nat): set<nat> {
    set i: nat | i < hi && Between(lo, i, hi)
  }

  predicate MessagesOk(pending: seq<Message>, size: nat) {
    forall k | 0 <= k < |pending| :: MessageOk(pending[k], size)
  }

  function Unlock(s: State): State
    requires forall k | 0 <= k < |s.locks| :: s.locks[k].offset <= |s.shadow|
  {
    if s.locks == [] then s
    else
      var info, rest := s.locks[0], s.locks[1..];
      if info.flags.readOnly then s.(locks := rest)
      else
        var lo := if s.sendWhole then 0 else info.offset;
        var hi := if s.sendWhole then |s.shadow| else RangeEnd(s, info);
        s.(locks := rest, pending := s.pending + [UnlockBytes(lo, s.shadow[lo..hi], info.flags)],
           reported := s.reported + Positions(lo, hi))
  }

  /** What an unlock sends: the whole buffer if it always does, everything from the offset on if the size is 0 or
      reaches past the end, and otherwise exactly the bytes asked for; nothing for a lock that only read. */
  lemma UnlockSends(s: State)
    requires s.locks != [] && forall k | 0 <= k < |s.locks| :: s.locks[k].offset <= |s.shadow|
    ensures var info, t, size := s.locks[0], Unlock(s), |s.shadow|;
            var o, n := info.offset, info.size;
            && t.locks == s.locks[1..] && t.shadow == s.shadow && t.server == s.server
            && (info.flags.readOnly ==> t.pending == s.pending)
            && (!info.flags.readOnly && s.sendWhole ==> t.pending == s.pending + [UnlockBytes(0, s.shadow, info.flags)])
            && (!info.flags.readOnly && !s.sendWhole && (n == 0 || n > size - o) ==>
                  t.pending == s.pending + [UnlockBytes(o, s.shadow[o..], info.flags)])
            && (!info.flags.readOnly && !s.sendWhole && 0 < n <= size - o ==>
                  t.pending == s.pending + [UnlockBytes(o, s.shadow[o..o + n], info.flags)])
  {
    assert s.shadow[0..|s.shadow|] == s.shadow;
  }

  predicate Sized(s: State) {
    && |s.server| == |s.shadow|
    && (forall k | 0 <= k < |s.locks| :: s.locks[k].offset <= |s.shadow|)
    && MessagesOk(s.pending, |s.shadow|)
  }

  function Do(s: State, e: Event): State
    requires Sized(s) && Allowed(s, e)
  {
    match e
    case LockCall(offset, size, flags) => s.(locks := s.locks + [LockInfo(offset, size, flags)])
    case Write(i, b) => s.(shadow := s.shadow[i := b])
    case UnlockCall => Unlock(s)
    case Process(blank) => s.(pending := s.pending[1..], server := Apply(s.server, s.pending[0], blank))
  }

  // ---------------------------------------------------------------------------------------------
  // The server's buffer once everything sent is processed
  // ---------------------------------------------------------------------------------------------

  function Drained(buf: seq<Byte>, pending: seq<Message>): (r: seq<Byte>)
    requires MessagesOk(pending, |buf|)
    ensures |r| == |buf|
    decreases |pending|
  {
    if pending == [] then buf
    else
      var before := Drained(buf, pending[..|pending| - 1]);
      Apply(before, pending[|pending| - 1], before)
  }

  /** What a discarding lock returns does not matter: the message covers it all. */
  lemma BlankDoesNotMatter(buf: seq<Byte>, m: Message, a: seq<Byte>, b: seq<Byte>)
    requires MessageOk(m, |buf|) && |a| == |b| == |buf|
    ensures Apply(buf, m, a) == Apply(buf, m, b)
  {
  }

  lemma {:induction false} DrainFirst(buf: seq<Byte>, m: Message, rest: seq<Message>, blank: seq<Byte>)
    requires MessageOk(m, |buf|) && |blank| == |buf| && MessagesOk(rest, |buf|)
    ensures MessagesOk([m] + rest, |buf|)
    ensures Drained(buf, [m] + rest) == Drained(Apply(buf, m, blank), rest)
    decreases |rest|
  {
    hide Apply, MessageOk;
    BlankDoesNotMatter(buf, m, blank, buf);
    if rest == [] {
      assert [m] + rest == [m];
      assert [m][..0] == [];
      assert Drained(buf, []) == buf;
    } else {
      var n := |rest| - 1;
      assert ([m] + rest)[..n + 1] == [m] + rest[..n];
      DrainFirst(buf, m, rest[..n], blank);
      assert rest == rest[..n] + [rest[n]];
    }
  }

  // ---------------------------------------------------------------------------------------------
  // Invariant
  // ---------------------------------------------------------------------------------------------

  /** Whether position `i` is right or will be once everything sent has been processed. `known` are the
      positions where both buffers agreed from the start. */
  predicate Agrees(s: State, known: set<nat>, i: nat)
    requires Sized(s)
  {
    i < |s.shadow| && (i in known || i in s.reported) && !Open(s, i) ==> Drained(s.server, s.pending)[i] == s.shadow[i]
  }

  predicate WholeWhenDiscarding(s: State) {
    forall k | 0 <= k < |s.locks| :: s.locks[k].flags.discard && !s.locks[k].flags.readOnly ==> SendsAll(s, s.locks[k])
  }

  ghost predicate Inv(s: State, known: set<nat>) {
    && Sized(s)
    && WholeWhenDiscarding(s)
    && forall i {:trigger Agrees(s, known, i)} :: Agrees(s, known, i)
  }

  lemma LockKeepsInv(s: State, known: set<nat>, offset: nat, size: nat, flags: Flags)
    requires Inv(s, known) && Allowed(s, LockCall(offset, size, flags))
    ensures Inv(Do(s, LockCall(offset, size, flags)), known)
  {
    var t := Do(s, LockCall(offset, size, flags));
    forall i: nat
      ensures Agrees(t, known, i)
    {
      assert Agrees(s, known, i);
      if Open(s, i) {
        var k :| 0 <= k < |s.locks| && !s.locks[k].flags.readOnly && InRange(s, s.locks[k], i);
        assert t.locks[k] == s.locks[k] && InRange(t, t.locks[k], i);
      }
    }
  }

  lemma WriteKeepsInv(s: State, known: set<nat>, at: nat, b: Byte)
    requires Inv(s, known) && Allowed(s, Write(at, b))
    ensures Inv(Do(s, Write(at, b)), known)
  {
    var t := Do(s, Write(at, b));
    forall i: nat
      ensures Agrees(t, known, i)
    {
      assert Agrees(s, known, i);
      if Open(s, i) {
        var k :| 0 <= k < |s.locks| && !s.locks[k].flags.readOnly && InRange(s, s.locks[k], i);
        assert InRange(t, t.locks[k], i);
      }
    }
  }

  /** A position that only the popped lock kept open is one of those it sends. */
  lemma StillOpen(s: State, i: nat)
    requires Sized(s) && s.locks != [] && Open(s, i)
    ensures Open(Unlock(s), i) || (!s.locks[0].flags.readOnly && InRange(s, s.locks[0], i))
  {
    var t := Unlock(s);
    var k :| 0 <= k < |s.locks| && !s.locks[k].flags.readOnly && InRange(s, s.locks[k], i);
    if k > 0 {
      assert t.locks[k - 1] == s.locks[k] && InRange(t, t.locks[k - 1], i);
    }
  }

  /** What an unlock sends is right, and it changes nothing else. */
  lemma UnlockAgrees(s: State, known: set<nat>, i: nat)
    requires Sized(s) && WholeWhenDiscarding(s) && s.locks != [] && Sized(Unlock(s)) && Agrees(s, known, i)
    ensures Agrees(Unlock(s), known, i)
  {
    hide WholeWhenDiscarding;
    var t := Unlock(s);
    if Open(s, i) {
      StillOpen(s, i);
    }
    if !s.locks[0].flags.readOnly {
      assert t.pending[..|s.pending|] == s.pending;
    }
  }

  lemma UnlockKeepsSizes(s: State)
    requires Sized(s) && WholeWhenDiscarding(s)
    ensures Sized(Unlock(s)) && WholeWhenDiscarding(Unlock(s))
  {
    if s.locks != [] {
      var t := Unlock(s);
      assert forall k | 0 <= k < |t.locks| :: t.locks[k] == s.locks[k + 1];
      if !s.locks[0].flags.readOnly {
        assert MessageOk(t.pending[|s.pending|], |s.shadow|);
      }
    }
  }

  lemma UnlockKeepsInv(s: State, known: set<nat>)
    requires Inv(s, known)
    ensures Inv(Unlock(s), known)
  {
    UnlockKeepsSizes(s);
    if s.locks != [] {
      hide Unlock, Agrees, Sized, WholeWhenDiscarding;
      forall i: nat
        ensures Agrees(Unlock(s), known, i)
      {
        assert Agrees(s, known, i);
        UnlockAgrees(s, known, i);
      }
    }
  }

  lemma ProcessKeepsInv(s: State, known: set<nat>, blank: seq<Byte>)
    requires Inv(s, known) && Allowed(s, Process(blank))
    ensures Inv(Do(s, Process(blank)), known)
  {
    var t := Do(s, Process(blank));
    assert s.pending == [s.pending[0]] + s.pending[1..];
    DrainFirst(s.server, s.pending[0], s.pending[1..], blank);
    forall i: nat
      ensures Agrees(t, known, i)
    {
      assert Agrees(s, known, i);
      if Open(s, i) {
        var k :| 0 <= k < |s.locks| && !s.locks[k].flags.readOnly && InRange(s, s.locks[k], i);
        assert InRange(t, t.locks[k], i);
      }
    }
  }

  predicate Run(s: State, events: seq<Event>)
    decreases events
  {
    events == [] || (Sized(s) && Allowed(s, events[0]) && Run(Do(s, events[0]), events[1..]))
  }

  function After(s: State, events: seq<Event>): State
    requires Run(s, events)
    decreases events
  {
    if events == [] then s else After(Do(s, events[0]), events[1..])
  }

  lemma {:induction false} RunKeepsInv(s: State, known: set<nat>, events: seq<Event>)
    requires Inv(s, known) && Run(s, events)
    ensures Inv(After(s, events), known)
    decreases events
  {
    if events != [] {
      match events[0] {
        case LockCall(offset, size, flags) => LockKeepsInv(s, known, offset, size, flags);
        case Write(i, b) => WriteKeepsInv(s, known, i, b);
        case UnlockCall => UnlockKeepsInv(s, known);
        case Process(blank) => ProcessKeepsInv(s, known, blank);
      }
      RunKeepsInv(Do(s, events[0]), known, events[1..]);
    }
  }

  /** A buffer whose copy is all zero, and whatever the server's buffer starts out with. */
  function NewState(zeros: seq<Byte>, sendWhole: bool, server: seq<Byte>): State {
    State(zeros, sendWhole, [], [], server, {})
  }

  /** For any nesting and overlap of locks and any progress of the server: once everything sent has been
      processed, the server's buffer equals the copy outside the ranges still open for writing, at every
      position that some unlock has sent or where the two agreed from the start; with no lock outstanding,
      at every such position. */
  lemma ServerFollowsShadow(zeros: seq<Byte>, sendWhole: bool, server: seq<Byte>, events: seq<Event>)
    requires |server| == |zeros| && Run(NewState(zeros, sendWhole, server), events)
    ensures var s := After(NewState(zeros, sendWhole, server), events);
            && |s.server| == |s.shadow| == |zeros|
            && (s.pending == [] ==>
                  forall i | 0 <= i < |zeros| && !Open(s, i) && (i in s.reported || server[i] == zeros[i]) ::
                    s.server[i] == s.shadow[i])
            && (s.pending == [] && s.locks == [] && server == zeros ==> s.server == s.shadow)
  {
    var s0 := NewState(zeros, sendWhole, server);
    var known := set i: nat | i < |zeros| && server[i] == zeros[i];
    forall i: nat
      ensures Agrees(s0, known, i)
    {
    }
    RunKeepsInv(s0, known, events);
    RunKeepsSize(s0, events);
    var s := After(s0, events);
    forall i | 0 <= i < |zeros|
      ensures s.pending == [] && !Open(s, i) && (i in s.reported || server[i] == zeros[i]) ==> s.server[i] == s.shadow[i]
    {
      assert Agrees(s, known, i);
    }
  }

  lemma {:induction false} RunKeepsSize(s: State, events: seq<Event>)
    requires Run(s, events)
    ensures |After(s, events).shadow| == |s.shadow|
    decreases events
  {
    if events != [] {
      RunKeepsSize(Do(s, events[0]), events[1..]);
    }
  }
}
