/**
 Dynamic buffers in shared-heap mode: which allocations are live, which locks still refer to them, and the
 stream of messages the server replays.
 */
module HeapBuffer {
  import opened Options

  type AllocId = nat

  datatype Flags = Flags(discard: bool, readOnly: bool)

  datatype LockInfo = LockInfo(
    offset: nat, size: nat, flags: Flags,
    bufferId: AllocId,             // the allocation this lock writes to
    discarded: Option<AllocId>)    // the allocation this lock replaced

  datatype Message =
    | Alloc(id: AllocId)
    | Dealloc(id: AllocId)
    | UnlockData(offset: nat, size: nat, flags: Flags, id: AllocId)

  datatype Buffer = Buffer(
    size: nat, sendWhole: bool,
    bufferId: Option<AllocId>,
    locks: seq<LockInfo>,
    nextUid: AllocId,
    sent: seq<Message>,
    lost: set<AllocId>)            // history: allocations nothing will ever free

  datatype Event = LockCall(offset: nat, size: nat, flags: Flags, heapHasRoom: bool) | UnlockCall

  // ---------------------------------------------------------------------------------------------
  // Operations
  // ---------------------------------------------------------------------------------------------

  function NewBuffer(size: nat, sendWhole: bool, firstUid: AllocId): Buffer {
    Buffer(size, sendWhole, None, [], firstUid, [], {})
  }

  /** The range an unlock sends: size 0 means up to the end, and oversized requests are clamped. */
  function ClampedSize(size: nat, offset: nat, bufferSize: nat): nat
    requires offset <= bufferSize
  {
    if size == 0 || size > bufferSize - offset then bufferSize - offset else size
  }

  function Ids(x: Option<AllocId>): set<AllocId> {
    if x.Some? then {x.value} else {}
  }

  /** lock: a discard, or the first lock, takes a new allocation. A failed allocation leaves the buffer without
      one, and what it replaced is forgotten. */
  function Lock(b: Buffer, offset: nat, size: nat, flags: Flags, heapHasRoom: bool): Buffer {
    var discarded := if flags.discard then b.bufferId else None;
    if !flags.discard && b.bufferId.Some? then
      b.(locks := b.locks + [LockInfo(offset, size, flags, b.bufferId.value, None)])
    else if heapHasRoom then
      b.(bufferId := Some(b.nextUid), nextUid := b.nextUid + 1, sent := b.sent + [Alloc(b.nextUid)],
         locks := b.locks + [LockInfo(offset, size, flags, b.nextUid, discarded)])
    else
      b.(bufferId := None, lost := b.lost + Ids(discarded))
  }

  /** unlock: the oldest lock is reported to the server, unless it was read-only, and only then is what it
      replaced deallocated. */
  function Unlock(b: Buffer): Buffer
    requires forall k | 0 <= k < |b.locks| :: b.locks[k].offset <= b.size
  {
    if b.locks == [] then b else
      var info := b.locks[0];
      var rest := b.locks[1..];
      if info.flags.readOnly then b.(locks := rest, lost := b.lost + Ids(info.discarded))
      else
        var offset := if b.sendWhole then 0 else info.offset;
        var size := if b.sendWhole then b.size else ClampedSize(info.size, info.offset, b.size);
        var reported := b.sent + [UnlockData(offset, size, info.flags, info.bufferId)];
        b.(locks := rest, sent := if info.discarded.Some? then reported + [Dealloc(info.discarded.value)] else reported)
  }

  /** The range an unlock reports: the whole buffer if it always does, everything from the offset on if the size
      is 0 or reaches past the end, and otherwise exactly what was asked for; nothing for a lock that only read. */
  lemma UnlockReports(b: Buffer)
    requires b.locks != [] && forall k | 0 <= k < |b.locks| :: b.locks[k].offset <= b.size
    ensures var info, t, from := b.locks[0], Unlock(b), |b.sent|;
            var o, n := info.offset, info.size;
            && t.locks == b.locks[1..] && t.bufferId == b.bufferId
            && (info.flags.readOnly ==> t.sent == b.sent)
            && (!info.flags.readOnly ==>
                  && b.sent < t.sent && t.sent[from].UnlockData?
                  && t.sent[from].flags == info.flags && t.sent[from].id == info.bufferId
                  && t.sent[from + 1..] == (if info.discarded.Some? then [Dealloc(info.discarded.value)] else [])
                  && (b.sendWhole ==> t.sent[from].offset == 0 && t.sent[from].size == b.size)
                  && (!b.sendWhole ==> t.sent[from].offset == o)
                  && (!b.sendWhole && (n == 0 || n > b.size - o) ==> o + t.sent[from].size == b.size)
                  && (!b.sendWhole && 0 < n <= b.size - o ==> t.sent[from].size == n))
  {
  }

  /** The destructor frees the current allocation. */
  function Destroy(b: Buffer): Buffer {
    if b.bufferId.Some? then b.(bufferId := None, sent := b.sent + [Dealloc(b.bufferId.value)]) else b
  }

  // ---------------------------------------------------------------------------------------------
  // The server's view
  // ---------------------------------------------------------------------------------------------

  function Replay(live: set<AllocId>, m: Message): set<AllocId> {
    match m
    case Alloc(id) => live + {id}
    case Dealloc(id) => live - {id}
    case UnlockData(_, _, _, _) => live
  }

  /** The allocations the server knows after replaying `sent`. */
  function Live(sent: seq<Message>): set<AllocId> {
    if sent == [] then {} else Replay(Live(sent[..|sent| - 1]), sent[|sent| - 1])
  }

  function Allocated(sent: seq<Message>): set<AllocId> {
    set k | 0 <= k < |sent| && sent[k].Alloc? :: sent[k].id
  }

  predicate MessageOk(before: seq<Message>, m: Message) {
    if m.Alloc? then m.id !in Allocated(before) else m.id in Live(before)
  }

  /** Every id is allocated at most once, deallocated only while live, and every unlock the server replays
      names an allocation that is live at that point of the stream. */
  predicate StreamOk(sent: seq<Message>) {
    sent == [] || (StreamOk(sent[..|sent| - 1]) && MessageOk(sent[..|sent| - 1], sent[|sent| - 1]))
  }

  lemma LiveSnoc(sent: seq<Message>, m: Message)
    ensures Live(sent + [m]) == Replay(Live(sent), m)
    ensures StreamOk(sent + [m]) <==> StreamOk(sent) && MessageOk(sent, m)
    ensures Allocated(sent + [m]) == Allocated(sent) + (if m.Alloc? then {m.id} else {})
  {
    var all := sent + [m];
    assert all[..|sent|] == sent && all[|sent|] == m;
    forall id
      ensures id in Allocated(all) <==> id in Allocated(sent) + (if m.Alloc? then {m.id} else {})
    {
      if id in Allocated(sent) {
        var k :| 0 <= k < |sent| && sent[k].Alloc? && sent[k].id == id;
        assert all[k] == sent[k];
      }
    }
  }

  lemma {:induction false} LiveWasAllocated(sent: seq<Message>)
    ensures Live(sent) <= Allocated(sent)
  {
    if sent != [] {
      var n := |sent| - 1;
      LiveWasAllocated(sent[..n]);
      assert sent == sent[..n] + [sent[n]];
      LiveSnoc(sent[..n], sent[n]);
    }
  }

  /** A well-formed stream frees no id twice. */
  lemma {:induction false} FreedAtMostOnce(sent: seq<Message>, i: nat, j: nat)
    requires StreamOk(sent) && i < j < |sent| && sent[i].Dealloc? && sent[j].Dealloc?
    ensures sent[i].id != sent[j].id
    decreases |sent|
  {
    var n := |sent| - 1;
    var init := sent[..n];
    if j < n {
      FreedAtMostOnce(init, i, j);
    } else {
      GoneForGood(init, i);
    }
  }

  lemma {:induction false} GoneForGood(sent: seq<Message>, i: nat)
    requires StreamOk(sent) && i < |sent| && sent[i].Dealloc?
    ensures sent[i].id !in Live(sent) && sent[i].id in Allocated(sent)
    decreases |sent|
  {
    var n := |sent| - 1;
    var init := sent[..n];
    assert sent == init + [sent[n]];
    LiveSnoc(init, sent[n]);
    if i < n {
      assert init[i] == sent[i];
      GoneForGood(init, i);
    } else {
      LiveWasAllocated(init);
    }
  }

  // ---------------------------------------------------------------------------------------------
  // Invariant
  // ---------------------------------------------------------------------------------------------

  function Queued(locks: seq<LockInfo>): set<AllocId> {
    set k | 0 <= k < |locks| && locks[k].discarded.Some? :: locks[k].discarded.value
  }

  /** A lock's allocation outlives the lock: it is the current one, or one that a younger lock will free, or
      one that nothing frees. */
  predicate LockOk(b: Buffer, k: nat)
    requires k < |b.locks|
  {
    && b.locks[k].offset <= b.size
    && b.locks[k].bufferId in Ids(b.bufferId) + Queued(b.locks[k + 1..]) + b.lost
  }

  predicate QueueOk(b: Buffer, k: nat)
    requires k < |b.locks|
  {
    b.locks[k].discarded.Some? ==>
      && b.locks[k].discarded.value !in Queued(b.locks[k + 1..])
      && b.locks[k].discarded.value !in Ids(b.bufferId) + b.lost
  }

  ghost predicate Inv(b: Buffer) {
    && StreamOk(b.sent)
    && Live(b.sent) == Ids(b.bufferId) + Queued(b.locks) + b.lost
    && Ids(b.bufferId) !! b.lost
    && (forall id | id in Allocated(b.sent) :: id < b.nextUid)
    && (forall k {:trigger LockOk(b, k)} | 0 <= k < |b.locks| ::
          LockOk(b, k))
    && (forall k {:trigger QueueOk(b, k)} | 0 <= k < |b.locks| ::
          QueueOk(b, k))
  }

  predicate Allowed(b: Buffer, e: Event) {
    e.LockCall? ==> e.offset <= b.size
  }

  function Do(b: Buffer, e: Event): Buffer
    requires forall k | 0 <= k < |b.locks| :: b.locks[k].offset <= b.size
  {
    match e
    case LockCall(offset, size, flags, heapHasRoom) => Lock(b, offset, size, flags, heapHasRoom)
    case UnlockCall => Unlock(b)
  }

  /** The two events that lose an allocation: a discard that finds no room, and the unlock of a lock that both
      discarded and only read. */
  predicate Loses(b: Buffer, e: Event) {
    match e
    case LockCall(_, _, flags, heapHasRoom) => flags.discard && b.bufferId.Some? && !heapHasRoom
    case UnlockCall => b.locks != [] && b.locks[0].flags.readOnly && b.locks[0].discarded.Some?
  }

  lemma QueuedCons(locks: seq<LockInfo>)
    requires locks != []
    ensures Queued(locks) == Ids(locks[0].discarded) + Queued(locks[1..])
  {
    forall id
      ensures id in Queued(locks) <==> id in Ids(locks[0].discarded) + Queued(locks[1..])
    {
      if id in Queued(locks) {
        var k :| 0 <= k < |locks| && locks[k].discarded.Some? && locks[k].discarded.value == id;
        assert k > 0 ==> locks[1..][k - 1] == locks[k];
      }
    }
  }

  lemma QueuedSnoc(locks: seq<LockInfo>, x: LockInfo)
    ensures Queued(locks + [x]) == Queued(locks) + Ids(x.discarded)
  {
    var all := locks + [x];
    assert all[|locks|] == x;
    forall id
      ensures id in Queued(all) <==> id in Queued(locks) + Ids(x.discarded)
    {
      if id in Queued(locks) {
        var k :| 0 <= k < |locks| && locks[k].discarded.Some? && locks[k].discarded.value == id;
        assert all[k] == locks[k];
      }
    }
  }

  lemma QueuedTail(locks: seq<LockInfo>, k: nat)
    requires k <= |locks|
    ensures Queued(locks[k..]) <= Queued(locks)
    decreases k
  {
    if k > 0 {
      QueuedCons(locks);
      QueuedTail(locks[1..], k - 1);
      assert locks[1..][k - 1..] == locks[k..];
    } else {
      assert locks[0..] == locks;
    }
  }

  lemma OffsetsOk(b: Buffer)
    requires Inv(b)
    ensures forall k | 0 <= k < |b.locks| :: b.locks[k].offset <= b.size
  {
    forall k | 0 <= k < |b.locks|
      ensures b.locks[k].offset <= b.size
    {
      assert LockOk(b, k);
    }
  }

  /** One more lock on the buffer, which may have got a new allocation for it. */
  lemma AppendKeepsLocks(b: Buffer, b': Buffer, x: LockInfo)
    requires Inv(b) && b'.size == b.size && b'.lost == b.lost && b'.locks == b.locks + [x]
    requires x.offset <= b.size && Ids(b'.bufferId) == {x.bufferId}
    requires Ids(b.bufferId) <= {x.bufferId} + Ids(x.discarded)
    requires x.discarded.Some? ==> x.discarded == b.bufferId && b'.bufferId != b.bufferId
    requires x.discarded.Some? || b.bufferId.None? || b.bufferId == b'.bufferId
    requires b.bufferId != b'.bufferId ==> x.bufferId !in Live(b.sent)
    ensures forall k | 0 <= k < |b'.locks| :: LockOk(b', k) && QueueOk(b', k)
  {
    var n := |b.locks|;
    forall k | 0 <= k < |b'.locks|
      ensures LockOk(b', k) && QueueOk(b', k)
    {
      if k < n {
        assert LockOk(b, k) && QueueOk(b, k);
        assert b'.locks[k + 1..] == b.locks[k + 1..] + [x];
        QueuedSnoc(b.locks[k + 1..], x);
        QueuedTail(b.locks, k);
        QueuedTail(b.locks, k + 1);
        QueuedCons(b.locks[k..]);
        assert b.locks[k..][1..] == b.locks[k + 1..];
      } else {
        assert b'.locks[n + 1..] == [];
      }
    }
  }

  lemma LockKeepsInv(b: Buffer, offset: nat, size: nat, flags: Flags, heapHasRoom: bool)
    requires Inv(b) && offset <= b.size
    ensures Inv(Lock(b, offset, size, flags, heapHasRoom))
  {
    var b' := Lock(b, offset, size, flags, heapHasRoom);
    var discarded := if flags.discard then b.bufferId else None;
    LiveSnoc(b.sent, Alloc(b.nextUid));
    LiveWasAllocated(b.sent);
    if !flags.discard && b.bufferId.Some? {
      var x := LockInfo(offset, size, flags, b.bufferId.value, None);
      AppendKeepsLocks(b, b', x);
      QueuedSnoc(b.locks, x);
    } else if heapHasRoom {
      var x := LockInfo(offset, size, flags, b.nextUid, discarded);
      AppendKeepsLocks(b, b', x);
      QueuedSnoc(b.locks, x);
    } else {
      FailedLockKeepsInv(b, b', discarded);
    }
  }

  lemma FailedLockKeepsInv(b: Buffer, b': Buffer, discarded: Option<AllocId>)
    requires Inv(b) && discarded == b.bufferId
    requires b' == b.(bufferId := None, lost := b.lost + Ids(discarded))
    ensures Inv(b')
  {
    forall k | 0 <= k < |b'.locks|
      ensures LockOk(b', k) && QueueOk(b', k)
    {
      assert LockOk(b, k) && QueueOk(b, k);
    }
  }

  /** The oldest lock goes; the others keep their place. */
  lemma PopKeepsLocks(b: Buffer, b': Buffer)
    requires Inv(b) && b.locks != [] && b'.size == b.size && b'.locks == b.locks[1..] && b'.bufferId == b.bufferId
    requires b.lost <= b'.lost <= b.lost + Ids(b.locks[0].discarded)
    ensures forall k | 0 <= k < |b'.locks| :: LockOk(b', k) && QueueOk(b', k)
  {
    forall k | 0 <= k < |b'.locks|
      ensures LockOk(b', k) && QueueOk(b', k)
    {
      assert LockOk(b, k + 1) && QueueOk(b, k + 1) && QueueOk(b, 0);
      assert b'.locks[k + 1..] == b.locks[k + 2..];
      assert b.locks[1..][k..] == b.locks[k + 1..];
      QueuedTail(b.locks[1..], k);
      QueuedCons(b.locks[k + 1..]);
      assert b.locks[k + 1..][1..] == b.locks[k + 2..];
    }
  }

  lemma UnlockKeepsInv(b: Buffer)
    requires Inv(b)
    ensures forall k | 0 <= k < |b.locks| :: b.locks[k].offset <= b.size
    ensures Inv(Unlock(b))
  {
    OffsetsOk(b);
    if b.locks != [] {
      var info, b' := b.locks[0], Unlock(b);
      QueuedCons(b.locks);
      assert QueueOk(b, 0) && LockOk(b, 0);
      assert b.locks[1..] == b.locks[0 + 1..];
      PopKeepsLocks(b, b');
      if !info.flags.readOnly {
        var offset := if b.sendWhole then 0 else info.offset;
        var size := if b.sendWhole then b.size else ClampedSize(info.size, info.offset, b.size);
        var reported := b.sent + [UnlockData(offset, size, info.flags, info.bufferId)];
        LiveSnoc(b.sent, UnlockData(offset, size, info.flags, info.bufferId));
        if info.discarded.Some? {
          LiveSnoc(reported, Dealloc(info.discarded.value));
        }
      }
    }
  }

  // ---------------------------------------------------------------------------------------------
  // Runs
  // ---------------------------------------------------------------------------------------------

  predicate Run(b: Buffer, events: seq<Event>)
    decreases events
  {
    events == [] ||
    (Allowed(b, events[0]) && (forall k | 0 <= k < |b.locks| :: b.locks[k].offset <= b.size)
     && Run(Do(b, events[0]), events[1..]))
  }

  function After(b: Buffer, events: seq<Event>): Buffer
    requires Run(b, events)
    decreases events
  {
    if events == [] then b else After(Do(b, events[0]), events[1..])
  }

  /** Whether the run contains an event that loses an allocation. */
  predicate RunLoses(b: Buffer, events: seq<Event>)
    requires Run(b, events)
    decreases events
  {
    events != [] && (Loses(b, events[0]) || RunLoses(Do(b, events[0]), events[1..]))
  }

  lemma StepKeepsInv(b: Buffer, e: Event)
    requires Inv(b) && Allowed(b, e)
    ensures forall k | 0 <= k < |b.locks| :: b.locks[k].offset <= b.size
    ensures Inv(Do(b, e)) && b.lost <= Do(b, e).lost
    ensures Do(b, e).lost == b.lost <==> !Loses(b, e)
  {
    UnlockKeepsInv(b);
    if b.locks != [] {
      assert QueueOk(b, 0);
    }
    if e.LockCall? {
      LockKeepsInv(b, e.offset, e.size, e.flags, e.heapHasRoom);
    }
  }

  lemma {:induction false} RunKeepsInv(b: Buffer, events: seq<Event>)
    requires Inv(b) && Run(b, events)
    ensures Inv(After(b, events)) && b.lost <= After(b, events).lost
    ensures After(b, events).lost == b.lost <==> !RunLoses(b, events)
    decreases events
  {
    if events != [] {
      StepKeepsInv(b, events[0]);
      RunKeepsInv(Do(b, events[0]), events[1..]);
    }
  }

  lemma NewIsGood(size: nat, sendWhole: bool, firstUid: AllocId)
    ensures Inv(NewBuffer(size, sendWhole, firstUid))
  {
    assert Allocated([]) == {};
  }

  /** After every run, the live allocations are the current buffer, those queued in locks, and those lost; the
      server never replays an unlock of a dead allocation and none is freed twice; every outstanding lock's
      allocation is live. Nothing is lost if and only if no discarding lock found the heap full and no lock
      with both DISCARD and READONLY was unlocked. */
  lemma LiveAllocations(size: nat, sendWhole: bool, firstUid: AllocId, events: seq<Event>)
    requires Run(NewBuffer(size, sendWhole, firstUid), events)
    ensures var b := After(NewBuffer(size, sendWhole, firstUid), events);
            && Live(b.sent) == Ids(b.bufferId) + Queued(b.locks) + b.lost
            && Ids(b.bufferId) !! b.lost && Queued(b.locks) !! b.lost && Ids(b.bufferId) !! Queued(b.locks)
            && StreamOk(b.sent)
            && (forall k | 0 <= k < |b.locks| :: b.locks[k].bufferId in Live(b.sent))
            && (b.lost == {} <==> !RunLoses(NewBuffer(size, sendWhole, firstUid), events))
  {
    NewIsGood(size, sendWhole, firstUid);
    RunKeepsInv(NewBuffer(size, sendWhole, firstUid), events);
    var b := After(NewBuffer(size, sendWhole, firstUid), events);
    forall k | 0 <= k < |b.locks|
      ensures b.locks[k].bufferId in Live(b.sent)
    {
      assert LockOk(b, k);
      QueuedTail(b.locks, k + 1);
    }
    forall k | 0 <= k < |b.locks| && b.locks[k].discarded.Some?
      ensures b.locks[k].discarded.value !in b.lost + Ids(b.bufferId)
    {
      assert QueueOk(b, k);
    }
  }

  /** The events that lose an allocation do occur: a plain lock, and then a discarding one that finds no room. */
  lemma FullHeapLoses(size: nat, sendWhole: bool, firstUid: AllocId)
    ensures var b := NewBuffer(size, sendWhole, firstUid);
            var events := [LockCall(0, 0, Flags(false, false), true), LockCall(0, 0, Flags(true, false), false)];
            Run(b, events) && RunLoses(b, events) && After(b, events).lost == {firstUid}
  {
    var b := NewBuffer(size, sendWhole, firstUid);
    var first, second := LockCall(0, 0, Flags(false, false), true), LockCall(0, 0, Flags(true, false), false);
    assert [first, second][1..] == [second];
    TwoSteps(b, first, second);
  }

  lemma TwoSteps(b: Buffer, first: Event, second: Event)
    requires Run(b, [first, second])
    ensures After(b, [first, second]) == Do(Do(b, first), second)
    ensures RunLoses(b, [first, second]) <==> Loses(b, first) || Loses(Do(b, first), second)
  {
    assert [first, second][1..] == [second];
    assert [second][1..] == [];
    assert After(Do(b, first), [second]) == After(Do(Do(b, first), second), []);
    assert !RunLoses(Do(Do(b, first), second), []);
  }

  /** And so does a lock that both discards and only reads, as soon as it is unlocked. */
  lemma ReadOnlyDiscardLoses(b: Buffer)
    requires Inv(b) && b.locks == [] && b.bufferId.Some?
    ensures var events := [LockCall(0, 0, Flags(true, true), true), UnlockCall];
            Run(b, events) && RunLoses(b, events) && After(b, events).lost == b.lost + {b.bufferId.value}
  {
    var first := LockCall(0, 0, Flags(true, true), true);
    assert [first, UnlockCall][1..] == [UnlockCall];
    TwoSteps(b, first, UnlockCall);
  }

  /** The destructor frees exactly the current allocation: it leaves nothing behind if and only if nothing was
      lost and no queued lock still waits to free what it replaced. */
  lemma DestroyLeaves(b: Buffer)
    requires Inv(b)
    ensures StreamOk(Destroy(b).sent) && Live(Destroy(b).sent) == Queued(b.locks) + b.lost
    ensures Live(Destroy(b).sent) == {} <==> b.lost == {} && forall k | 0 <= k < |b.locks| :: b.locks[k].discarded.None?
  {
    if b.bufferId.Some? {
      LiveSnoc(b.sent, Dealloc(b.bufferId.value));
    }
    forall k | 0 <= k < |b.locks| && b.locks[k].discarded.Some?
      ensures b.locks[k].discarded.value in Queued(b.locks) && b.locks[k].discarded.value !in Ids(b.bufferId)
    {
      assert QueueOk(b, k);
    }
  }
}
