/** The single-producer single-consumer ring in shared memory. */
module CircularQueue {
  import opened Options
  import opened RingArithmetic

  // Each side runs its own loads and stores one at a time, in any interleaving with the other side's, and sees
  // of the other side's index a snapshot that may be out of date. As in the source, `mRead` is the index the
  // producer advances and `mWrite` the index the consumer advances. Accesses to slots are taken to be ordered
  // by the fences around them.

  datatype Command = Bridge_Invalid | Command(code: nat)

  datatype Item = Item(command: Command, uid: nat)

  const DEFAULT_ITEM: Item := Item(Bridge_Invalid, 0)

  // Where each thread is between two steps of push, peek or pull.
  datatype Producer = ProducerIdle | HasRoom(obj: Item) | Stored(obj: Item)
  datatype Consumer = ConsumerIdle | HasItem | Returned

  datatype State = State(
    data: seq<Item>, mRead: nat, mWrite: nat,
    producer: Producer, consumer: Consumer,
    held: Option<nat>,                // the slot behind the reference that pull returned last
    peeked: Option<nat>,              // the slot behind the reference that peek returned last
    // History: what was published, how many pulls succeeded, what their callers read, and how much of the
    // other side's history each side has seen.
    pushed: seq<Item>, pulls: nat, taken: seq<Item>,
    producerSaw: nat, consumerSaw: nat)

  /** One atomic step. `seen` is the point of the other side's history that a load happens to return. */
  datatype Event =
    | CheckRoom(obj: Item, seen: nat)  // push: load both indices and compare
    | StoreSlot                        // push: m_data[currentRead] = obj
    | PublishRead                      // push: m_read.store(nextRead)
    | CheckItem(seen: nat)             // pull: load both indices and compare
    | PublishWrite                     // pull: m_write.store(next)
    | Take                             // the caller of pull reads the slot
    | Peek(seen: nat)                  // peek, up to the returned reference

  // ---------------------------------------------------------------------------------------------
  // Steps
  // ---------------------------------------------------------------------------------------------

  function Init(n: nat): State {
    State(seq(n, _ => DEFAULT_ITEM), 0, 0, ProducerIdle, ConsumerIdle, None, None, [], 0, [], 0, 0)
  }

  /** Whether `e` can happen next. A snapshot lies between what was seen before and what is true now. */
  predicate Enabled(s: State, e: Event) {
    && s.data != [] && s.mRead < |s.data| && s.mWrite < |s.data|
    && match e
       case CheckRoom(_, seen) => s.producer == ProducerIdle && s.producerSaw <= seen <= s.pulls
       case StoreSlot => s.producer.HasRoom?
       case PublishRead => s.producer.Stored?
       case CheckItem(seen) => s.consumer == ConsumerIdle && s.consumerSaw <= seen <= |s.pushed|
       case PublishWrite => s.consumer == HasItem
       case Take => s.consumer == Returned && s.held.Some? && s.held.value < |s.data|
       case Peek(seen) => s.consumer == ConsumerIdle && s.consumerSaw <= seen <= |s.pushed|
  }

  function Do(s: State, e: Event): State
    requires Enabled(s, e)
  {
    var n := |s.data|;
    match e
    case CheckRoom(obj, seen) =>
      s.(producerSaw := seen,
         producer := if QueueIdxInc(s.mRead, n) != seen % n then HasRoom(obj) else ProducerIdle)
    case StoreSlot => s.(data := s.data[s.mRead := s.producer.obj], producer := Stored(s.producer.obj))
    case PublishRead =>
      s.(mRead := QueueIdxInc(s.mRead, n), pushed := s.pushed + [s.producer.obj], producer := ProducerIdle)
    case CheckItem(seen) =>
      s.(consumerSaw := seen, consumer := if s.mWrite != seen % n then HasItem else ConsumerIdle)
    case PublishWrite =>
      s.(mWrite := QueueIdxInc(s.mWrite, n), pulls := s.pulls + 1, held := Some(s.mWrite), peeked := None,
         consumer := Returned)
    case Take => s.(taken := s.taken + [s.data[s.held.value]], consumer := ConsumerIdle)
    case Peek(seen) => s.(consumerSaw := seen, peeked := if s.mWrite != seen % n then Some(s.mWrite) else s.peeked)
  }

  predicate Run(s: State, events: seq<Event>)
    decreases events
  {
    events == [] || (Enabled(s, events[0]) && Run(Do(s, events[0]), events[1..]))
  }

  function After(s: State, events: seq<Event>): State
    requires Run(s, events)
    decreases events
  {
    if events == [] then s else After(Do(s, events[0]), events[1..])
  }

  // ---------------------------------------------------------------------------------------------
  // Invariant
  // ---------------------------------------------------------------------------------------------

  function Content(s: State, a: int): Item
    requires a < |s.pushed|
  {
    if a < 0 then DEFAULT_ITEM else s.pushed[a]
  }

  /** The oldest sequence number whose item is still in its slot: the producer overwrites it first. */
  function Oldest(s: State): int {
    |s.pushed| - |s.data| + (if s.producer.Stored? then 1 else 0)
  }

  predicate SlotOk(s: State, a: int)
    requires s.data != []
  {
    Oldest(s) <= a < |s.pushed| ==> s.data[Slot(a, |s.data|)] == Content(s, a)
  }

  ghost predicate Slots(s: State)
    requires s.data != []
  {
    && (forall a: int {:trigger SlotOk(s, a)} :: SlotOk(s, a))
    && (s.producer.Stored? ==> s.data[Slot(|s.pushed|, |s.data|)] == s.producer.obj)
  }

  /** The indices are the counts modulo the queue size, and each side's view is a safe one. */
  predicate Indices(s: State)
    requires s.data != []
  {
    var n := |s.data|;
    && s.mRead == Slot(|s.pushed|, n) && s.mWrite == Slot(s.pulls, n)
    && s.producerSaw <= s.pulls <= s.consumerSaw <= |s.pushed|
    && |s.pushed| - s.producerSaw <= n - (if s.producer == ProducerIdle then 1 else 2)
    && (s.consumer == HasItem ==> s.pulls < s.consumerSaw)
  }

  predicate References(s: State)
    requires s.data != []
  {
    var n := |s.data|;
    && (s.held.Some? ==> s.pulls > 0 && s.held.value == Slot(s.pulls - 1, n))
    && (s.peeked.Some? ==> s.pulls < s.consumerSaw && s.peeked.value == Slot(s.pulls, n))
    && (s.consumer == Returned ==> s.held.Some?)
    && s.pulls == |s.taken| + (if s.consumer == Returned then 1 else 0)
    && s.taken <= s.pushed
  }

  ghost predicate Inv(s: State) {
    s.data != [] && Indices(s) && Slots(s) && References(s)
  }

  // ---------------------------------------------------------------------------------------------
  // Each step keeps the invariant
  // ---------------------------------------------------------------------------------------------

  /** The producer's test passes exactly when its snapshot leaves a slot to spare. */
  lemma RoomExactly(s: State, obj: Item, seen: nat)
    requires Inv(s) && Enabled(s, CheckRoom(obj, seen))
    ensures Do(s, CheckRoom(obj, seen)).producer.HasRoom? <==> |s.pushed| - seen < |s.data| - 1
  {
    IncIsNext(|s.pushed|, |s.data|);
    SameSlot(seen, |s.pushed| + 1, |s.data|);
  }

  /** The consumer's test passes exactly when its snapshot shows something not yet pulled. */
  lemma ItemExactly(s: State, seen: nat)
    requires Inv(s) && s.pulls <= seen <= |s.pushed|
    ensures s.mWrite != seen % |s.data| <==> s.pulls < seen
  {
    SameSlot(s.pulls, seen, |s.data|);
  }

  lemma StoreKeepsSlots(s: State)
    requires Inv(s) && Enabled(s, StoreSlot)
    ensures Slots(Do(s, StoreSlot))
  {
    var s' := Do(s, StoreSlot);
    forall a: int
      ensures SlotOk(s', a)
    {
      assert SlotOk(s, a);
      if Oldest(s') <= a < |s.pushed| {
        SameSlot(a, |s.pushed|, |s.data|);
      }
    }
  }

  lemma PublishKeepsSlots(s: State)
    requires Inv(s) && Enabled(s, PublishRead)
    ensures Slots(Do(s, PublishRead))
  {
    var s' := Do(s, PublishRead);
    forall a: int
      ensures SlotOk(s', a)
    {
      assert SlotOk(s, a);
    }
  }

  lemma SameSlots(s: State, s': State)
    requires s.data != [] && Slots(s) && s'.data == s.data && s'.pushed == s.pushed
    requires s.producer.Stored? == s'.producer.Stored? && (s.producer.Stored? ==> s'.producer == s.producer)
    ensures Slots(s')
  {
    forall a: int
      ensures SlotOk(s', a)
    {
      assert SlotOk(s, a);
    }
  }

  lemma StepKeepsInv(s: State, e: Event)
    requires Inv(s) && Enabled(s, e)
    ensures Inv(Do(s, e))
  {
    var n := |s.data|;
    match e
    case CheckRoom(obj, seen) =>
      RoomExactly(s, obj, seen);
      SameSlots(s, Do(s, e));
    case StoreSlot => StoreKeepsSlots(s);
    case PublishRead =>
      IncIsNext(|s.pushed|, n);
      PublishKeepsSlots(s);
    case CheckItem(seen) =>
      ItemExactly(s, seen);
      SameSlots(s, Do(s, e));
    case PublishWrite =>
      IncIsNext(s.pulls, n);
      SameSlots(s, Do(s, e));
    case Take =>
      HeldDenotes(s);
      SameSlots(s, Do(s, e));
    case Peek(seen) =>
      ItemExactly(s, seen);
      SameSlots(s, Do(s, e));
  }

  /** The reference pull returned still denotes the item pulled last. The producer may have filled every
      other slot meanwhile, but never this one: it always leaves a gap of one. */
  lemma HeldDenotes(s: State)
    requires Inv(s) && s.held.Some?
    ensures s.held.value < |s.data| && 0 < s.pulls <= |s.pushed|
    ensures s.data[s.held.value] == s.pushed[s.pulls - 1]
  {
    assert SlotOk(s, s.pulls - 1);
  }

  /** The reference peek returned denotes the item the next pull will return. */
  lemma PeekedDenotes(s: State)
    requires Inv(s) && s.peeked.Some?
    ensures s.peeked.value < |s.data| && s.pulls < |s.pushed|
    ensures s.data[s.peeked.value] == s.pushed[s.pulls]
  {
    assert SlotOk(s, s.pulls);
  }

  /** A peek returns a reference exactly when its snapshot shows an item, and then to the one the next pull will
      return; otherwise it goes on waiting. */
  lemma PeekReturns(s: State, seen: nat)
    requires Inv(s) && Enabled(s, Peek(seen))
    ensures var t := Do(s, Peek(seen));
            && t == s.(consumerSaw := seen, peeked := t.peeked)
            && (s.pulls < seen ==>
                  && s.pulls < |s.pushed| && t.peeked.Some? && t.peeked.value < |s.data|
                  && s.data[t.peeked.value] == s.pushed[s.pulls])
            && (s.pulls == seen ==> t.peeked == s.peeked)
            && s.pulls <= seen
  {
    ItemExactly(s, seen);
    StepKeepsInv(s, Peek(seen));
    var t := Do(s, Peek(seen));
    if t.peeked.Some? {
      PeekedDenotes(t);
    }
  }

  lemma InitInv(n: nat)
    requires n > 0
    ensures Inv(Init(n))
  {
    var s := Init(n);
    forall a: int
      ensures SlotOk(s, a)
    {
    }
  }

  lemma {:induction false} RunKeepsInv(s: State, events: seq<Event>)
    requires Inv(s) && Run(s, events)
    ensures Inv(After(s, events)) && |After(s, events).data| == |s.data|
    decreases events
  {
    if events != [] {
      StepKeepsInv(s, events[0]);
      RunKeepsInv(Do(s, events[0]), events[1..]);
    }
  }

  // ---------------------------------------------------------------------------------------------
  // Safety over whole runs
  // ---------------------------------------------------------------------------------------------

  /** In every interleaving, what the callers of pull read is a prefix of what was pushed, in order, with
      nothing lost and nothing twice, and at most one item less than the queue has slots is pending. */
  lemma PulledIsPrefixOfPushed(n: nat, events: seq<Event>)
    requires n > 0 && Run(Init(n), events)
    ensures var s := After(Init(n), events);
            && s.taken <= s.pushed
            && |s.taken| <= s.pulls <= |s.taken| + 1
            && s.pulls <= |s.pushed| <= s.pulls + n - 1
  {
    InitInv(n);
    RunKeepsInv(Init(n), events);
  }

  predicate NoPull(events: seq<Event>) {
    PublishWrite !in events
  }

  lemma {:induction false} HeldStays(s: State, events: seq<Event>)
    requires Run(s, events) && NoPull(events)
    ensures After(s, events).held == s.held && After(s, events).pulls == s.pulls
    ensures s.pushed <= After(s, events).pushed
    ensures s.peeked.Some? && Inv(s) ==> After(s, events).peeked == s.peeked
    decreases events
  {
    if events != [] {
      assert events[0] in events;
      assert NoPull(events[1..]) by {
        assert forall e | e in events[1..] :: e in events;
      }
      if Inv(s) {
        StepKeepsInv(s, events[0]);
      }
      HeldStays(Do(s, events[0]), events[1..]);
    }
  }

  /** The slots behind the references returned by pull and by peek keep their contents until the consumer's
      next successful pull publishes its index, whatever the producer does meanwhile. */
  lemma ReferencesStayValid(n: nat, before: seq<Event>, after: seq<Event>)
    requires n > 0 && Run(Init(n), before) && Run(After(Init(n), before), after) && NoPull(after)
    ensures var s := After(Init(n), before);
            var t := After(s, after);
            && (s.held.Some? ==> 0 < s.pulls <= |s.pushed| && s.held.value < |s.data| == |t.data| && t.held == s.held
                                 && t.data[s.held.value] == s.data[s.held.value] == s.pushed[s.pulls - 1])
            && (s.peeked.Some? ==> s.pulls < |s.pushed| && s.peeked.value < |s.data| == |t.data| && t.peeked == s.peeked
                                   && t.data[s.peeked.value] == s.data[s.peeked.value] == s.pushed[s.pulls])
  {
    var s := After(Init(n), before);
    var t := After(s, after);
    InitInv(n);
    RunKeepsInv(Init(n), before);
    RunKeepsInv(s, after);
    HeldStays(s, after);
    if s.held.Some? {
      HeldDenotes(s);
      HeldDenotes(t);
    }
    if s.peeked.Some? {
      PeekedDenotes(s);
      PeekedDenotes(t);
    }
  }
}
