/** The ring as an object, its retry loops, and the command histories it can report. */
module QueueHistory {
  import opened Options
  import opened CircularQueue
  import opened RingArithmetic

  // ---------------------------------------------------------------------------------------------
  // What a history should contain
  // ---------------------------------------------------------------------------------------------

  /** The commands of `items` up to the first invalid one. */
  function ValidPrefix(items: seq<Item>): (r: seq<Command>)
    ensures |r| <= |items|
  {
    if items == [] || items[0].command == Bridge_Invalid then []
    else [items[0].command] + ValidPrefix(items[1..])
  }

  /** The last `k` of the first `upto` pushed items, newest first. */
  function Newest(pushed: seq<Item>, upto: nat, k: nat): (r: seq<Item>)
    requires k <= upto <= |pushed|
    ensures |r| == k
  {
    seq(k, j requires 0 <= j < k => pushed[upto - 1 - j])
  }

  function Limit(maxElements: int, n: nat): (k: nat)
    ensures k <= n && (maxElements > 0 ==> k <= maxElements)
    ensures k == n || k == maxElements || (k == 0 && maxElements <= 0)
  {
    if maxElements <= 0 then 0 else if maxElements < n then maxElements else n
  }

  /** The slots of `data` from `idx` backwards, wrapping around. */
  function Backwards(data: seq<Item>, idx: int, k: nat): (r: seq<Item>)
    requires data != []
    ensures |r| == k
  {
    seq(k, j requires 0 <= j < k => data[Slot(idx - j, |data|)])
  }

  lemma {:induction false} ValidPrefixExtends(a: seq<Item>, b: seq<Item>)
    ensures ValidPrefix(a) <= ValidPrefix(a + b)
    ensures (exists i :: 0 <= i < |a| && a[i].command == Bridge_Invalid) ==> ValidPrefix(a + b) == ValidPrefix(a)
    ensures (b != [] && b[0].command == Bridge_Invalid) ==> ValidPrefix(a + b) == ValidPrefix(a)
  {
    if a == [] {
      assert a + b == b;
    } else {
      ValidPrefixExtends(a[1..], b);
      assert (a + b)[1..] == a[1..] + b;
      if a[0].command != Bridge_Invalid && exists i :: 0 <= i < |a| && a[i].command == Bridge_Invalid {
        var i :| 0 <= i < |a| && a[i].command == Bridge_Invalid;
        assert a[1..][i - 1] == a[i];
      }
    }
  }

  lemma {:induction false} ValidPrefixSnoc(a: seq<Item>, x: Item)
    requires |ValidPrefix(a)| == |a|
    ensures ValidPrefix(a + [x]) == if x.command == Bridge_Invalid then ValidPrefix(a) else ValidPrefix(a) + [x.command]
  {
    if a != [] {
      assert (a + [x])[1..] == a[1..] + [x];
      ValidPrefixSnoc(a[1..], x);
    } else {
      assert a + [x] == [x];
      assert [x][1..] == [];
    }
  }

  // ---------------------------------------------------------------------------------------------
  // What the slots hold
  // ---------------------------------------------------------------------------------------------

  /** With no push under way, each slot holds the youngest item that was put there. */
  lemma SlotHolds(s: State, a: int)
    requires s.data != [] && Slots(s) && !s.producer.Stored? && |s.pushed| - |s.data| <= a < |s.pushed|
    ensures s.data[Slot(a, |s.data|)] == Content(s, a)
  {
    assert SlotOk(s, a);
  }

  function Min(a: int, b: int): int {
    if a < b then a else b
  }

  /** Slots that all hold items up to number `upto`, newest first. */
  lemma BackwardsIsNewest(s: State, upto: nat, from: int, k: nat)
    requires s.data != [] && Slots(s) && !s.producer.Stored?
    requires k <= upto <= |s.pushed| && |s.pushed| - |s.data| <= upto - k && Slot(from, |s.data|) == Slot(upto - 1, |s.data|)
    ensures Backwards(s.data, from, k) == Newest(s.pushed, upto, k)
  {
    var n := |s.data|;
    forall j | 0 <= j < k
      ensures Backwards(s.data, from, k)[j] == Newest(s.pushed, upto, k)[j]
    {
      SlotOfSlot(from, j, n);
      SlotOfSlot(upto - 1, j, n);
      SlotHolds(s, upto - 1 - j);
    }
  }

  lemma BackwardsSplit(data: seq<Item>, idx: int, k: nat, len: nat)
    requires data != [] && k <= len
    ensures Backwards(data, idx, len) == Backwards(data, idx, k) + Backwards(data, idx - k, len - k)
  {
  }

  /** A slot that was never written holds an invalid command. */
  lemma BeforeTheFirst(s: State, len: nat)
    requires s.data != [] && Slots(s) && !s.producer.Stored? && |s.pushed| < |s.data|
    ensures var rest := Backwards(s.data, -1, len); rest != [] ==> rest[0].command == Bridge_Invalid
  {
    if len > 0 {
      SlotHolds(s, -1);
      assert Backwards(s.data, -1, len)[0] == s.data[Slot(-1 - 0, |s.data|)];
    }
  }

  /** The writer's view: everything pushed, newest first, as far back as slots go. */
  lemma WriterHistory(s: State, maxElements: int)
    requires Inv(s) && !s.producer.Stored?
    ensures ValidPrefix(Backwards(s.data, |s.pushed| - 1, Limit(maxElements, |s.data|)))
         == ValidPrefix(Newest(s.pushed, |s.pushed|, Limit(maxElements, Min(|s.data|, |s.pushed|))))
  {
    hide Slots, Indices, References;
    var n, p := |s.data|, |s.pushed|;
    var len, k := Limit(maxElements, n), Limit(maxElements, Min(n, p));
    BackwardsSplit(s.data, p - 1, k, len);
    BackwardsIsNewest(s, p, p - 1, k);
    if k < len {
      BeforeTheFirst(s, len - k);
      ValidPrefixExtends(Newest(s.pushed, p, k), Backwards(s.data, p - 1 - k, len - k));
    } else {
      assert Backwards(s.data, p - 1 - k, 0) == [];
      assert Newest(s.pushed, p, k) + [] == Newest(s.pushed, p, k);
    }
  }

  /** The reader's view in a ring that has not gone around: what was pulled, newest first. */
  lemma ReaderHistoryEarly(s: State, maxElements: int)
    requires Inv(s) && !s.producer.Stored? && |s.pushed| < |s.data|
    ensures s.pulls <= |s.pushed|
    ensures ValidPrefix(Backwards(s.data, s.pulls - 1, Limit(maxElements, |s.data|)))
         == ValidPrefix(Newest(s.pushed, s.pulls, Limit(maxElements, s.pulls)))
  {
    hide Slots, References;
    var n: int, c: int := |s.data|, s.pulls;
    var len, k := Limit(maxElements, n), Limit(maxElements, c);
    BackwardsSplit(s.data, c - 1, k, len);
    BackwardsIsNewest(s, c, c - 1, k);
    if k < len {
      BeforeTheFirst(s, len - k);
      ValidPrefixExtends(Newest(s.pushed, c, k), Backwards(s.data, c - 1 - k, len - k));
    } else {
      assert Backwards(s.data, c - 1 - k, 0) == [];
      assert Newest(s.pushed, c, k) + [] == Newest(s.pushed, c, k);
    }
  }

  /** The reader's view in a ring that has gone around: what was pulled, newest first, as far back as the
      producer has not reused the slots; then the items still pending, newest first. */
  lemma ReaderHistoryLate(s: State, maxElements: int)
    requires Inv(s) && !s.producer.Stored? && |s.pushed| >= |s.data|
    ensures s.pulls <= |s.pushed| <= s.pulls + |s.data|
    ensures var n, p, c := |s.data|, |s.pushed|, s.pulls;
            var len, k := Limit(maxElements, n), Limit(maxElements, n - (p - c));
            && k <= c && k <= len && len - k <= p - c
            && ValidPrefix(Backwards(s.data, c - 1, len))
            == ValidPrefix(Newest(s.pushed, c, k) + Newest(s.pushed, p, len - k))
  {
    hide Slots, References;
    var n: int, p: int, c: int := |s.data|, |s.pushed|, s.pulls;
    var len, k := Limit(maxElements, n), Limit(maxElements, n - (p - c));
    BackwardsSplit(s.data, c - 1, k, len);
    BackwardsIsNewest(s, c, c - 1, k);
    if k < len {
      assert c - 1 - k == p - 1 - n;
      SlotShift(c - 1 - k, n);
      BackwardsIsNewest(s, p, c - 1 - k, len - k);
    } else {
      assert Backwards(s.data, c - 1 - k, 0) == Newest(s.pushed, p, 0);
    }
  }

  // ---------------------------------------------------------------------------------------------
  // AtomicCircularQueue
  // ---------------------------------------------------------------------------------------------

  class AtomicCircularQueue {
    var data: array<Item>
    var mRead: nat
    var mWrite: nat
    ghost var model: State  // the machine whose steps the methods take

    ghost predicate Valid()
      reads this, data
    {
      && Inv(model) && model.data == data[..] && model.mRead == mRead && model.mWrite == mWrite
    }

    constructor (queueSize: nat)
      requires queueSize > 0
      ensures Valid() && fresh(data) && model == Init(queueSize)
    {
      data := new Item[queueSize](_ => DEFAULT_ITEM);
      mRead, mWrite := 0, 0;
      model := Init(queueSize);
      new;
      InitInv(queueSize);
    }

    /** push: one attempt for each snapshot of the consumer's index, until one leaves room. */
    method Push(obj: Item, snapshots: seq<nat>) returns (ok: bool)
      requires Valid() && model.producer == ProducerIdle
      requires forall i | 0 <= i < |snapshots| :: model.producerSaw <= snapshots[i] <= model.pulls
      requires forall i, j | 0 <= i <= j < |snapshots| :: snapshots[i] <= snapshots[j]
      modifies this, data
      ensures Valid() && data == old(data) && model.producer == ProducerIdle
      ensures ok <==> exists i | 0 <= i < |snapshots| :: |old(model.pushed)| - snapshots[i] < data.Length - 1
      ensures model.pushed == old(model.pushed) + (if ok then [obj] else [])
      ensures model.pulls == old(model.pulls) && model.taken == old(model.taken)
      ensures model.held == old(model.held) && model.peeked == old(model.peeked) && mWrite == old(mWrite)
    {
      var i := 0;
      while i < |snapshots|
        invariant 0 <= i <= |snapshots|
        invariant Valid() && data == old(data) && data[..] == old(data[..])
        invariant model == old(model).(producerSaw := model.producerSaw) && mRead == old(mRead) && mWrite == old(mWrite)
        invariant forall j | i <= j < |snapshots| :: model.producerSaw <= snapshots[j]
        invariant forall j | 0 <= j < i :: |old(model.pushed)| - snapshots[j] >= data.Length - 1
      {
        RoomExactly(model, obj, snapshots[i]);
        StepKeepsInv(model, CheckRoom(obj, snapshots[i]));
        var nextRead := QueueIdxInc(mRead, data.Length);
        model := Do(model, CheckRoom(obj, snapshots[i]));
        if nextRead != snapshots[i] % data.Length {
          StepKeepsInv(model, StoreSlot);
          data[mRead] := obj;
          model := Do(model, StoreSlot);
          StepKeepsInv(model, PublishRead);
          mRead := nextRead;
          model := Do(model, PublishRead);
          return true;
        }
        i := i + 1;
      }
      ok := false;
    }

    /** pull: one attempt for each snapshot of the producer's index. The result is read through the returned
        reference, after the index was published. */
    method Pull(snapshots: seq<nat>) returns (item: Option<Item>)
      requires Valid() && model.consumer == ConsumerIdle
      requires forall i | 0 <= i < |snapshots| :: model.consumerSaw <= snapshots[i] <= |model.pushed|
      requires forall i, j | 0 <= i <= j < |snapshots| :: snapshots[i] <= snapshots[j]
      modifies this
      ensures Valid() && data == old(data) && data[..] == old(data[..]) && model.consumer == ConsumerIdle
      ensures item.Some? <==> exists i | 0 <= i < |snapshots| :: old(model.pulls) < snapshots[i]
      ensures item.Some? ==> old(model.pulls) < |model.pushed| && item.value == model.pushed[old(model.pulls)]
      ensures model.taken == old(model.taken) + (if item.Some? then [item.value] else [])
      ensures model.pulls == old(model.pulls) + (if item.Some? then 1 else 0)
      ensures model.pushed == old(model.pushed) && mRead == old(mRead) && model.producer == old(model.producer)
    {
      var i := 0;
      while i < |snapshots|
        invariant 0 <= i <= |snapshots|
        invariant Valid() && data == old(data)
        invariant model == old(model).(consumerSaw := model.consumerSaw) && mRead == old(mRead)
        invariant forall j | i <= j < |snapshots| :: model.consumerSaw <= snapshots[j]
        invariant forall j | 0 <= j < i :: old(model.pulls) >= snapshots[j]
      {
        ItemExactly(model, snapshots[i]);
        StepKeepsInv(model, CheckItem(snapshots[i]));
        var currentWrite := mWrite;
        model := Do(model, CheckItem(snapshots[i]));
        if currentWrite != snapshots[i] % data.Length {
          StepKeepsInv(model, PublishWrite);
          mWrite := QueueIdxInc(currentWrite, data.Length);
          model := Do(model, PublishWrite);
          HeldDenotes(model);
          StepKeepsInv(model, Take);
          model := Do(model, Take);
          return Some(data[currentWrite]);
        }
        i := i + 1;
      }
      item := None;
    }

    /** peek: one attempt for each snapshot of the producer's index. The result is what the returned reference
        denotes; the queue stays as it is. */
    method Peek(snapshots: seq<nat>) returns (item: Option<Item>)
      requires Valid() && model.consumer == ConsumerIdle
      requires forall i | 0 <= i < |snapshots| :: model.consumerSaw <= snapshots[i] <= |model.pushed|
      requires forall i, j | 0 <= i <= j < |snapshots| :: snapshots[i] <= snapshots[j]
      modifies this
      ensures Valid() && data == old(data) && mRead == old(mRead) && mWrite == old(mWrite)
      ensures data[..] == old(data[..])
      ensures item.Some? <==> exists i | 0 <= i < |snapshots| :: old(model.pulls) < snapshots[i]
      ensures item.Some? ==> model.pulls < |model.pushed| && item.value == model.pushed[model.pulls]
      ensures item.Some? ==> model.peeked.Some? && model.peeked.value < data.Length && data[model.peeked.value] == item.value
      ensures model == old(model).(consumerSaw := model.consumerSaw, peeked := model.peeked)
    {
      var i := 0;
      while i < |snapshots|
        invariant 0 <= i <= |snapshots|
        invariant Valid() && data == old(data) && mRead == old(mRead) && mWrite == old(mWrite)
        invariant model == old(model).(consumerSaw := model.consumerSaw)
        invariant forall j | i <= j < |snapshots| :: model.consumerSaw <= snapshots[j]
        invariant forall j | 0 <= j < i :: old(model.pulls) >= snapshots[j]
      {
        ItemExactly(model, snapshots[i]);
        PeekReturns(model, snapshots[i]);
        StepKeepsInv(model, CircularQueue.Peek(snapshots[i]));
        model := Do(model, CircularQueue.Peek(snapshots[i]));
        if mWrite != snapshots[i] % data.Length {
          return Some(data[mWrite]);
        }
        i := i + 1;
      }
      item := None;
    }

    /** buildQueueData: from `idx` backwards, up to the limit or the first invalid command. */
    method BuildQueueData(maxQueueElements: int, idx: nat) returns (history: seq<Command>)
      requires data.Length > 0 && idx < data.Length
      ensures history == ValidPrefix(Backwards(data[..], idx, Limit(maxQueueElements, data.Length)))
    {
      history := [];
      var n := data.Length;
      var itemCount, currentIndex := 0, idx;
      ghost var len := Limit(maxQueueElements, n);
      ghost var all := Backwards(data[..], idx, len);
      assert currentIndex == Slot(idx, n) by {
        DivModUnique(idx, n, 0, idx);
      }
      while itemCount < n && itemCount < maxQueueElements
        invariant 0 <= itemCount <= len && currentIndex == Slot(idx - itemCount, n)
        invariant history == ValidPrefix(all[..itemCount]) && |history| == itemCount
        decreases n - itemCount
      {
        assert all[..itemCount + 1] == all[..itemCount] + [all[itemCount]];
        ValidPrefixSnoc(all[..itemCount], all[itemCount]);
        if data[currentIndex].command == Bridge_Invalid {
          assert all == all[..itemCount] + all[itemCount..];
          ValidPrefixExtends(all[..itemCount], all[itemCount..]);
          return;
        }
        history := history + [data[currentIndex].command];
        DecIsPrevious(idx - itemCount, n);
        currentIndex := QueueIdxDec(currentIndex, n);
        itemCount := itemCount + 1;
      }
      assert all[..itemCount] == all;
    }

    /** getWriterQueueData: with no push under way, the most recently pushed commands, newest first. */
    method GetWriterQueueData(maxQueueElements: int) returns (history: seq<Command>)
      requires Valid() && !model.producer.Stored?
      ensures history == ValidPrefix(Newest(model.pushed, |model.pushed|,
                                            Limit(maxQueueElements, Min(data.Length, |model.pushed|))))
    {
      DecIsPrevious(|model.pushed|, data.Length);
      history := BuildQueueData(maxQueueElements, QueueIdxDec(mRead, data.Length));
      SameBackwards(data[..], |model.pushed| - 1, Limit(maxQueueElements, data.Length));
      WriterHistory(model, maxQueueElements);
    }

    /** getReaderQueueData: with no push under way, at least the last min(limit, pulls, size - pending)
        commands pulled, newest first, up to the first invalid one. */
    method GetReaderQueueData(maxQueueElements: int) returns (history: seq<Command>)
      requires Valid() && !model.producer.Stored?
      ensures 0 <= Min(model.pulls, data.Length - (|model.pushed| - model.pulls)) <= model.pulls <= |model.pushed|
      ensures var room := Min(model.pulls, data.Length - (|model.pushed| - model.pulls));
              ValidPrefix(Newest(model.pushed, model.pulls, Limit(maxQueueElements, room))) <= history
      ensures |model.pushed| < data.Length ==>
                history == ValidPrefix(Newest(model.pushed, model.pulls, Limit(maxQueueElements, model.pulls)))
    {
      DecIsPrevious(model.pulls, data.Length);
      PendingBounds(model);
      hide Inv, ValidPrefix, Newest, Backwards, QueueIdxDec, Slot;
      history := BuildQueueData(maxQueueElements, QueueIdxDec(mWrite, data.Length));
      SameBackwards(data[..], model.pulls - 1, Limit(maxQueueElements, data.Length));
      ReaderHistory(model, maxQueueElements);
    }
  }

  lemma PendingBounds(s: State)
    requires Inv(s)
    ensures s.data != [] && s.pulls <= |s.pushed| <= s.pulls + |s.data| && s.mWrite == Slot(s.pulls, |s.data|)
  {
    hide Slot, Slots, References;
  }

  /** Both views of the reader in one: at least what is known to be still in its slots, and in a ring that has
      not gone around nothing else. */
  lemma ReaderHistory(s: State, maxElements: int)
    requires Inv(s) && !s.producer.Stored?
    ensures s.data != [] && 0 <= Min(s.pulls, |s.data| - (|s.pushed| - s.pulls)) <= s.pulls <= |s.pushed|
    ensures ValidPrefix(Newest(s.pushed, s.pulls, Limit(maxElements, Min(s.pulls, |s.data| - (|s.pushed| - s.pulls)))))
         <= ValidPrefix(Backwards(s.data, s.pulls - 1, Limit(maxElements, |s.data|)))
    ensures |s.pushed| < |s.data| ==>
              ValidPrefix(Backwards(s.data, s.pulls - 1, Limit(maxElements, |s.data|)))
              == ValidPrefix(Newest(s.pushed, s.pulls, Limit(maxElements, s.pulls)))
  {
    PendingBounds(s);
    hide Inv, ValidPrefix, Newest, Backwards, Slot;
    var pending := |s.pushed| - s.pulls;
    var len := Limit(maxElements, |s.data|);
    if |s.pushed| < |s.data| {
      ReaderHistoryEarly(s, maxElements);
      NewestShrinks(s.pushed, s.pulls, maxElements, s.pulls, Min(s.pulls, |s.data| - pending));
    } else {
      ReaderHistoryLate(s, maxElements);
      var k := Limit(maxElements, |s.data| - pending);
      ValidPrefixExtends(Newest(s.pushed, s.pulls, k), Newest(s.pushed, |s.pushed|, len - k));
    }
  }

  lemma NewestShrinks(pushed: seq<Item>, upto: nat, maxElements: int, a: nat, b: nat)
    requires b <= a <= upto <= |pushed|
    ensures ValidPrefix(Newest(pushed, upto, Limit(maxElements, b))) <= ValidPrefix(Newest(pushed, upto, Limit(maxElements, a)))
  {
    var x, y := Newest(pushed, upto, Limit(maxElements, a)), Newest(pushed, upto, Limit(maxElements, b));
    assert x == y + x[|y|..];
    ValidPrefixExtends(y, x[|y|..]);
  }

  lemma SameBackwards(data: seq<Item>, a: int, k: nat)
    requires data != []
    ensures Backwards(data, Slot(a, |data|), k) == Backwards(data, a, k)
  {
    forall j | 0 <= j < k
      ensures Backwards(data, Slot(a, |data|), k)[j] == Backwards(data, a, k)[j]
    {
      SlotOfSlot(a, j, |data|);
    }
  }
}
