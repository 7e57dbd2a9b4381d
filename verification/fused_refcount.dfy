/** Two 32-bit reference counts fused into one 64-bit word, adjusted by single atomic additions. */
module FusedRefCount {
  // The low half counts references to the object, the high half references to its interface. An adjustment of
  // the interface count adjusts both halves at once.

  const HALF: int := 0x1_0000_0000
  const FULL: int := 0x1_0000_0000_0000_0000

  type Word = x: int | 0 <= x < FULL
  type Ulong = x: int | 0 <= x < HALF

  datatype Ref = Object | Interface

  /** What one atomic adjustment does: `n` more or `n` fewer references of one kind. */
  datatype Adjustment = Inc(ref: Ref, n: Ulong) | Dec(ref: Ref, n: Ulong)

  /** The counts the word stands for. */
  datatype Counts = Counts(iface: nat, obj: nat)

  // ---------------------------------------------------------------------------------------------
  // The word
  // ---------------------------------------------------------------------------------------------

  function ToRefValue(ref: Ref, cnt: Word): (r: Ulong) {
    (if ref == Interface then cnt / HALF else cnt) % HALF
  }

  function ToAdjValue(ref: Ref, n: Ulong): (r: Word) {
    if ref == Interface then n + n * HALF else n
  }

  /** The shifts and the bitwise or of the source on 64-bit registers are the arithmetic used here. */
  lemma ShiftsAreArithmetic(cnt: bv64, v: bv64)
    ensures cnt >> 32 == cnt / 0x1_0000_0000
    ensures v < 0x1_0000_0000 ==> v | (v << 32) == v + v * 0x1_0000_0000
    ensures cnt & 0xFFFF_FFFF == cnt % 0x1_0000_0000
  {
  }

  /** The word after the addition or subtraction, modulo 2^64. */
  function Adjust(w: Word, a: Adjustment): Word {
    match a
    case Inc(ref, n) => (w + ToAdjValue(ref, n)) % FULL
    case Dec(ref, n) => (w - ToAdjValue(ref, n)) % FULL
  }

  /** decRef calls the deleter: the early return was not taken and the object half is zero. */
  predicate Fires(w: Word, a: Adjustment) {
    && a.Dec?
    && ToRefValue(a.ref, Adjust(w, a)) == 0
    && ToRefValue(Object, Adjust(w, a)) == 0
  }

  // ---------------------------------------------------------------------------------------------
  // The counts
  // ---------------------------------------------------------------------------------------------

  function Pack(c: Counts): (w: Word)
    requires c.iface < HALF && c.obj < HALF
  {
    c.obj + c.iface * HALF
  }

  /** Both counts fit, and every interface reference is an object reference. */
  predicate Valid(c: Counts) {
    c.iface <= c.obj < HALF
  }

  /** Nobody gives back more references than were taken, and both counts stay below 2^32. The first references
      are taken from zero, by the constructor. */
  predicate Legal(c: Counts, a: Adjustment) {
    match a
    case Inc(_, n) => c.obj + n < HALF
    case Dec(Object, n) => c.obj > 0 && n <= c.obj - c.iface
    case Dec(Interface, n) => c.obj > 0 && n <= c.iface && n <= c.obj
  }

  function Apply(c: Counts, a: Adjustment): Counts
    requires Legal(c, a)
  {
    match a
    case Inc(Object, n) => Counts(c.iface, c.obj + n)
    case Inc(Interface, n) => Counts(c.iface + n, c.obj + n)
    case Dec(Object, n) => Counts(c.iface, c.obj - n)
    case Dec(Interface, n) => Counts(c.iface - n, c.obj - n)
  }

  /** An adjustment is legal exactly if it leaves counts that make sense: neither below zero, no more interface than
      object references, both below 2^32. Only an increment may start from zero. */
  lemma LegalExactly(c: Counts, a: Adjustment)
    requires Valid(c)
    ensures var d: int := if a.Inc? then a.n else -(a.n as int);
            var iface: int, obj: int := c.iface + (if a.ref == Interface then d else 0), c.obj + d;
            && (Legal(c, a) <==> 0 <= iface <= obj < HALF && (c.obj == 0 ==> a.Inc?))
            && (Legal(c, a) ==> Apply(c, a).iface == iface && Apply(c, a).obj == obj)
  {
  }

  function Count(c: Counts, ref: Ref): nat {
    if ref == Interface then c.iface else c.obj
  }

  // ---------------------------------------------------------------------------------------------
  // One adjustment
  // ---------------------------------------------------------------------------------------------

  lemma Halves(hi: int, lo: int)
    requires 0 <= lo < HALF
    ensures (lo + hi * HALF) / HALF == hi && (lo + hi * HALF) % HALF == lo
  {
  }

  lemma Unpack(c: Counts, ref: Ref)
    requires c.iface < HALF && c.obj < HALF
    ensures ToRefValue(ref, Pack(c)) == Count(c, ref)
  {
    Halves(c.iface, c.obj);
  }

  lemma PackedSum(c: Counts, a: Adjustment)
    requires Valid(c) && Legal(c, a)
    ensures Valid(Apply(c, a)) && Adjust(Pack(c), a) == Pack(Apply(c, a))
  {
    var d := Apply(c, a);
    assert a.Inc? ==> Pack(d) == Pack(c) + ToAdjValue(a.ref, a.n);
    assert a.Dec? ==> Pack(d) == Pack(c) - ToAdjValue(a.ref, a.n);
  }

  /** A legal adjustment moves no carry and no borrow between the halves, and the deleter is called exactly
      when a decrement leaves no object reference behind. */
  lemma AdjustRefines(c: Counts, a: Adjustment)
    requires Valid(c) && Legal(c, a)
    ensures Valid(Apply(c, a))
    ensures Adjust(Pack(c), a) == Pack(Apply(c, a))
    ensures forall ref :: ToRefValue(ref, Adjust(Pack(c), a)) == Count(Apply(c, a), ref)
    ensures Fires(Pack(c), a) <==> a.Dec? && Apply(c, a).obj == 0
  {
    var d := Apply(c, a);
    PackedSum(c, a);
    forall ref
      ensures ToRefValue(ref, Pack(d)) == Count(d, ref)
    {
      Unpack(d, ref);
    }
  }

  /** The bound is exact: an increment of the object count leaves the interface half alone if and only if the
      object count stays below 2^32. */
  lemma CarryExactly(c: Counts, n: Ulong)
    requires Valid(c)
    ensures ToRefValue(Interface, Adjust(Pack(c), Inc(Object, n))) == c.iface <==> c.obj + n < HALF
  {
    var sum := c.obj + n;
    if sum < HALF {
      Halves(c.iface, sum);
    } else if c.iface + 1 < HALF {
      Halves(c.iface + 1, sum - HALF);
      assert Pack(c) + n == (sum - HALF) + (c.iface + 1) * HALF;
    } else {
      assert Pack(c) + n == FULL + (sum - HALF);
      Halves(0, sum - HALF);
    }
  }

  // ---------------------------------------------------------------------------------------------
  // Any interleaving
  // ---------------------------------------------------------------------------------------------

  /** A decrement took the last object reference. */
  predicate Deletes(c: Counts, a: Adjustment)
    requires Legal(c, a)
  {
    a.Dec? && Apply(c, a).obj == 0
  }

  /** The adjustments of all threads, in the order the memory sees them, from construction on: nothing touches
      the counts of an object that is already destroyed. */
  predicate LegalRun(c: Counts, run: seq<Adjustment>)
    decreases run
  {
    run != [] ==>
      && Legal(c, run[0])
      && (Deletes(c, run[0]) ==> run[1..] == [])
      && LegalRun(Apply(c, run[0]), run[1..])
  }

  function Final(c: Counts, run: seq<Adjustment>): Counts
    requires LegalRun(c, run)
    decreases run
  {
    if run == [] then c else Final(Apply(c, run[0]), run[1..])
  }

  function FinalWord(w: Word, run: seq<Adjustment>): Word
    decreases run
  {
    if run == [] then w else FinalWord(Adjust(w, run[0]), run[1..])
  }

  /** The steps of the run at which the deleter is called. */
  function Deletions(w: Word, run: seq<Adjustment>): seq<nat>
    decreases run
  {
    if run == [] then []
    else (if Fires(w, run[0]) then [0] else []) + Later(Deletions(Adjust(w, run[0]), run[1..]))
  }

  function Later(s: seq<nat>): (r: seq<nat>)
    ensures |r| == |s| && forall i | 0 <= i < |s| :: r[i] == s[i] + 1
  {
    seq(|s|, i requires 0 <= i < |s| => s[i] + 1)
  }

  /** Along every legal run the word stays the packed counts, and the deleter is called exactly once, at the
      very last step, if that is a decrement and leaves the object count at zero, and never otherwise. */
  lemma {:induction false} RunRefines(c: Counts, run: seq<Adjustment>)
    requires Valid(c) && LegalRun(c, run)
    ensures Valid(Final(c, run))
    ensures FinalWord(Pack(c), run) == Pack(Final(c, run))
    ensures Deletions(Pack(c), run)
         == if run != [] && run[|run| - 1].Dec? && Final(c, run).obj == 0 then [|run| - 1] else []
    decreases run
  {
    if run != [] {
      var a, rest := run[0], run[1..];
      AdjustRefines(c, a);
      RunRefines(Apply(c, a), rest);
    }
  }

  /** A whole life, from the zero word of a new object: the first reference is the constructor's. */
  lemma LifeRefines(run: seq<Adjustment>)
    requires LegalRun(Counts(1, 1), run)
    ensures var c := Final(Counts(1, 1), run);
            && Valid(c) && FinalWord(0, [Inc(Interface, 1)] + run) == Pack(c)
            && |Deletions(0, [Inc(Interface, 1)] + run)| == if c.obj == 0 then 1 else 0
  {
    var all := [Inc(Interface, 1)] + run;
    assert Apply(Counts(0, 0), Inc(Interface, 1)) == Counts(1, 1);
    assert all[0] == Inc(Interface, 1) && all[1..] == run;
    RunRefines(Counts(0, 0), all);
    NoWayBack(Counts(1, 1), run);
  }

  /** Lives in which references come and go, and the last one goes. */
  lemma WholeLife(more: Ulong)
    requires 1 + more < HALF
    ensures var run := [Inc(Interface, more), Dec(Interface, more), Inc(Object, more), Dec(Interface, 1), Dec(Object, more)];
            && (more > 0 ==> LegalRun(Counts(1, 1), run) && Final(Counts(1, 1), run).obj == 0)
            && LegalRun(Counts(1, 1), [Dec(Interface, 1)]) && Final(Counts(1, 1), [Dec(Interface, 1)]).obj == 0
  {
    Prepend(Counts(1, 1), Dec(Interface, 1), []);
    assert [Dec(Interface, 1)] + [] == [Dec(Interface, 1)];
    if more > 0 {
      var r4 := [Dec(Object, more)] + [];
      var r3 := [Dec(Interface, 1)] + r4;
      var r2 := [Inc(Object, more)] + r3;
      var r1 := [Dec(Interface, more)] + r2;
      Prepend(Counts(0, more), Dec(Object, more), []);
      Prepend(Counts(1, 1 + more), Dec(Interface, 1), r4);
      Prepend(Counts(1, 1), Inc(Object, more), r3);
      Prepend(Counts(1 + more, 1 + more), Dec(Interface, more), r2);
      Prepend(Counts(1, 1), Inc(Interface, more), r1);
      assert [Inc(Interface, more), Dec(Interface, more), Inc(Object, more), Dec(Interface, 1), Dec(Object, more)]
          == [Inc(Interface, more)] + r1;
    }
  }

  lemma Prepend(c: Counts, a: Adjustment, rest: seq<Adjustment>)
    requires Legal(c, a) && LegalRun(Apply(c, a), rest) && (Deletes(c, a) ==> rest == [])
    ensures LegalRun(c, [a] + rest) && Final(c, [a] + rest) == Final(Apply(c, a), rest)
  {
    assert ([a] + rest)[1..] == rest;
  }

  /** The object count does not come down to zero but by a decrement. */
  lemma {:induction false} NoWayBack(c: Counts, run: seq<Adjustment>)
    requires Valid(c) && c.obj > 0 && LegalRun(c, run)
    ensures Final(c, run).obj == 0 ==> run != [] && run[|run| - 1].Dec?
    decreases run
  {
    if run != [] && Apply(c, run[0]).obj > 0 {
      NoWayBack(Apply(c, run[0]), run[1..]);
    }
  }

  // ---------------------------------------------------------------------------------------------
  // D3DRefCounted
  // ---------------------------------------------------------------------------------------------

  class D3DRefCounted {
    var fused: Word
    var deletions: nat  // how often the deleter was called

    /** The counts the word holds. */
    function Value(): (c: Counts)
      reads this
    {
      Counts(ToRefValue(Interface, fused), ToRefValue(Object, fused))
    }

    constructor (iface: Ulong, obj: Ulong)
      requires iface <= obj
      ensures Value() == Counts(iface, obj) && Valid(Value()) && deletions == 0
    {
      fused := Pack(Counts(iface, obj));
      deletions := 0;
      new;
      Unpack(Counts(iface, obj), Interface);
      Unpack(Counts(iface, obj), Object);
    }

    lemma Packed()
      requires Valid(Value())
      ensures fused == Pack(Value())
    {
    }

    method IncRef(ref: Ref, adj: Ulong) returns (cnt: Ulong)
      requires Valid(Value()) && Legal(Value(), Inc(ref, adj))
      modifies this
      ensures Valid(Value()) && Value() == Apply(old(Value()), Inc(ref, adj)) && cnt == Count(Value(), ref)
      ensures deletions == old(deletions)
    {
      Packed();
      AdjustRefines(Value(), Inc(ref, adj));
      fused := (fused + ToAdjValue(ref, adj)) % FULL;
      cnt := ToRefValue(ref, fused);
    }

    method DecRef(ref: Ref, adj: Ulong) returns (cnt: Ulong)
      requires Valid(Value()) && Legal(Value(), Dec(ref, adj))
      modifies this
      ensures Valid(Value()) && Value() == Apply(old(Value()), Dec(ref, adj)) && cnt == Count(Value(), ref)
      ensures deletions == old(deletions) + (if Value().obj == 0 then 1 else 0)
    {
      Packed();
      AdjustRefines(Value(), Dec(ref, adj));
      fused := (fused - ToAdjValue(ref, adj)) % FULL;
      cnt := ToRefValue(ref, fused);
      if cnt != 0 {
        return;
      }
      if ToRefValue(Object, fused) == 0 {
        deletions := deletions + 1;
      }
    }

    /** adjustRefs: both counts up or down by a signed amount. */
    method AdjustRefs(ref: int)
      requires -HALF / 2 <= ref < HALF / 2
      requires Valid(Value())
      requires Legal(Value(), if ref > 0 then Inc(Interface, ref) else Dec(Interface, -ref))
      modifies this
      ensures Valid(Value())
      ensures Value() == Counts(old(Value()).iface + ref, old(Value()).obj + ref)
      ensures deletions == old(deletions) + (if Value().obj == 0 then 1 else 0)
    {
      if ref > 0 {
        var _ := IncRef(Interface, ref);
      } else {
        var _ := DecRef(Interface, -ref);
      }
    }
  }
}
