/**
 Indices of a ring of `n` slots.

 Every item ever stored has a sequence number, and its slot is that number modulo `n`. Two numbers less than
 `n` apart have different slots, and two numbers `n` apart share one.

 QueueIdxInc and QueueIdxDec move a slot as adding and subtracting one moves the number.
 */
module RingArithmetic {
  function QueueIdxInc(idx: nat, n: nat): nat {
    if idx + 1 < n then idx + 1 else 0
  }

  function QueueIdxDec(idx: nat, n: nat): nat
    requires n > 0
  {
    if idx == 0 then n - 1 else idx - 1
  }

  /** The slot of the item with sequence number `a`. The numbers before the first push are negative. */
  function Slot(a: int, n: nat): (k: nat)
    requires n > 0
    ensures k < n
  {
    a % n
  }

  lemma Multiples(k: int, n: nat)
    ensures k >= 1 ==> k * n >= n
    ensures k <= -1 ==> k * n + n <= 0
  {
    if k >= 1 {
      assert k * n == (k - 1) * n + n;
    } else if k <= -1 {
      assert k * n + n == (k + 1) * n;
    }
  }

  lemma DivModUnique(a: int, n: nat, q: int, r: int)
    requires n > 0 && 0 <= r < n && a == q * n + r
    ensures a / n == q && a % n == r
  {
    var q', r' := a / n, a % n;
    assert a == q' * n + r';
    assert (q - q') * n == q * n - q' * n;
    Multiples(q - q', n);
  }

  lemma SlotShift(a: int, n: nat)
    requires n > 0
    ensures Slot(a + n, n) == Slot(a, n)
  {
    var d, r := a / n, a % n;
    assert a == d * n + r && (d + 1) * n == d * n + n;
    DivModUnique(a + n, n, d + 1, r);
  }

  /** Two numbers at most `n` apart share a slot only when they are equal or `n` apart. */
  lemma SameSlot(a: int, b: int, n: nat)
    requires n > 0 && a <= b <= a + n
    ensures Slot(a, n) == Slot(b, n) <==> b == a || b == a + n
  {
    if b == a + n {
      SlotShift(a, n);
    } else if Slot(a, n) == Slot(b, n) {
      var d, e := a / n, b / n;
      assert a == d * n + a % n && b == e * n + b % n;
      assert (e - d) * n == e * n - d * n;
      Multiples(e - d, n);
    }
  }

  lemma IncIsNext(a: nat, n: nat)
    requires n > 0
    ensures QueueIdxInc(Slot(a, n), n) == Slot(a + 1, n)
  {
    if Slot(a, n) + 1 < n {
      DivModUnique(a + 1, n, a / n, a % n + 1);
    } else {
      DivModUnique(a + 1, n, a / n + 1, 0);
    }
  }

  lemma DecIsPrevious(a: int, n: nat)
    requires n > 0
    ensures QueueIdxDec(Slot(a, n), n) == Slot(a - 1, n)
  {
    if Slot(a, n) > 0 {
      DivModUnique(a - 1, n, a / n, a % n - 1);
    } else {
      DivModUnique(a - 1, n, a / n - 1, n - 1);
    }
  }

  lemma SlotOfSlot(a: int, j: int, n: nat)
    requires n > 0
    ensures Slot(Slot(a, n) - j, n) == Slot(a - j, n)
  {
    var d, r := a / n, a % n;
    var e, t := (r - j) / n, (r - j) % n;
    assert a == d * n + r && r - j == e * n + t;
    assert (d + e) * n == d * n + e * n;
    DivModUnique(a - j, n, d + e, t);
  }
}
