/** Cyclic index arithmetic of the descriptor rings. Slots are related to the
    unbounded count of descriptors used so far: descriptor number k lives in slot k mod n. */
module Ring {

  /** k mod n, by repeated subtraction. */
  function Slot(n: nat, k: nat): (i: nat)
    requires n > 0
    ensures i < n
  {
    if k < n then k else Slot(n, k - n)
  }

  lemma {:induction false} SlotIsModulo(n: nat, k: nat)
    requires n > 0
    ensures Slot(n, k) == k % n
  {
    if k < n {
      SmallModulo(n, k);
    } else {
      SlotIsModulo(n, k - n);
      LessModulo(n, k);
    }
  }

  lemma SmallModulo(n: nat, k: nat)
    requires k < n
    ensures k % n == k
  {}

  lemma LessModulo(n: nat, k: nat)
    requires 0 < n <= k
    ensures (k - n) % n == k % n
  {
    var q, r := (k - n) / n, (k - n) % n;
    assert k == n * (q + 1) + r;
    UniqueModulo(n, k, q + 1, r);
  }

  lemma {:induction false} Laps(n: nat, a: nat, b: nat)
    requires a < b
    ensures n * a + n <= n * b
    decreases b
  {
    if a + 1 < b { Laps(n, a, b - 1); }
  }

  lemma UniqueModulo(n: nat, k: nat, q: nat, r: nat)
    requires r < n && k == n * q + r
    ensures k % n == r
  {
    var q' := k / n;
    if q < q' { Laps(n, q, q'); } else if q' < q { Laps(n, q', q); }
  }

  /** Number of slots in the cyclic range [lo, hi). */
  function Dist(n: nat, lo: nat, hi: nat): (d: nat)
    requires lo < n && hi < n
    ensures d < n
  {
    if lo <= hi then hi - lo else hi + n - lo
  }

  /** Is slot i in the cyclic range [lo, hi)? */
  predicate Within(n: nat, lo: nat, hi: nat, i: nat)
    requires lo < n && hi < n && i < n
  {
    Dist(n, lo, i) < Dist(n, lo, hi)
  }

  /** The slots of descriptors j and k, less than a lap apart, are k - j apart. */
  lemma {:induction false} DistIsCount(n: nat, j: nat, k: nat)
    requires n > 0 && j <= k < j + n
    ensures Dist(n, Slot(n, j), Slot(n, k)) == k - j
  {
    if j >= n { DistIsCount(n, j - n, k - n); }
  }

  /** Two descriptors less than a lap apart never share a slot. */
  lemma SlotsDiffer(n: nat, j: nat, k: nat)
    requires n > 0 && j < k < j + n
    ensures Slot(n, j) != Slot(n, k)
  {
    DistIsCount(n, j, k);
  }

  /** Stepping a cyclic index advances the descriptor count by one. */
  lemma {:induction false} SlotNext(n: nat, k: nat)
    requires n > 0
    ensures Slot(n, k + 1) == if Slot(n, k) + 1 == n then 0 else Slot(n, k) + 1
  {
    if k >= n { SlotNext(n, k - n); }
  }

  /** An index moved on within a ring, as the driver computes it with %. */
  function Next(n: nat, i: nat): (j: nat)
    requires i < n
    ensures j < n
  {
    if i + 1 == n then 0 else i + 1
  }

  lemma NextIsModulo(n: nat, i: nat)
    requires i < n
    ensures Next(n, i) == (i + 1) % n
  {}

  /** The slot d places after slot i of descriptor k is that of descriptor k + d. */
  lemma {:induction false} SlotPlus(n: nat, k: nat, d: nat)
    requires n > 0
    ensures Slot(n, Slot(n, k) + d) == Slot(n, k + d)
  {
    if k >= n { SlotPlus(n, k - n, d); }
  }
}
