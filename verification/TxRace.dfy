/** The transmit ring with the card acting at any point inside the handler: between two packets
    of a batch, between refill and reclaim, and during the scan. Packets may be queued at any
    point as well. */
module TxRace {
  import opened Ring
  import opened Runs
  import opened TxRing

  /** Where the handler is. `head` is the head it read at the start, and `sentThen`, a history,
      how many packets the card had sent by then. */
  datatype Pc =
    | Idle
    | Refilling(left: nat, txdw: bool, head: nat, sentThen: nat)
    | Scanning(i: nat, head: nat, sentThen: nat)

  datatype Race = Race(ring: TxRing.State, pc: Pc)

  /** A packet is queued; the card transmits one; the handler starts, or goes on. */
  datatype Action = Queue(p: Packet) | CardSends | Begin(txdLow: bool, txdw: bool) | Proceed

  ghost predicate Init(s: Race) {
    TxRing.Init(s.ring) && s.pc == Idle
  }

  function Begun(s: TxRing.State, txdLow: bool, txdw: bool): Pc {
    if s.head == s.tail && (txdLow || txdw) then Refilling(TX_DESC, txdw, s.head, |s.sent|)
    else if txdw then Scanning(s.last, s.head, |s.sent|)
    else Idle
  }

  /** Is the next step of the handler to put a packet on the ring? */
  predicate Filling(s: Race) {
    s.pc.Refilling? && s.pc.left > 0 && s.ring.queue != []
  }

  ghost function Advance(s: Race): Option<Race>
    requires Shape(s.ring)
  {
    match s.pc
    case Idle => None
    case Refilling(n, dw, h, k) =>
      if Filling(s) then Some(Race(EnqueueNext(s.ring), Refilling(n - 1, dw, h, k)))
      else Some(s.(pc := if dw then Scanning(s.ring.last, h, k) else Idle))
    case Scanning(i, h, k) =>
      if i == h then Some(s.(pc := Idle))
      else if i >= TX_DESC then None
      else Some(Race(if s.ring.desc[i].done then Free(s.ring, i) else s.ring, Scanning(Next(TX_DESC, i), h, k)))
  }

  ghost function Step(s: Race, a: Action): Option<Race> {
    if !Shape(s.ring) then None else
    match a
    case Queue(p) => (match TxRing.Step(s.ring, Send(p)) case Some(r) => Some(s.(ring := r)) case None => None)
    case CardSends => (match TxRing.Step(s.ring, TxRing.Transmit) case Some(r) => Some(s.(ring := r)) case None => None)
    case Begin(low, dw) => if s.pc != Idle then None else Some(s.(pc := Begun(s.ring, low, dw)))
    case Proceed => Advance(s)
  }

  // ---- The invariant ----

  /** The packets whose buffers are not freed yet, on the ring and in the queue. */
  ghost function Outstanding(s: TxRing.State): seq<Packet>
    requires |s.freed| <= |s.dequeued|
  {
    s.dequeued[|s.freed|..] + s.queue
  }

  /** Their buffers are all different and allocated, and completed exactly if they were sent. */
  ghost predicate Owned(s: TxRing.State) {
    && |s.freed| <= |s.dequeued|
    && (forall i: nat :: i < |Outstanding(s)| ==> Holds(s, Outstanding(s)[i].ptr, |s.freed| + i < |s.sent|))
    && (forall i: nat, j: nat :: i < j < |Outstanding(s)| ==> Outstanding(s)[i].ptr != Outstanding(s)[j].ptr)
  }

  ghost predicate Holds(s: TxRing.State, ptr: nat, completed: bool) {
    ptr != 0 && ptr in s.heap && s.heap[ptr] == completed
  }

  /** The head that was read stands for a number of packets between those freed and sent; the
      scan has freed everything it went over; and the batch is less than a lap. */
  ghost predicate Placed(s: Race)
    requires Shape(s.ring)
  {
    match s.pc
    case Idle => true
    case Refilling(_, _, h, k) => |s.ring.freed| <= k <= |s.ring.sent| && h == Slot(TX_DESC, k) && |s.ring.dequeued| < k + TX_DESC
    case Scanning(i, h, k) => |s.ring.freed| <= k <= |s.ring.sent| && h == Slot(TX_DESC, k) && i == s.ring.last
  }

  ghost predicate Inv(s: Race) {
    Conserved(s.ring, TX_DESC) && Owned(s.ring) && !s.ring.fault && Placed(s)
  }

  lemma InitInv(s: Race)
    requires Init(s)
    ensures Inv(s)
  {}

  lemma QueueKeeps(s: Race, p: Packet)
    requires Inv(s) && Step(s, Queue(p)).Some?
    ensures Inv(Step(s, Queue(p)).value)
  {
    var r, r' := s.ring, Step(s, Queue(p)).value.ring;
    assert Outstanding(r') == Outstanding(r) + [p];
    forall k: nat | |r.freed| <= k < |r.dequeued| ensures Keeps(r', k) && (k >= |r.sent| ==> Carries(r', k)) {
      assert Keeps(r, k);
      assert k >= |r.sent| ==> Carries(r, k);
    }
  }

  lemma TransmitOwned(r: TxRing.State)
    requires Conserved(r, TX_DESC) && Owned(r) && TxRing.Step(r, TxRing.Transmit).Some?
    ensures Owned(TxRing.Step(r, TxRing.Transmit).value)
  {
    var r' := TxRing.Step(r, TxRing.Transmit).value;
    DistIsCount(TX_DESC, |r.sent|, |r.dequeued|);
    assert Carries(r, |r.sent|);
    var out, at := Outstanding(r), |r.sent| - |r.freed|;
    assert Outstanding(r') == out && out[at] == r.dequeued[|r.sent|];
    assert Holds(r, out[at].ptr, false);
    forall i: nat | i < |out| ensures Holds(r', out[i].ptr, |r'.freed| + i < |r'.sent|) {
      assert Holds(r, out[i].ptr, |r.freed| + i < |r.sent|);
    }
  }

  lemma TransmitKeeps(s: Race)
    requires Inv(s) && Step(s, CardSends).Some?
    ensures Inv(Step(s, CardSends).value)
  {
    TransmitConserved(s.ring, TX_DESC);
    TransmitOwned(s.ring);
  }

  lemma BeginKeeps(s: Race, low: bool, dw: bool)
    requires Inv(s) && Step(s, Begin(low, dw)).Some?
    ensures Inv(Step(s, Begin(low, dw)).value)
  {
    DistIsCount(TX_DESC, |s.ring.sent|, |s.ring.dequeued|);
  }

  /** Room on the ring for one more packet of the batch. */
  ghost predicate Room(s: Race)
    requires s.pc.Refilling?
  {
    |s.ring.dequeued| + 1 < s.pc.sentThen + TX_DESC && |s.ring.dequeued| < |s.ring.freed| + TX_DESC
  }

  lemma EnqueueKeeps(s: Race)
    requires Inv(s) && Filling(s) && Room(s)
    ensures Inv(Advance(s).value)
  {
    EnqueueConserved(s.ring);
    assert Outstanding(EnqueueNext(s.ring)) == Outstanding(s.ring);
  }

  lemma FreeOwned(r: TxRing.State)
    requires Conserved(r, TX_DESC) && Owned(r) && |r.freed| < |r.sent| && !r.fault
    ensures Owned(Free(r, r.last)) && !Free(r, r.last).fault
  {
    var r', out := Free(r, r.last), Outstanding(r);
    assert Keeps(r, |r.freed|);
    assert out[0].ptr == r.bufs[r.last];
    assert Holds(r, out[0].ptr, true);
    assert Outstanding(r') == out[1..];
    forall i: nat | i < |out| - 1 ensures Holds(r', out[1..][i].ptr, |r'.freed| + i < |r'.sent|) {
      assert Holds(r, out[i + 1].ptr, |r.freed| + (i + 1) < |r.sent|);
    }
  }

  lemma ScanKeeps(s: Race)
    requires Inv(s) && s.pc.Scanning?
    ensures Advance(s).Some? && Inv(Advance(s).value)
    ensures s.pc.i != s.pc.head ==> |s.ring.freed| < s.pc.sentThen && Advance(s).value.ring == Free(s.ring, s.ring.last)
  {
    if s.pc.i != s.pc.head {
      assert Keeps(s.ring, |s.ring.freed|);
      FreeConserved(s.ring);
      FreeOwned(s.ring);
    }
  }

  lemma StepKeeps(s: Race, a: Action)
    requires Inv(s) && Step(s, a).Some? && (a.Proceed? && Filling(s) ==> Room(s))
    ensures Inv(Step(s, a).value)
  {
    match a
    case Queue(p) => QueueKeeps(s, p);
    case CardSends => TransmitKeeps(s);
    case Begin(low, dw) => BeginKeeps(s, low, dw);
    case Proceed => if Filling(s) { EnqueueKeeps(s); } else if s.pc.Scanning? { ScanKeeps(s); }
  }

  // ---- Runs in which all batches fit ----

  /** Each packet put on the ring leaves a free slot between the head that was read and the
      tail, and another one behind `last_reclaimed_tx`, unless the scan is going to free one. */
  ghost predicate Fitting(s: Race)
    requires s.pc.Refilling?
  {
    Room(s) && (s.pc.txdw || |s.ring.dequeued| + 1 < |s.ring.freed| + TX_DESC)
  }

  ghost function FittingStep(s: Race, a: Action): Option<Race> {
    if a.Proceed? && Filling(s) && !Fitting(s) then None else Step(s, a)
  }

  /** What keeps a buffer from being lost: less than a lap is unfreed, or will be after the scan. */
  ghost predicate Tight(s: Race) {
    var r := s.ring;
    match s.pc
    case Idle => |r.dequeued| < |r.freed| + TX_DESC
    case Refilling(_, dw, _, k) => k < |r.freed| + TX_DESC && (!dw ==> |r.dequeued| < |r.freed| + TX_DESC)
    case Scanning(_, _, k) => k < |r.freed| + TX_DESC && |r.dequeued| < k + TX_DESC
  }

  lemma TightKept(s: Race, a: Action)
    requires Inv(s) && Tight(s) && FittingStep(s, a).Some?
    ensures Tight(Step(s, a).value)
  {
    if a.Proceed? && s.pc.Scanning? {
      ScanKeeps(s);
      if s.pc.i == s.pc.head { DistIsCount(TX_DESC, |s.ring.freed|, s.pc.sentThen); }
    }
  }

  ghost predicate Good(s: Race) {
    Inv(s) && Tight(s)
  }

  lemma Reachable(s: Race, acts: seq<Action>)
    requires Init(s) && Exec(FittingStep, s, acts).Some?
    ensures Good(Exec(FittingStep, s, acts).value)
  {
    InitInv(s);
    forall m, a | Good(m) && FittingStep(m, a).Some? ensures Good(FittingStep(m, a).value) {
      StepKeeps(m, a);
      TightKept(m, a);
    }
    Invariance(FittingStep, Good, s, acts);
  }

  /** While batches fit, with the card acting anywhere: no pointer is freed wrongly, the card
      sends what was dequeued, in order, and between interrupts no buffer is lost. */
  lemma RaceIsSafe(s: Race, acts: seq<Action>, t: Race)
    requires Init(s) && Exec(FittingStep, s, acts) == Some(t)
    ensures !t.ring.fault && InOrder(t.ring)
    ensures t.pc.Idle? ==> NoLeak(t.ring)
    ensures forall k: nat :: |t.ring.freed| <= k < |t.ring.dequeued| ==> t.ring.dequeued[k].ptr in t.ring.heap
  {
    Reachable(s, acts);
    FifoInOrder(t.ring);
    if t.pc.Idle? { ConservedNoLeak(t.ring); }
    forall k: nat | |t.ring.freed| <= k < |t.ring.dequeued| ensures t.ring.dequeued[k].ptr in t.ring.heap {
      var i := k - |t.ring.freed|;
      assert Outstanding(t.ring)[i] == t.ring.dequeued[k];
      assert Holds(t.ring, Outstanding(t.ring)[i].ptr, k < |t.ring.sent|);
    }
  }

  // ---- When a batch does not fit ----

  /** A run without further packets. */
  ghost predicate Leads(s: Race, acts: seq<Action>, t: Race) {
    Exec(Step, s, acts) == Some(t) && forall i: nat :: i < |acts| ==> !acts[i].Queue?
  }

  lemma LeadsOne(s: Race, a: Action, t: Race)
    requires Step(s, a) == Some(t) && !a.Queue?
    ensures Leads(s, [a], t)
  {
    assert [a][..0] == [];
  }

  lemma LeadsOn(s: Race, first: seq<Action>, m: Race, rest: seq<Action>, t: Race)
    requires Leads(s, first, m) && Leads(m, rest, t)
    ensures Leads(s, first + rest, t)
  {
    ExecConcat(Step, s, first, rest);
  }

  /** The handler refills while the card rests. */
  lemma {:induction false} RefillRuns(s: Race) returns (acts: seq<Action>)
    requires Shape(s.ring) && s.pc.Refilling?
    ensures Leads(s, acts, Race(Refill(s.ring, s.pc.left), s.pc.(left := s.pc.left - Taken(s.ring, s.pc.left))))
    decreases s.pc.left
  {
    if Filling(s) {
      var m := Advance(s).value;
      LeadsOne(s, Proceed, m);
      var rest := RefillRuns(m);
      acts := [Proceed] + rest;
      LeadsOn(s, [Proceed], m, rest, Race(Refill(s.ring, s.pc.left), s.pc.(left := s.pc.left - Taken(s.ring, s.pc.left))));
    } else {
      acts := [];
    }
  }

  /** The handler scans while the card rests. */
  lemma {:induction false} ScanRuns(s: Race) returns (acts: seq<Action>)
    requires Shape(s.ring) && s.pc.Scanning? && s.pc.i < TX_DESC && s.pc.head < TX_DESC
    ensures Leads(s, acts, Race(Reclaim(s.ring, s.pc.i, s.pc.head), Idle))
    decreases Dist(TX_DESC, s.pc.i, s.pc.head)
  {
    var m := Advance(s).value;
    LeadsOne(s, Proceed, m);
    acts := [Proceed];
    if s.pc.i != s.pc.head {
      var rest := ScanRuns(m);
      acts := [Proceed] + rest;
      LeadsOn(s, [Proceed], m, rest, Race(Reclaim(s.ring, s.pc.i, s.pc.head), Idle));
    }
  }

  /** The card sends everything on the ring while the handler rests. */
  lemma {:induction false} CardRuns(s: Race) returns (acts: seq<Action>, t: Race)
    requires Fifo(s.ring)
    ensures Leads(s, acts, t) && SentAll(s, t)
    decreases |s.ring.dequeued| - |s.ring.sent|
  {
    DistIsCount(TX_DESC, |s.ring.sent|, |s.ring.dequeued|);
    if s.ring.head == s.ring.tail {
      acts, t := [], s;
    } else {
      var m := Step(s, CardSends).value;
      LeadsOne(s, CardSends, m);
      TransmitFifo(s.ring);
      var rest;
      rest, t := CardRuns(m);
      acts := [CardSends] + rest;
      LeadsOn(s, [CardSends], m, rest, t);
    }
  }

  /** From s to t the card has sent all packets and the handler has done nothing. */
  ghost predicate SentAll(s: Race, t: Race) {
    && Shape(s.ring) && Shape(t.ring) && t.pc == s.pc
    && t.ring.head == t.ring.cur == s.ring.cur && t.ring.last == s.ring.last
    && t.ring.queue == s.ring.queue && t.ring.bufs == s.ring.bufs
    && (forall i: nat :: i < TX_DESC && (s.ring.desc[i].done || Within(TX_DESC, s.ring.head, s.ring.cur, i)) ==> t.ring.desc[i].done)
  }

  ghost predicate AllDone(r: TxRing.State) {
    Shape(r) && forall i: nat :: i < TX_DESC ==> r.desc[i].done
  }

  /** If every descriptor is done, the scan clears every slot it goes over. */
  lemma {:induction false} ScanClears(r: TxRing.State, i: nat, head: nat)
    requires AllDone(r) && i < TX_DESC && head < TX_DESC
    ensures var r' := Reclaim(r, i, head);
            && AllDone(r') && r'.head == r.head && r'.cur == r.cur && r'.queue == r.queue
            && (i != head ==> r'.last == head)
            && (forall j: nat :: j < TX_DESC && (r.bufs[j] == 0 || Within(TX_DESC, i, head, j)) ==> r'.bufs[j] == 0)
    decreases Dist(TX_DESC, i, head)
  {
    if i != head { ScanClears(Free(r, i), Next(TX_DESC, i), head); }
  }

  /** And it frees a null pointer if it goes over a cleared slot. */
  lemma {:induction false} ScanFaults(r: TxRing.State, i: nat, head: nat, j: nat)
    requires AllDone(r) && i < TX_DESC && head < TX_DESC && j < TX_DESC
    requires r.fault || (r.bufs[j] == 0 && Within(TX_DESC, i, head, j))
    ensures Reclaim(r, i, head).fault
    decreases Dist(TX_DESC, i, head)
  {
    if i != head { ScanFaults(Free(r, i), Next(TX_DESC, i), head, j); }
  }

  /** A refill leaves the slots behind its batch alone. */
  lemma {:induction false} RefillLeaves(r: TxRing.State, n: nat, i: nat)
    requires Shape(r) && n <= TX_DESC && i < TX_DESC && Taken(r, n) <= Dist(TX_DESC, r.cur, i)
    ensures Refill(r, n).desc[i] == r.desc[i]
    decreases n
  {
    if n > 0 && r.queue != [] { RefillLeaves(EnqueueNext(r), n - 1, i); }
  }

  /** The ring is idle and the batch, though below 8 packets, reaches unreclaimed slots. */
  ghost predicate Overfull(r: TxRing.State) {
    && Conserved(r, TX_DESC) && r.head == r.tail && |r.queue| < TX_DESC
    && Dist(TX_DESC, r.last, r.head) + |r.queue| > TX_DESC
  }

  /** Its batch and the unreclaimed slots cover the ring. */
  lemma OverfullCovers(r: TxRing.State, i: nat)
    requires Overfull(r) && i < TX_DESC && |r.queue| <= Dist(TX_DESC, r.head, i)
    ensures r.desc[i].done
  {
    if |r.sent| < |r.freed| + TX_DESC {
      DistIsCount(TX_DESC, |r.freed|, |r.sent|);
      DistIsCount(TX_DESC, |r.sent|, |r.dequeued|);
      var d := Dist(TX_DESC, r.last, i);
      SlotPlus(TX_DESC, |r.freed|, d);
      assert Slot(TX_DESC, |r.freed| + d) == i;
      assert Keeps(r, |r.freed| + d);
    } else {
      SlotPlus(TX_DESC, |r.freed|, TX_DESC);
    }
  }

  lemma OverfullRefill(r: TxRing.State, filled: TxRing.State)
    requires Overfull(r) && filled == Refill(r, TX_DESC)
    ensures Fifo(filled) && filled.queue == [] && filled.head == r.head && filled.last == r.last
    ensures Dist(TX_DESC, r.head, filled.cur) == |r.queue|
    ensures forall i: nat :: i < TX_DESC ==> filled.desc[i].done || Within(TX_DESC, filled.head, filled.cur, i)
  {
    DistIsCount(TX_DESC, |r.sent|, |r.dequeued|);
    RefillCounts(r, TX_DESC);
    RefillFifo(r, TX_DESC);
    RefillEmpties(r, TX_DESC);
    DistIsCount(TX_DESC, |filled.sent|, |filled.dequeued|);
    forall i: nat | i < TX_DESC && !Within(TX_DESC, filled.head, filled.cur, i) ensures filled.desc[i].done {
      RefillLeaves(r, TX_DESC, i);
      OverfullCovers(r, i);
    }
  }

  lemma {:induction false} RefillEmpties(r: TxRing.State, n: nat)
    requires Shape(r) && |r.queue| <= n
    ensures Refill(r, n).queue == []
    decreases n
  {
    if n > 0 && r.queue != [] { RefillEmpties(EnqueueNext(r), n - 1); }
  }

  /** The handler refills. */
  lemma Fill(s: Race, filled: TxRing.State) returns (acts: seq<Action>, t: Race)
    requires s.pc == Idle && Overfull(s.ring) && filled == Refill(s.ring, TX_DESC)
    ensures Leads(s, acts, t) && t.ring == filled && t.pc.Refilling? && t.pc.txdw && t.pc.head == s.ring.head
  {
    var s1 := Race(s.ring, Refilling(TX_DESC, true, s.ring.head, |s.ring.sent|));
    LeadsOne(s, Begin(false, true), s1);
    var rest := RefillRuns(s1);
    t := Race(filled, s1.pc.(left := TX_DESC - Taken(s.ring, TX_DESC)));
    acts := [Begin(false, true)] + rest;
    LeadsOn(s, [Begin(false, true)], s1, rest, t);
  }

  /** Then the card sends the batch before the scan. */
  lemma FillAndSend(s: Race) returns (acts: seq<Action>, t: Race)
    requires s.pc == Idle && Overfull(s.ring)
    ensures Leads(s, acts, t) && t.pc.Refilling? && t.pc.txdw && t.pc.head == s.ring.head
    ensures AllDone(t.ring) && t.ring.queue == [] && t.ring.head == t.ring.cur && t.ring.last == s.ring.last
    ensures Dist(TX_DESC, s.ring.head, t.ring.head) == |s.ring.queue|
  {
    var filled := Refill(s.ring, TX_DESC);
    OverfullRefill(s.ring, filled);
    var first, m := Fill(s, filled);
    var rest;
    rest, t := CardRuns(m);
    acts := first + rest;
    LeadsOn(s, first, m, rest, t);
  }

  /** The scan then frees new buffers for old ones and leaves cleared slots behind the head. */
  lemma FirstInterrupt(s: Race) returns (acts: seq<Action>, t: Race)
    requires s.pc == Idle && Overfull(s.ring)
    ensures Leads(s, acts, t) && t.pc == Idle && AllDone(t.ring) && t.ring.queue == []
    ensures t.ring.head == t.ring.tail && t.ring.last == s.ring.head && t.ring.bufs[s.ring.last] == 0
    ensures Dist(TX_DESC, s.ring.head, t.ring.head) == |s.ring.queue|
  {
    var first, m := FillAndSend(s);
    var rest;
    rest, t := ScanAll(m);
    acts := first + rest;
    LeadsOn(s, first, m, rest, t);
  }

  /** From the end of a refill to the end of the scan. */
  lemma ScanAll(s: Race) returns (acts: seq<Action>, t: Race)
    requires AllDone(s.ring) && s.ring.queue == [] && s.pc.Refilling? && s.pc.txdw && s.pc.head < TX_DESC
    ensures Leads(s, acts, t) && t == Race(Reclaim(s.ring, s.ring.last, s.pc.head), Idle)
    ensures AllDone(t.ring) && t.ring.queue == [] && t.ring.head == s.ring.head && t.ring.cur == s.ring.cur
    ensures s.ring.last != s.pc.head ==> t.ring.last == s.pc.head && t.ring.bufs[s.ring.last] == 0
  {
    var m := Advance(s).value;
    LeadsOne(s, Proceed, m);
    var rest := ScanRuns(m);
    t := Race(Reclaim(s.ring, s.ring.last, s.pc.head), Idle);
    acts := [Proceed] + rest;
    LeadsOn(s, [Proceed], m, rest, t);
    ScanClears(s.ring, s.ring.last, s.pc.head);
  }

  /** The second interrupt frees a null pointer. */
  lemma OverfullFaults(s: Race) returns (acts: seq<Action>, t: Race)
    requires s.pc == Idle && Overfull(s.ring)
    ensures Leads(s, acts, t) && t.ring.fault
  {
    var first, m := FirstInterrupt(s);
    var m1 := Step(m, Begin(false, true)).value;
    LeadsOne(m, Begin(false, true), m1);
    LeadsOn(s, first, m, [Begin(false, true)], m1);
    var rest;
    rest, t := ScanAll(m1);
    acts := first + [Begin(false, true)] + rest;
    LeadsOn(s, first + [Begin(false, true)], m1, rest, t);
    ScanFaults(m.ring, m.ring.last, m.ring.head, s.ring.last);
  }

  /** Whatever is queued fits. */
  ghost predicate Roomy(s: Race) {
    var r := s.ring;
    && Inv(s) && |r.dequeued| + |r.queue| <= |r.freed| + TX_DESC && |r.dequeued| + |r.queue| < |r.sent| + TX_DESC
    && (s.pc.Refilling? ==> |r.dequeued| + |r.queue| < s.pc.sentThen + TX_DESC)
  }

  lemma RoomyKept(s: Race, a: Action)
    requires Roomy(s) && Step(s, a).Some? && !a.Queue?
    ensures Roomy(Step(s, a).value)
  {
    StepKeeps(s, a);
  }

  lemma {:induction false} RoomyStays(s: Race, acts: seq<Action>, t: Race)
    requires Roomy(s) && Leads(s, acts, t)
    ensures Roomy(t)
  {
    if acts != [] {
      var init := acts[..|acts| - 1];
      var m := Exec(Step, s, init).value;
      RoomyStays(s, init, m);
      RoomyKept(m, acts[|acts| - 1]);
    }
  }

  /** With the card acting anywhere, a batch of fewer than 8 packets can lead to a pointer being
      freed that must not be, if and only if it reaches unreclaimed slots. */
  lemma RaceExactly(s: Race, acts: seq<Action>, t: Race)
    requires Init(s) && Exec(FittingStep, s, acts) == Some(t)
    requires t.pc == Idle && t.ring.head == t.ring.tail && |t.ring.queue| < TX_DESC
    ensures t.ring.last < TX_DESC && t.ring.head < TX_DESC
    ensures (exists more, u :: Leads(t, more, u) && u.ring.fault)
            <==> Dist(TX_DESC, t.ring.last, t.ring.head) + |t.ring.queue| > TX_DESC
  {
    Reachable(s, acts);
    if Dist(TX_DESC, t.ring.last, t.ring.head) + |t.ring.queue| > TX_DESC {
      var more, u := OverfullFaults(t);
    } else {
      DistIsCount(TX_DESC, |t.ring.freed|, |t.ring.sent|);
      DistIsCount(TX_DESC, |t.ring.sent|, |t.ring.dequeued|);
      forall more, u | Leads(t, more, u) ensures !u.ring.fault { RoomyStays(t, more, u); }
    }
  }

  // ---- The atomic handler is a special case ----

  /** A run in which all batches fit. */
  ghost predicate Allowed(s: Race, acts: seq<Action>, t: Race) {
    Exec(FittingStep, s, acts) == Some(t)
  }

  lemma AllowedOne(s: Race, a: Action, t: Race)
    requires FittingStep(s, a) == Some(t)
    ensures Allowed(s, [a], t)
  {
    assert [a][..0] == [];
  }

  lemma AllowedOn(s: Race, first: seq<Action>, m: Race, rest: seq<Action>, t: Race)
    requires Allowed(s, first, m) && Allowed(m, rest, t)
    ensures Allowed(s, first + rest, t)
  {
    ExecConcat(FittingStep, s, first, rest);
  }

  /** All of the rest of the batch fits. */
  ghost predicate BatchFits(s: Race)
    requires s.pc.Refilling?
  {
    var r, b := s.ring, Taken(s.ring, s.pc.left);
    && |r.dequeued| + b < s.pc.sentThen + TX_DESC
    && |r.dequeued| + b <= |r.freed| + (if s.pc.txdw then TX_DESC else TX_DESC - 1)
  }

  lemma {:induction false} RefillAllowed(s: Race) returns (acts: seq<Action>)
    requires Shape(s.ring) && s.pc.Refilling? && BatchFits(s)
    ensures Allowed(s, acts, Race(Refill(s.ring, s.pc.left), s.pc.(left := s.pc.left - Taken(s.ring, s.pc.left))))
    decreases s.pc.left
  {
    if Filling(s) {
      var m := Advance(s).value;
      AllowedOne(s, Proceed, m);
      var rest := RefillAllowed(m);
      acts := [Proceed] + rest;
      AllowedOn(s, [Proceed], m, rest, Race(Refill(s.ring, s.pc.left), s.pc.(left := s.pc.left - Taken(s.ring, s.pc.left))));
    } else {
      acts := [];
    }
  }

  lemma {:induction false} ScanAllowed(s: Race) returns (acts: seq<Action>)
    requires Shape(s.ring) && s.pc.Scanning? && s.pc.i < TX_DESC && s.pc.head < TX_DESC
    ensures Allowed(s, acts, Race(Reclaim(s.ring, s.pc.i, s.pc.head), Idle))
    decreases Dist(TX_DESC, s.pc.i, s.pc.head)
  {
    var m := Advance(s).value;
    AllowedOne(s, Proceed, m);
    acts := [Proceed];
    if s.pc.i != s.pc.head {
      var rest := ScanAllowed(m);
      acts := [Proceed] + rest;
      AllowedOn(s, [Proceed], m, rest, Race(Reclaim(s.ring, s.pc.i, s.pc.head), Idle));
    }
  }

  /** The refill of a fitting batch, to its end. */
  lemma BatchAllowed(s: Race, filled: TxRing.State) returns (acts: seq<Action>)
    requires Shape(s.ring) && s.pc.Refilling? && BatchFits(s) && filled == Refill(s.ring, s.pc.left)
    ensures Allowed(s, acts, Race(filled, if s.pc.txdw then Scanning(filled.last, s.pc.head, s.pc.sentThen) else Idle))
  {
    var rest := RefillAllowed(s);
    var m := Race(filled, s.pc.(left := s.pc.left - Taken(s.ring, s.pc.left)));
    var t := Race(filled, if s.pc.txdw then Scanning(filled.last, s.pc.head, s.pc.sentThen) else Idle);
    RefillCounts(s.ring, s.pc.left);
    RefillStops(s.ring, s.pc.left);
    AllowedOne(m, Proceed, t);
    AllowedOn(s, rest, m, [Proceed], t);
    acts := rest + [Proceed];
  }

  /** What happens before the scan, if anything. */
  lemma BeginAllowed(r: TxRing.State, low: bool, dw: bool, filled: TxRing.State) returns (acts: seq<Action>)
    requires Conserved(r, TX_DESC - 1) && Fits(r, low, dw)
    requires filled == if r.head == r.tail && (low || dw) then Refill(r, TX_DESC) else r
    ensures Shape(filled) && Allowed(Race(r, Idle), acts, Race(filled, if dw then Scanning(filled.last, r.head, |r.sent|) else Idle))
  {
    var s, s1 := Race(r, Idle), Race(r, Begun(r, low, dw));
    AllowedOne(s, Begin(low, dw), s1);
    acts := [Begin(low, dw)];
    if s1.pc.Refilling? {
      DistIsCount(TX_DESC, |r.freed|, |r.sent|);
      DistIsCount(TX_DESC, |r.sent|, |r.dequeued|);
      RefillCounts(r, TX_DESC);
      var rest := BatchAllowed(s1, filled);
      AllowedOn(s, acts, s1, rest, Race(filled, if dw then Scanning(filled.last, r.head, |r.sent|) else Idle));
      acts := acts + rest;
    }
  }

  /** A fitting interrupt, as one step of the atomic system, is a run of the handler here. */
  lemma HandleAllowed(r: TxRing.State, low: bool, dw: bool) returns (acts: seq<Action>)
    requires Conserved(r, TX_DESC - 1) && Fits(r, low, dw)
    ensures Allowed(Race(r, Idle), acts, Race(Handle(r, low, dw), Idle))
  {
    var filled := if r.head == r.tail && (low || dw) then Refill(r, TX_DESC) else r;
    acts := BeginAllowed(r, low, dw, filled);
    if dw {
      var m := Race(filled, Scanning(filled.last, r.head, |r.sent|));
      var rest := ScanAllowed(m);
      AllowedOn(Race(r, Idle), acts, m, rest, Race(Handle(r, low, dw), Idle));
      acts := acts + rest;
    }
  }

  /** A refill stops at the end of the queue or after n packets. */
  lemma {:induction false} RefillStops(r: TxRing.State, n: nat)
    requires Shape(r)
    ensures Taken(r, n) < n ==> Refill(r, n).queue == []
    decreases n
  {
    if n > 0 && r.queue != [] { RefillStops(EnqueueNext(r), n - 1); }
  }

  /** Every fitting run of the atomic system is one of this system. */
  lemma {:induction false} AtomicEmbeds(r: TxRing.State, acts: seq<TxRing.Action>, t: TxRing.State) returns (race: seq<Action>)
    requires TxRing.Init(r) && Exec(TxRing.FittingStep, r, acts) == Some(t)
    ensures Allowed(Race(r, Idle), race, Race(t, Idle))
  {
    if acts == [] {
      race := [];
    } else {
      var init, a := acts[..|acts| - 1], acts[|acts| - 1];
      var m := Exec(TxRing.FittingStep, r, init).value;
      race := AtomicEmbeds(r, init, m);
      FittingConserves(r, init);
      var last;
      match a {
        case Send(p) => last := [Queue(p)]; AllowedOne(Race(m, Idle), Queue(p), Race(t, Idle));
        case Transmit => last := [CardSends]; AllowedOne(Race(m, Idle), CardSends, Race(t, Idle));
        case Interrupt(low, dw) => last := HandleAllowed(m, low, dw);
      }
      AllowedOn(Race(r, Idle), race, Race(m, Idle), last, Race(t, Idle));
      race := race + last;
    }
  }

  /** Seven packets that meet two unreclaimed slots can lead to a null pointer being freed. */
  lemma SevenFault(s: Race) returns (acts: seq<Action>, t: Race, more: seq<Action>, u: Race)
    requires Init(s)
    ensures Exec(FittingStep, s, acts) == Some(t) && |t.ring.queue| == 7
    ensures Leads(t, more, u) && u.ring.fault
  {
    var atomic, r := IdleReached(s.ring, 2, 7);
    acts := AtomicEmbeds(s.ring, atomic, r);
    t := Race(r, Idle);
    RaceExactly(s, acts, t);
    more, u :| Leads(t, more, u) && u.ring.fault;
  }
}
