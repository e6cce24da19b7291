/** The transmit ring of the E1000 card: 8 descriptors, filled in batches when the card has
    caught up, and a separate pass that frees the buffers of completed descriptors. The
    handler and the card take turns; buffers are owned heap blocks named by their address. */
module TxRing {
  import opened Ring
  import opened Runs

  const TX_DESC: nat := 8

  /** A buffer handed to the driver: its address (0 is the null pointer) and length. */
  datatype Packet = Packet(ptr: nat, len: nat)

  datatype Desc = Desc(packet: Packet, done: bool)

  /** `heap` maps each allocated buffer to whether the card has completed it. `fault` is set
      when a pointer is freed that is null, not allocated or not completed. The last three
      fields are histories: packets taken from the queue, packets sent, pointers freed. */
  datatype State = State(desc: seq<Desc>, bufs: seq<nat>, cur: nat, tail: nat, head: nat, last: nat,
                         queue: seq<Packet>, heap: map<nat, bool>, fault: bool,
                         dequeued: seq<Packet>, sent: seq<Packet>, freed: seq<nat>)

  ghost predicate Shape(s: State) {
    && |s.desc| == TX_DESC && |s.bufs| == TX_DESC && s.tail == s.cur
    && s.cur < TX_DESC && s.head < TX_DESC && s.last < TX_DESC
  }

  ghost predicate Init(s: State) {
    && Shape(s) && s.cur == s.head == s.last == 0
    && s.queue == [] && s.heap == map[] && !s.fault && s.dequeued == [] && s.sent == [] && s.freed == []
    && forall i: nat :: i < TX_DESC ==> s.bufs[i] == 0 && s.desc[i].done
  }

  /** Fill the descriptor at `cur_tx` and move the tail on. */
  function EnqueuePacket(s: State, p: Packet): State
    requires s.cur < |s.desc| == |s.bufs| == TX_DESC
  {
    var next := Next(TX_DESC, s.cur);
    s.(desc := s.desc[s.cur := Desc(p, false)], bufs := s.bufs[s.cur := p.ptr], cur := next, tail := next)
  }

  /** The packet at the front of the queue moves onto the ring. */
  function EnqueueNext(s: State): State
    requires s.cur < |s.desc| == |s.bufs| == TX_DESC && s.queue != []
  {
    EnqueuePacket(s.(queue := s.queue[1..], dequeued := s.dequeued + [s.queue[0]]), s.queue[0])
  }

  /** Up to n packets move from the queue onto the ring. */
  function Refill(s: State, n: nat): (r: State)
    requires s.cur < |s.desc| == |s.bufs| == TX_DESC
    ensures |r.desc| == |r.bufs| == TX_DESC && r.last == s.last
    decreases n
  {
    if n == 0 || s.queue == [] then s
    else Refill(EnqueueNext(s), n - 1)
  }

  /** Free the buffer of slot i. */
  function Free(s: State, i: nat): State
    requires i < |s.bufs| == TX_DESC
  {
    var ptr := s.bufs[i];
    s.(heap := s.heap - {ptr}, fault := s.fault || ptr == 0 || ptr !in s.heap || !s.heap[ptr],
       freed := s.freed + [ptr], bufs := s.bufs[i := 0], last := Next(TX_DESC, i))
  }

  /** The scan of the slots from i up to, not including, the head that was read. */
  function Reclaim(s: State, i: nat, head: nat): State
    requires |s.desc| == |s.bufs| == TX_DESC && i < TX_DESC && head < TX_DESC
    decreases Dist(TX_DESC, i, head)
  {
    if i == head then s
    else Reclaim(if s.desc[i].done then Free(s, i) else s, Next(TX_DESC, i), head)
  }

  /** The transmit half of one interrupt. */
  function Handle(s: State, txdLow: bool, txdw: bool): State
    requires |s.desc| == |s.bufs| == TX_DESC && s.cur < TX_DESC && s.head < TX_DESC && s.last < TX_DESC
  {
    var filled := if s.head == s.tail && (txdLow || txdw) then Refill(s, TX_DESC) else s;
    if txdw then Reclaim(filled, filled.last, s.head) else filled
  }

  /** A new buffer is queued for sending; the card transmits the packet at its head; or the
      card raises an interrupt. */
  datatype Action = Send(p: Packet) | Transmit | Interrupt(txdLow: bool, txdw: bool)

  ghost function Step(s: State, a: Action): Option<State> {
    if !Shape(s) then None else
    match a
    case Send(p) =>
      if p.ptr == 0 || p.ptr in s.heap then None
      else Some(s.(queue := s.queue + [p], heap := s.heap[p.ptr := false]))
    case Transmit =>
      if s.head == s.tail then None
      else
        var p := s.desc[s.head].packet;
        Some(s.(desc := s.desc[s.head := Desc(p, true)], head := Next(TX_DESC, s.head), sent := s.sent + [p],
                heap := if p.ptr in s.heap then s.heap[p.ptr := true] else s.heap))
    case Interrupt(low, dw) => Some(Handle(s, low, dw))
  }

  // ---- Reclaim safety, over all runs ----

  ghost predicate Safe(s: State) {
    && Shape(s) && !s.fault
    && (forall i: nat :: i < TX_DESC && Within(TX_DESC, s.last, s.head, i) ==> s.bufs[i] != 0)
    && (forall i: nat :: i < TX_DESC && Within(TX_DESC, s.head, s.cur, i) ==>
          s.bufs[i] != 0 && !s.desc[i].done && s.desc[i].packet.ptr == s.bufs[i])
    && (forall i: nat :: i < TX_DESC && s.bufs[i] != 0 ==>
          s.bufs[i] in s.heap && s.heap[s.bufs[i]] == s.desc[i].done && Queued(s, s.bufs[i]) == false)
    && (forall i: nat, j: nat :: i < j < TX_DESC && s.bufs[i] != 0 ==> s.bufs[i] != s.bufs[j])
    && QueueOwned(s.queue, s.heap)
  }

  ghost predicate Queued(s: State, ptr: nat) {
    exists k: nat :: k < |s.queue| && s.queue[k].ptr == ptr
  }

  ghost predicate QueueOwned(queue: seq<Packet>, heap: map<nat, bool>) {
    && (forall k: nat :: k < |queue| ==> queue[k].ptr != 0 && queue[k].ptr in heap && !heap[queue[k].ptr])
    && (forall j: nat, k: nat :: j < k < |queue| ==> queue[j].ptr != queue[k].ptr)
  }

  lemma EnqueueSafe(s: State)
    requires Safe(s) && s.queue != []
    ensures Safe(EnqueueNext(s))
  {
    var s' := EnqueueNext(s);
    assert Queued(s, s.queue[0].ptr);
    forall ptr | Queued(s', ptr) ensures Queued(s, ptr) && ptr != s.queue[0].ptr {
      var k: nat :| k < |s'.queue| && s'.queue[k].ptr == ptr;
      assert s.queue[k + 1].ptr == ptr;
    }
  }

  lemma {:induction false} RefillSafe(s: State, n: nat)
    requires Safe(s)
    ensures Safe(Refill(s, n)) && Refill(s, n).head == s.head
    decreases n
  {
    if n > 0 && s.queue != [] {
      EnqueueSafe(s);
      RefillSafe(EnqueueNext(s), n - 1);
    }
  }

  lemma FreeSafe(s: State, i: nat)
    requires Safe(s) && i < TX_DESC && Within(TX_DESC, s.last, s.head, i) && s.desc[i].done
    ensures Safe(Free(s, i))
  {
    var s' := Free(s, i);
    forall k: nat | k < |s.queue| ensures s.queue[k].ptr != s.bufs[i] {
      if s.queue[k].ptr == s.bufs[i] { assert Queued(s, s.bufs[i]); }
    }
    forall ptr | Queued(s', ptr) ensures Queued(s, ptr) {
      var k: nat :| k < |s'.queue| && s'.queue[k].ptr == ptr;
      assert s.queue[k].ptr == ptr;
    }
  }

  /** The scan keeps within the range from `last_reclaimed_tx` to the head. */
  lemma {:induction false} ReclaimSafe(s: State, i: nat)
    requires Safe(s) && i < TX_DESC && Dist(TX_DESC, s.last, i) <= Dist(TX_DESC, s.last, s.head)
    ensures Safe(Reclaim(s, i, s.head))
    decreases Dist(TX_DESC, i, s.head)
  {
    if i != s.head {
      if s.desc[i].done { FreeSafe(s, i); }
      ReclaimSafe(if s.desc[i].done then Free(s, i) else s, Next(TX_DESC, i));
    }
  }

  lemma SafeKept(s: State, a: Action)
    requires Safe(s) && Step(s, a).Some?
    ensures Safe(Step(s, a).value)
  {
    var s' := Step(s, a).value;
    match a
    case Send(p) =>
      forall ptr | Queued(s', ptr) ensures Queued(s, ptr) || ptr == p.ptr {
        var k: nat :| k < |s'.queue| && s'.queue[k].ptr == ptr;
        assert k < |s.queue| ==> s.queue[k].ptr == ptr;
      }
    case Transmit =>
      assert Within(TX_DESC, s.head, s.cur, s.head);
      forall ptr | Queued(s', ptr) ensures Queued(s, ptr) {
        var k: nat :| k < |s'.queue| && s'.queue[k].ptr == ptr;
        assert s.queue[k].ptr == ptr;
      }
    case Interrupt(low, dw) =>
      var filled := if s.head == s.tail && (low || dw) then Refill(s, TX_DESC) else s;
      RefillSafe(s, TX_DESC);
      if dw { ReclaimSafe(filled, filled.last); }
  }

  /** In every run, each pointer given back to the heap is non-null, allocated (so it was not
      freed before) and completed by the card, and no slot the card still has to send, nor any
      queued packet, refers to freed memory. */
  lemma ReclaimIsSafe(s: State, acts: seq<Action>, t: State)
    requires Init(s) && Exec(Step, s, acts) == Some(t)
    ensures Shape(t) && !t.fault
    ensures forall i: nat :: i < TX_DESC && Within(TX_DESC, t.head, t.tail, i) ==> t.desc[i].packet.ptr in t.heap
    ensures forall k: nat :: k < |t.queue| ==> t.queue[k].ptr in t.heap
  {
    forall m, a | Safe(m) && Step(m, a).Some? ensures Safe(Step(m, a).value) { SafeKept(m, a); }
    Invariance(Step, Safe, s, acts);
  }

  // ---- First in, first out ----

  /** Packets in the slots of the cyclic range [head, tail), which the card will send next. */
  ghost function InRing(s: State): seq<Packet>
    requires Shape(s)
  {
    seq(Dist(TX_DESC, s.head, s.tail), i requires 0 <= i => s.desc[Slot(TX_DESC, s.head + i)].packet)
  }

  /** The card has sent, and will send, exactly the packets taken from the queue, in order. */
  ghost predicate InOrder(s: State) {
    Shape(s) && s.sent + InRing(s) == s.dequeued
  }

  /** Number of packets the next interrupt moves onto the ring. */
  function Batch(s: State, txdLow: bool, txdw: bool): nat {
    if s.head == s.tail && (txdLow || txdw) then Taken(s, TX_DESC) else 0
  }

  function Taken(s: State, n: nat): nat {
    if |s.queue| < n then |s.queue| else n
  }

  /** Packet number k is in slot k mod 8, and less than a lap is outstanding. */
  ghost predicate Fifo(s: State) {
    && Shape(s)
    && s.cur == Slot(TX_DESC, |s.dequeued|) && s.head == Slot(TX_DESC, |s.sent|)
    && |s.sent| <= |s.dequeued| < |s.sent| + TX_DESC
    && s.sent == s.dequeued[..|s.sent|]
    && (forall k: nat :: |s.sent| <= k < |s.dequeued| ==> Carries(s, k))
  }

  ghost predicate Carries(s: State, k: nat)
    requires Shape(s) && k < |s.dequeued|
  {
    s.desc[Slot(TX_DESC, k)].packet == s.dequeued[k]
  }

  lemma FifoInOrder(s: State)
    requires Fifo(s)
    ensures InOrder(s)
  {
    DistIsCount(TX_DESC, |s.sent|, |s.dequeued|);
    var ring := InRing(s);
    forall i: nat | i < |ring| ensures ring[i] == s.dequeued[|s.sent| + i] {
      SlotPlus(TX_DESC, |s.sent|, i);
      assert Carries(s, |s.sent| + i);
    }
  }

  /** What a refill leaves alone, and how far it moves the tail. */
  lemma {:induction false} RefillCounts(s: State, n: nat)
    requires Shape(s)
    ensures var r := Refill(s, n);
            && Shape(r) && r.head == s.head && r.sent == s.sent && r.freed == s.freed && r.heap == s.heap
            && |r.dequeued| == |s.dequeued| + Taken(s, n)
            && (s.cur == Slot(TX_DESC, |s.dequeued|) ==> r.cur == Slot(TX_DESC, |r.dequeued|))
    decreases n
  {
    if n > 0 && s.queue != [] {
      SlotNext(TX_DESC, |s.dequeued|);
      RefillCounts(EnqueueNext(s), n - 1);
    }
  }

  lemma {:induction false} RefillFifo(s: State, n: nat)
    requires Fifo(s) && |s.dequeued| + Taken(s, n) < |s.sent| + TX_DESC
    ensures Fifo(Refill(s, n))
    decreases n
  {
    if n > 0 && s.queue != [] {
      var s' := EnqueueNext(s);
      SlotNext(TX_DESC, |s.dequeued|);
      forall k: nat | |s'.sent| <= k < |s'.dequeued| ensures Carries(s', k) {
        if k < |s.dequeued| { assert Carries(s, k); SlotsDiffer(TX_DESC, k, |s.dequeued|); }
      }
      RefillFifo(s', n - 1);
    }
  }

  /** The scan only frees. */
  lemma {:induction false} ReclaimFrame(s: State, i: nat, head: nat)
    requires |s.desc| == |s.bufs| == TX_DESC && i < TX_DESC && head < TX_DESC
    ensures var r := Reclaim(s, i, head);
            && r.desc == s.desc && r.cur == s.cur && r.tail == s.tail && r.head == s.head && r.queue == s.queue
            && r.dequeued == s.dequeued && r.sent == s.sent && |r.bufs| == TX_DESC && (s.last < TX_DESC ==> r.last < TX_DESC)
    decreases Dist(TX_DESC, i, head)
  {
    if i != head {
      ReclaimFrame(if s.desc[i].done then Free(s, i) else s, Next(TX_DESC, i), head);
    }
  }

  /** An interrupt that moves fewer than 8 packets keeps the order. */
  lemma HandleFifo(s: State, low: bool, dw: bool)
    requires Fifo(s) && Batch(s, low, dw) < TX_DESC
    ensures Fifo(Handle(s, low, dw))
  {
    var filled := if s.head == s.tail && (low || dw) then Refill(s, TX_DESC) else s;
    if s.head == s.tail && (low || dw) {
      DistIsCount(TX_DESC, |s.sent|, |s.dequeued|);
      RefillFifo(s, TX_DESC);
    }
    assert Fifo(filled);
    if dw {
      ReclaimFrame(filled, filled.last, s.head);
      var r := Reclaim(filled, filled.last, s.head);
      forall k: nat | |r.sent| <= k < |r.dequeued| ensures Carries(r, k) { assert Carries(filled, k); }
    }
  }

  lemma TransmitFifo(s: State)
    requires Fifo(s) && Step(s, Transmit).Some?
    ensures Fifo(Step(s, Transmit).value)
  {
    var s' := Step(s, Transmit).value;
    SlotNext(TX_DESC, |s.sent|);
    assert Carries(s, |s.sent|);
    forall k: nat | |s'.sent| <= k < |s'.dequeued| ensures Carries(s', k) {
      assert Carries(s, k);
      SlotsDiffer(TX_DESC, |s.sent|, k);
    }
  }

  /** Runs in which no interrupt finds 8 or more packets waiting on an idle ring. */
  ghost function SmallBatchStep(s: State, a: Action): Option<State> {
    if a.Interrupt? && Batch(s, a.txdLow, a.txdw) >= TX_DESC then None else Step(s, a)
  }

  lemma SmallBatchesAreFifo(s: State, acts: seq<Action>)
    requires Init(s) && Exec(SmallBatchStep, s, acts).Some?
    ensures Fifo(Exec(SmallBatchStep, s, acts).value)
  {
    forall m, a | Fifo(m) && SmallBatchStep(m, a).Some? ensures Fifo(SmallBatchStep(m, a).value) {
      match a
      case Send(p) => forall k: nat | |m.sent| <= k < |m.dequeued| ensures Carries(Step(m, a).value, k) { assert Carries(m, k); }
      case Transmit => TransmitFifo(m);
      case Interrupt(low, dw) => HandleFifo(m, low, dw);
    }
    Invariance(SmallBatchStep, Fifo, s, acts);
  }

  /** As long as batches stay below 8 packets the card sends exactly what was dequeued, in
      order; and the next interrupt keeps this if and only if its batch is below 8 as well:
      8 packets move the tail all the way round onto the head. */
  lemma FifoExactly(s: State, acts: seq<Action>, t: State, low: bool, dw: bool)
    requires Init(s) && Exec(SmallBatchStep, s, acts) == Some(t)
    ensures InOrder(t)
    ensures InOrder(Handle(t, low, dw)) <==> Batch(t, low, dw) < TX_DESC
  {
    SmallBatchesAreFifo(s, acts);
    FifoInOrder(t);
    if Batch(t, low, dw) < TX_DESC {
      HandleFifo(t, low, dw);
      FifoInOrder(Handle(t, low, dw));
    } else {
      var filled := Refill(t, TX_DESC);
      RefillCounts(t, TX_DESC);
      DistIsCount(TX_DESC, |t.sent|, |t.dequeued|);
      if dw { ReclaimFrame(filled, filled.last, t.head); }
    }
  }

  // ---- Buffer conservation ----

  /** The buffers in the slots of the cyclic range [last_reclaimed_tx, cur_tx). */
  ghost function Live(s: State): seq<nat>
    requires Shape(s)
  {
    seq(Dist(TX_DESC, s.last, s.cur), i requires 0 <= i => s.bufs[Slot(TX_DESC, s.last + i)])
  }

  ghost function Pointers(ps: seq<Packet>): seq<nat> {
    seq(|ps|, i requires 0 <= i < |ps| => ps[i].ptr)
  }

  /** Every dequeued buffer was freed, in order, or is live: none is lost. */
  ghost predicate NoLeak(s: State) {
    Shape(s) && s.freed + Live(s) == Pointers(s.dequeued)
  }

  /** Buffer number k is in slot k mod 8 until it is freed; at most `lap` are unfreed. */
  ghost predicate Conserved(s: State, lap: nat) {
    && Fifo(s)
    && s.last == Slot(TX_DESC, |s.freed|)
    && |s.freed| <= |s.sent| && |s.dequeued| <= |s.freed| + lap
    && (forall k: nat :: k < |s.freed| ==> s.freed[k] == s.dequeued[k].ptr)
    && (forall k: nat :: |s.freed| <= k < |s.dequeued| ==> Keeps(s, k))
  }

  ghost predicate Keeps(s: State, k: nat)
    requires Shape(s) && k < |s.dequeued|
  {
    var i := Slot(TX_DESC, k);
    s.bufs[i] == s.dequeued[k].ptr && (s.desc[i].done <==> k < |s.sent|)
  }

  lemma ConservedNoLeak(s: State)
    requires Conserved(s, TX_DESC - 1)
    ensures NoLeak(s)
  {
    DistIsCount(TX_DESC, |s.freed|, |s.dequeued|);
    var live := Live(s);
    forall i: nat | i < |live| ensures live[i] == s.dequeued[|s.freed| + i].ptr {
      SlotPlus(TX_DESC, |s.freed|, i);
      assert Keeps(s, |s.freed| + i);
    }
    assert s.freed + live == Pointers(s.dequeued);
  }

  lemma EnqueueConserved(s: State)
    requires Conserved(s, TX_DESC) && s.queue != []
    requires |s.dequeued| + 1 < |s.sent| + TX_DESC && |s.dequeued| + 1 <= |s.freed| + TX_DESC
    ensures Conserved(EnqueueNext(s), TX_DESC)
  {
    var s' := EnqueueNext(s);
    SlotNext(TX_DESC, |s.dequeued|);
    forall k: nat | |s'.freed| <= k < |s'.dequeued| ensures Keeps(s', k) && (k >= |s'.sent| ==> Carries(s', k)) {
      if k < |s.dequeued| {
        assert Keeps(s, k);
        assert k >= |s.sent| ==> Carries(s, k);
        SlotsDiffer(TX_DESC, k, |s.dequeued|);
      }
    }
  }

  lemma {:induction false} RefillConserved(s: State, n: nat)
    requires Conserved(s, TX_DESC)
    requires |s.dequeued| + Taken(s, n) < |s.sent| + TX_DESC && |s.dequeued| + Taken(s, n) <= |s.freed| + TX_DESC
    ensures Conserved(Refill(s, n), TX_DESC)
    decreases n
  {
    if n > 0 && s.queue != [] {
      EnqueueConserved(s);
      RefillConserved(EnqueueNext(s), n - 1);
    }
  }

  lemma FreeConserved(s: State)
    requires Conserved(s, TX_DESC) && |s.freed| < |s.sent|
    ensures Conserved(Free(s, s.last), TX_DESC)
  {
    var s' := Free(s, s.last);
    assert Keeps(s, |s.freed|);
    SlotNext(TX_DESC, |s.freed|);
    forall k: nat | |s'.freed| <= k < |s'.dequeued| ensures Keeps(s', k) && (k >= |s'.sent| ==> Carries(s', k)) {
      assert Keeps(s, k);
      assert k >= |s.sent| ==> Carries(s, k);
      SlotsDiffer(TX_DESC, |s.freed|, k);
    }
  }

  /** The scan frees everything the card has completed. */
  lemma {:induction false} ReclaimConserved(s: State)
    requires Conserved(s, TX_DESC) && |s.sent| < |s.freed| + TX_DESC
    ensures var r := Reclaim(s, s.last, s.head); Conserved(r, TX_DESC) && |r.freed| == |s.sent| == |r.sent|
    decreases |s.sent| - |s.freed|
  {
    DistIsCount(TX_DESC, |s.freed|, |s.sent|);
    if |s.freed| < |s.sent| {
      assert Keeps(s, |s.freed|);
      FreeConserved(s);
      ReclaimConserved(Free(s, s.last));
    }
  }

  /** Room for the next batch: it must not go all the way round, nor overwrite a buffer that
      is not freed; the pass at the end of a write-back interrupt frees one slot in time. */
  predicate Fits(s: State, txdLow: bool, txdw: bool)
    requires s.last < TX_DESC && s.head < TX_DESC
  {
    var b, unreclaimed := Batch(s, txdLow, txdw), Dist(TX_DESC, s.last, s.head);
    b < TX_DESC && unreclaimed + b <= if txdw then TX_DESC else TX_DESC - 1
  }

  lemma HandleConserved(s: State, low: bool, dw: bool)
    requires Conserved(s, TX_DESC - 1) && Fits(s, low, dw)
    ensures Conserved(Handle(s, low, dw), TX_DESC - 1)
  {
    var filled := if s.head == s.tail && (low || dw) then Refill(s, TX_DESC) else s;
    DistIsCount(TX_DESC, |s.freed|, |s.sent|);
    DistIsCount(TX_DESC, |s.sent|, |s.dequeued|);
    if s.head == s.tail && (low || dw) {
      RefillCounts(s, TX_DESC);
      RefillConserved(s, TX_DESC);
    }
    assert Conserved(filled, TX_DESC);
    if dw {
      ReclaimFrame(filled, filled.last, s.head);
      ReclaimConserved(filled);
    }
  }

  lemma TransmitConserved(s: State, lap: nat)
    requires Conserved(s, lap) && lap <= TX_DESC && Step(s, Transmit).Some?
    ensures Conserved(Step(s, Transmit).value, lap)
  {
    var s' := Step(s, Transmit).value;
    TransmitFifo(s);
    assert Keeps(s, |s.sent|);
    forall k: nat | |s'.freed| <= k < |s'.dequeued| ensures Keeps(s', k) {
      assert Keeps(s, k);
      if k < |s.sent| { SlotsDiffer(TX_DESC, k, |s.sent|); } else if |s.sent| < k { SlotsDiffer(TX_DESC, |s.sent|, k); }
    }
  }

  /** The scan gives back at most one buffer for each slot it moves `last_reclaimed_tx` over;
      a slot it skips and then moves over is one buffer less. */
  lemma {:induction false} ReclaimCount(s: State, i: nat, skipped: bool)
    requires Shape(s) && i < TX_DESC && Dist(TX_DESC, s.last, i) <= Dist(TX_DESC, s.last, s.head)
    requires skipped ==> Dist(TX_DESC, s.last, i) > 0
    ensures var r := Reclaim(s, i, s.head);
            && r.last < TX_DESC
            && |r.freed| + Dist(TX_DESC, r.last, s.head) <= |s.freed| + Dist(TX_DESC, s.last, s.head)
            && (!skipped || (r.freed == s.freed && r.last == s.last)
                || |r.freed| + Dist(TX_DESC, r.last, s.head) < |s.freed| + Dist(TX_DESC, s.last, s.head))
    decreases Dist(TX_DESC, i, s.head)
  {
    if i != s.head {
      if s.desc[i].done { ReclaimCount(Free(s, i), Next(TX_DESC, i), false); }
      else { ReclaimCount(s, Next(TX_DESC, i), skipped); }
    }
  }

  /** Moving the tail on by b slots, less than a lap, adds b slots or wraps around. */
  lemma DistAdd(n: nat, k: nat, b: nat, last: nat)
    requires n > 0 && last < n && b <= n
    ensures var d := Dist(n, last, Slot(n, k)) + b;
            Dist(n, last, Slot(n, k + b)) == if d < n then d else if d < 2 * n then d - n else d - 2 * n
  {
    SlotPlus(n, k, b);
  }

  /** After a refill that went over an unfreed buffer, its slot is no longer done. */
  lemma {:induction false} RefillUndoes(s: State, n: nat, d: nat)
    requires Shape(s) && d < Taken(s, n) && n <= TX_DESC
    ensures !Refill(s, n).desc[Slot(TX_DESC, s.cur + d)].done
    decreases d
  {
    var s' := EnqueueNext(s);
    if d == 0 {
      RefillFarther(s', n - 1, s.cur);
    } else {
      RefillUndoes(s', n - 1, d - 1);
      assert Slot(TX_DESC, s'.cur + (d - 1)) == Slot(TX_DESC, s.cur + d);
    }
  }

  lemma {:induction false} RefillFarther(s: State, n: nat, i: nat)
    requires Shape(s) && i < TX_DESC && !s.desc[i].done
    ensures !Refill(s, n).desc[i].done
    decreases n
  {
    if n > 0 && s.queue != [] {
      RefillFarther(EnqueueNext(s), n - 1, i);
    }
  }

  lemma TooFewLeaks(r: State)
    requires Shape(r) && |r.freed| + Dist(TX_DESC, r.last, r.cur) < |r.dequeued|
    ensures !NoLeak(r)
  {}

  /** Without a reclaim, too many packets move the tail round onto `last_reclaimed_tx`. */
  lemma RefillLeaks(s: State)
    requires Conserved(s, TX_DESC - 1) && !Fits(s, true, false)
    ensures !NoLeak(Handle(s, true, false))
  {
    DistIsCount(TX_DESC, |s.freed|, |s.sent|);
    DistIsCount(TX_DESC, |s.sent|, |s.dequeued|);
    RefillCounts(s, TX_DESC);
    TooFewLeaks(Refill(s, TX_DESC));
  }

  /** With one, the refill has undone the descriptor the reclaim starts at. */
  lemma ReclaimSkips(s: State, filled: State, r: State)
    requires Conserved(s, TX_DESC - 1) && s.head == s.cur && filled == Refill(s, TX_DESC) && r == Reclaim(filled, s.last, s.head)
    requires Dist(TX_DESC, s.last, s.head) + Taken(s, TX_DESC) > TX_DESC
    ensures r.last < TX_DESC
    ensures (r.freed == s.freed && r.last == s.last)
            || |r.freed| + Dist(TX_DESC, r.last, s.head) < |s.freed| + Dist(TX_DESC, s.last, s.head)
  {
    var u := Dist(TX_DESC, s.last, s.head);
    RefillCounts(s, TX_DESC);
    RefillUndoes(s, TX_DESC, TX_DESC - u);
    assert Slot(TX_DESC, s.cur + (TX_DESC - u)) == s.last;
    ReclaimCount(filled, Next(TX_DESC, filled.last), true);
  }

  /** Moving the tail on by b slots past `last` leaves fewer slots than buffers. */
  lemma FewerSlots(k: nat, b: nat, last: nat, freed: nat, last': nat, freed': nat)
    requires last < TX_DESC && last' < TX_DESC && b <= TX_DESC <= Dist(TX_DESC, last, Slot(TX_DESC, k)) + b
    requires (freed' == freed && last' == last)
             || freed' + Dist(TX_DESC, last', Slot(TX_DESC, k)) < freed + Dist(TX_DESC, last, Slot(TX_DESC, k))
    ensures freed' + Dist(TX_DESC, last', Slot(TX_DESC, k + b)) < freed + Dist(TX_DESC, last, Slot(TX_DESC, k)) + b
  {
    DistAdd(TX_DESC, k, b, last');
  }

  lemma ReclaimCounts(s: State, filled: State, r: State)
    requires Conserved(s, TX_DESC - 1) && s.head == s.cur && filled == Refill(s, TX_DESC) && r == Reclaim(filled, s.last, s.head)
    requires Taken(s, TX_DESC) == TX_DESC || Dist(TX_DESC, s.last, s.head) + Taken(s, TX_DESC) > TX_DESC
    ensures r.last < TX_DESC && filled.cur < TX_DESC
    ensures |r.freed| + Dist(TX_DESC, r.last, filled.cur) < |s.freed| + Dist(TX_DESC, s.last, s.head) + Taken(s, TX_DESC)
  {
    RefillCounts(s, TX_DESC);
    if s.last != s.head { ReclaimSkips(s, filled, r); }
    FewerSlots(|s.dequeued|, Taken(s, TX_DESC), s.last, |s.freed|, r.last, |r.freed|);
  }

  lemma ReclaimLeaks(s: State, low: bool)
    requires Conserved(s, TX_DESC - 1) && !Fits(s, low, true)
    ensures !NoLeak(Handle(s, low, true))
  {
    var filled := Refill(s, TX_DESC);
    var r := Reclaim(filled, s.last, s.head);
    DistIsCount(TX_DESC, |s.freed|, |s.sent|);
    DistIsCount(TX_DESC, |s.sent|, |s.dequeued|);
    RefillCounts(s, TX_DESC);
    ReclaimCounts(s, filled, r);
    ReclaimFrame(filled, s.last, s.head);
    TooFewLeaks(r);
  }

  /** A batch that does not fit loses a buffer. */
  lemma OverfullLeaks(s: State, low: bool, dw: bool)
    requires Conserved(s, TX_DESC - 1) && !Fits(s, low, dw)
    ensures !NoLeak(Handle(s, low, dw))
  {
    if dw { ReclaimLeaks(s, low); } else { RefillLeaks(s); }
  }

  /** Runs in which every interrupt's batch fits. */
  ghost function FittingStep(s: State, a: Action): Option<State> {
    if Shape(s) && a.Interrupt? && !Fits(s, a.txdLow, a.txdw) then None else Step(s, a)
  }

  lemma FittingConserves(s: State, acts: seq<Action>)
    requires Init(s) && Exec(FittingStep, s, acts).Some?
    ensures Conserved(Exec(FittingStep, s, acts).value, TX_DESC - 1)
  {
    var inv := m => Conserved(m, TX_DESC - 1);
    forall m, a | inv(m) && FittingStep(m, a).Some? ensures inv(FittingStep(m, a).value) {
      match a
      case Send(p) =>
        forall k: nat | |m.freed| <= k < |m.dequeued| ensures Keeps(Step(m, a).value, k) && (k >= |m.sent| ==> Carries(Step(m, a).value, k)) {
          assert Keeps(m, k);
          assert k >= |m.sent| ==> Carries(m, k);
        }
      case Transmit => TransmitConserved(m, TX_DESC - 1);
      case Interrupt(low, dw) => HandleConserved(m, low, dw);
    }
    Invariance(FittingStep, inv, s, acts);
  }

  /** As long as every batch fits, dequeued buffers are freed or live, in order, with none
      lost; and the next interrupt keeps this if and only if its batch fits. */
  lemma ConservationExactly(s: State, acts: seq<Action>, t: State, low: bool, dw: bool)
    requires Init(s) && Exec(FittingStep, s, acts) == Some(t)
    ensures NoLeak(t)
    ensures NoLeak(Handle(t, low, dw)) <==> Fits(t, low, dw)
  {
    FittingConserves(s, acts);
    ConservedNoLeak(t);
    if Fits(t, low, dw) {
      HandleConserved(t, low, dw);
      ConservedNoLeak(Handle(t, low, dw));
    } else {
      OverfullLeaks(t, low, dw);
    }
  }

  // ---- Both guards are reached ----

  lemma SendRuns(s: State, acts: seq<Action>, m: State, ptr: nat) returns (t: State)
    requires Exec(FittingStep, s, acts) == Some(m) && Shape(m) && ptr != 0 && ptr !in m.heap
    ensures Exec(FittingStep, s, acts + [Send(Packet(ptr, 60))]) == Some(t)
    ensures t == m.(queue := m.queue + [Packet(ptr, 60)], heap := m.heap[ptr := false])
  {
    ExecSnoc(FittingStep, s, acts, Send(Packet(ptr, 60)));
    t := m.(queue := m.queue + [Packet(ptr, 60)], heap := m.heap[ptr := false]);
  }

  lemma {:induction false} SendsRun(s: State, first: nat, n: nat) returns (acts: seq<Action>, t: State)
    requires Shape(s) && forall ptr :: ptr > first ==> ptr !in s.heap
    ensures Exec(FittingStep, s, acts) == Some(t) && t == s.(queue := t.queue, heap := t.heap)
    ensures |t.queue| == |s.queue| + n && forall ptr :: ptr > first + n ==> ptr !in t.heap
  {
    if n == 0 {
      acts, t := [], s;
    } else {
      var init, m := SendsRun(s, first, n - 1);
      t := SendRuns(s, init, m, first + n);
      acts := init + [Send(Packet(first + n, 60))];
    }
  }

  lemma {:induction false} TransmitsRun(s: State) returns (acts: seq<Action>, t: State)
    requires Fifo(s)
    ensures Exec(FittingStep, s, acts) == Some(t)
    ensures Shape(t) && t.head == t.cur == s.cur && t.last == s.last && t.queue == s.queue && t.heap.Keys == s.heap.Keys
    decreases |s.dequeued| - |s.sent|
  {
    DistIsCount(TX_DESC, |s.sent|, |s.dequeued|);
    if s.head == s.tail {
      acts, t := [], s;
    } else {
      var m := Step(s, Transmit).value;
      TransmitFifo(s);
      var rest;
      rest, t := TransmitsRun(m);
      acts := [Transmit] + rest;
      assert [Transmit][..0] == [];
      assert Exec(FittingStep, s, [Transmit]) == Some(m);
      ExecConcat(FittingStep, s, [Transmit], rest);
    }
  }

  /** Fitting runs lead to an idle ring with any number u < 8 of unreclaimed slots and any number
      b of packets waiting: u packets are sent without a write-back interrupt, then b queued. */
  lemma IdleReached(s: State, u: nat, b: nat) returns (acts: seq<Action>, t: State)
    requires Init(s) && u < TX_DESC
    ensures Exec(FittingStep, s, acts) == Some(t)
    ensures Shape(t) && t.head == t.tail && Dist(TX_DESC, t.last, t.head) == u && |t.queue| == b
  {
    var a1, t1 := SendsRun(s, 0, u);
    var t2 := Refill(t1, TX_DESC);
    ExecSnoc(FittingStep, s, a1, Interrupt(true, false));
    RefillCounts(t1, TX_DESC);
    RefillFifo(t1, TX_DESC);
    var a3, t3 := TransmitsRun(t2);
    ExecConcat(FittingStep, s, a1 + [Interrupt(true, false)], a3);
    var a4, t4 := SendsRun(t3, u, b);
    ExecConcat(FittingStep, s, a1 + [Interrupt(true, false)] + a3, a4);
    acts, t := a1 + [Interrupt(true, false)] + a3 + a4, t4;
    assert t2.cur == Slot(TX_DESC, u) == u;
  }

  lemma {:induction false} FittingIsSmall(s: State, acts: seq<Action>, t: State)
    requires Exec(FittingStep, s, acts) == Some(t)
    ensures Exec(SmallBatchStep, s, acts) == Some(t)
  {
    if acts != [] { FittingIsSmall(s, acts[..|acts| - 1], Exec(FittingStep, s, acts[..|acts| - 1]).value); }
  }

  /** Eight packets on an idle ring are the first that are not sent. */
  lemma EightBreakOrder(s: State) returns (acts: seq<Action>, t: State)
    requires Init(s)
    ensures Exec(SmallBatchStep, s, acts) == Some(t) && InOrder(t) && !InOrder(Handle(t, true, false))
  {
    acts, t := IdleReached(s, 0, TX_DESC);
    FittingIsSmall(s, acts, t);
    FifoExactly(s, acts, t, true, false);
  }

  /** Four packets lose a buffer when four slots are unreclaimed. */
  lemma FourLoseBuffer(s: State) returns (acts: seq<Action>, t: State)
    requires Init(s)
    ensures Exec(FittingStep, s, acts) == Some(t) && Batch(t, true, false) == 4
    ensures NoLeak(t) && !NoLeak(Handle(t, true, false)) && InOrder(Handle(t, true, false))
  {
    acts, t := IdleReached(s, 4, 4);
    ConservationExactly(s, acts, t, true, false);
    FittingIsSmall(s, acts, t);
    FifoExactly(s, acts, t, true, false);
  }

  // ---- What the driver takes and gives back ----

  /** The packets handed to the driver in a run, in order. */
  function PacketsOf(acts: seq<Action>): seq<Packet> {
    if acts == [] then []
    else PacketsOf(acts[..|acts| - 1]) + if acts[|acts| - 1].Send? then [acts[|acts| - 1].p] else []
  }

  lemma {:induction false} RefillTakes(s: State, n: nat)
    requires Shape(s)
    ensures Refill(s, n).dequeued + Refill(s, n).queue == s.dequeued + s.queue
    decreases n
  {
    if n > 0 && s.queue != [] {
      assert EnqueueNext(s).dequeued + EnqueueNext(s).queue == s.dequeued + s.queue;
      RefillTakes(EnqueueNext(s), n - 1);
    }
  }

  /** An interrupt moves up to 8 packets onto the ring, exactly if the card has caught up and the
      cause says so, and changes neither the order nor the packets. */
  lemma InterruptMoves(s: State, low: bool, dw: bool)
    requires Shape(s)
    ensures var r := Handle(s, low, dw);
            && r.dequeued + r.queue == s.dequeued + s.queue
            && |r.dequeued| == |s.dequeued| + if s.head == s.tail && (low || dw) then Taken(s, 8) else 0
  {
    var filled := if s.head == s.tail && (low || dw) then Refill(s, TX_DESC) else s;
    RefillCounts(s, TX_DESC);
    RefillTakes(s, TX_DESC);
    if dw { ReclaimFrame(filled, filled.last, s.head); }
  }

  /** In every run, the packets taken from the queue followed by those still in it are the packets
      handed over, in order. */
  lemma {:induction false} NothingVanishes(s: State, acts: seq<Action>, t: State)
    requires Init(s) && Exec(Step, s, acts) == Some(t)
    ensures t.dequeued + t.queue == PacketsOf(acts)
  {
    if acts != [] {
      var init, a := acts[..|acts| - 1], acts[|acts| - 1];
      var m := Exec(Step, s, init).value;
      NothingVanishes(s, init, m);
      match a
      case Send(p) => assert t.dequeued + t.queue == m.dequeued + m.queue + [p];
      case Transmit =>
      case Interrupt(low, dw) => InterruptMoves(m, low, dw);
    }
  }

  lemma FreeGivesBack(s: State, i: nat)
    requires i < |s.bufs| == TX_DESC && !Free(s, i).fault
    ensures multiset(Free(s, i).heap.Keys) + multiset(Free(s, i).freed) == multiset(s.heap.Keys) + multiset(s.freed)
  {
    var ptr := s.bufs[i];
    assert Free(s, i).heap.Keys == s.heap.Keys - {ptr};
    assert multiset(s.heap.Keys - {ptr}) + multiset{ptr} == multiset(s.heap.Keys);
    assert multiset(s.freed + [ptr]) == multiset(s.freed) + multiset{ptr};
  }

  lemma {:induction false} FaultStays(s: State, i: nat, head: nat)
    requires |s.desc| == |s.bufs| == TX_DESC && i < TX_DESC && head < TX_DESC && s.fault
    ensures Reclaim(s, i, head).fault
    decreases Dist(TX_DESC, i, head)
  {
    if i != head { FaultStays(if s.desc[i].done then Free(s, i) else s, Next(TX_DESC, i), head); }
  }

  lemma {:induction false} ReclaimGivesBack(s: State, i: nat, head: nat)
    requires |s.desc| == |s.bufs| == TX_DESC && i < TX_DESC && head < TX_DESC && !Reclaim(s, i, head).fault
    ensures var r := Reclaim(s, i, head); multiset(r.heap.Keys) + multiset(r.freed) == multiset(s.heap.Keys) + multiset(s.freed)
    decreases Dist(TX_DESC, i, head)
  {
    if i != head {
      if s.desc[i].done {
        if Free(s, i).fault { FaultStays(Free(s, i), Next(TX_DESC, i), head); }
        FreeGivesBack(s, i);
      }
      ReclaimGivesBack(if s.desc[i].done then Free(s, i) else s, Next(TX_DESC, i), head);
    }
  }

  /** What is allocated, and what was given back. */
  ghost function Balance(s: State): multiset<nat> {
    multiset(s.heap.Keys) + multiset(s.freed)
  }

  lemma InterruptBalances(s: State, low: bool, dw: bool)
    requires Shape(s) && !Handle(s, low, dw).fault
    ensures Balance(Handle(s, low, dw)) == Balance(s)
  {
    var filled := if s.head == s.tail && (low || dw) then Refill(s, TX_DESC) else s;
    RefillCounts(s, TX_DESC);
    if dw { ReclaimGivesBack(filled, filled.last, s.head); }
  }

  lemma SendBalances(s: State, p: Packet, s': State)
    requires Step(s, Send(p)) == Some(s')
    ensures Balance(s') == Balance(s) + multiset{p.ptr}
  {
    assert s'.heap.Keys == s.heap.Keys + {p.ptr};
    assert multiset(s.heap.Keys + {p.ptr}) == multiset(s.heap.Keys) + multiset{p.ptr};
  }

  /** In every run, each buffer handed over is either still allocated or was given back to the
      heap, once for each time it was handed over. */
  lemma {:induction false} MemoryIsConserved(s: State, acts: seq<Action>, t: State)
    requires Init(s) && Exec(Step, s, acts) == Some(t)
    ensures Balance(t) == multiset(Pointers(PacketsOf(acts)))
  {
    if acts != [] {
      var init, a := acts[..|acts| - 1], acts[|acts| - 1];
      var m := Exec(Step, s, init).value;
      MemoryIsConserved(s, init, m);
      ReclaimIsSafe(s, acts, t);
      match a
      case Send(p) =>
        SendBalances(m, p, t);
        assert Pointers(PacketsOf(acts)) == Pointers(PacketsOf(init)) + [p.ptr];
      case Transmit =>
        assert t.heap.Keys == m.heap.Keys && t.freed == m.freed;
        assert PacketsOf(acts) == PacketsOf(init);
      case Interrupt(low, dw) =>
        InterruptBalances(m, low, dw);
        assert PacketsOf(acts) == PacketsOf(init);
    }
  }
}
