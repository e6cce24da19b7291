/** The receive ring of the E1000 card: 32 descriptors shared by the interrupt handler and
    the card. The card owns the slots in the cyclic range [head, tail) and may act between
    any two memory accesses of the handler. */
module RxRing {
  import opened Bytes
  import opened Ring
  import opened Runs

  const RX_DESC: nat := 32

  type Frame = seq<byte>

  /** A receive descriptor: the length written back by the card and bit 0 of its status. */
  datatype Desc = Desc(length: nat, done: bool)

  /** Where the handler is in its receive loop. `length` is the one in the descriptor it
      loaded; `prev` is the value of `cur_rx` before it was advanced. */
  datatype Pc = Idle | Loaded(length: nat) | Queued(length: nat) | Cleared | Advanced(prev: nat)

  /** `queue` is what the handler passed on, `written` what the card put on the ring. */
  datatype State = State(desc: seq<Desc>, buf: seq<Frame>, head: nat, tail: nat, curRx: nat, pc: Pc,
                         queue: seq<Frame>, written: seq<Frame>)

  /** The card transfers data into the buffer at its head, and some time later writes the
      descriptor back and moves the head on. The other five are the handler's accesses. */
  datatype Action = Dma(data: Frame) | WriteBack(length: nat) | Load | Enqueue | Clear | Advance | WriteTail

  ghost predicate Shape(s: State) {
    |s.desc| == RX_DESC && |s.buf| == RX_DESC && s.head < RX_DESC && s.tail < RX_DESC && s.curRx < RX_DESC
  }

  /** The ring as `init` programs it: head 0, tail 31, every status clear. */
  ghost predicate Init(s: State) {
    && Shape(s) && s.head == 0 && s.tail == RX_DESC - 1 && s.curRx == 0 && s.pc == Idle
    && s.queue == [] && s.written == [] && forall i: nat :: i < RX_DESC ==> !s.desc[i].done
  }

  ghost function Step(s: State, a: Action): Option<State> {
    if !Shape(s) then None else
    match a
    case Dma(data) =>
      if s.head == s.tail then None else Some(s.(buf := s.buf[s.head := data]))
    case WriteBack(n) =>
      if s.head == s.tail || n > |s.buf[s.head]| then None
      else Some(s.(desc := s.desc[s.head := Desc(n, true)], head := Next(RX_DESC, s.head),
                   written := s.written + [s.buf[s.head][..n]]))
    case Load =>
      if s.pc != Idle then None
      else Some(if s.desc[s.curRx].done then s.(pc := Loaded(s.desc[s.curRx].length)) else s)
    case Enqueue =>
      if !s.pc.Loaded? || s.pc.length > |s.buf[s.curRx]| then None
      else Some(s.(queue := s.queue + [s.buf[s.curRx][..s.pc.length]], pc := Queued(s.pc.length)))
    case Clear =>
      if !s.pc.Queued? then None
      else Some(s.(desc := s.desc[s.curRx := Desc(s.pc.length, false)], pc := Cleared))
    case Advance =>
      if s.pc != Cleared then None
      else Some(s.(curRx := Next(RX_DESC, s.curRx), pc := Advanced(s.curRx)))
    case WriteTail =>
      if !s.pc.Advanced? || s.pc.prev >= RX_DESC then None
      else Some(s.(tail := s.pc.prev, pc := Idle))
  }

  /** The slot at `cur_rx` has been passed on, but `cur_rx` has not moved yet. */
  predicate Claimed(s: State) {
    s.pc.Queued? || s.pc.Cleared?
  }

  /** Number of descriptors the handler is done with. */
  ghost function Consumed(s: State): int {
    |s.queue| - if Claimed(s) then 1 else 0
  }

  /** The frames in the slots of the cyclic range [cur_rx, head), read off the descriptors
      and buffers. */
  ghost function RingFrames(s: State): seq<Frame>
    requires Shape(s)
  {
    seq(Dist(RX_DESC, s.curRx, s.head), i requires 0 <= i => SlotFrame(s, Slot(RX_DESC, s.curRx + i)))
  }

  /** Those of them that were not passed on yet. */
  ghost function Unread(s: State): seq<Frame>
    requires Shape(s)
  {
    var all := RingFrames(s);
    if Claimed(s) && all != [] then all[1..] else all
  }

  ghost function SlotFrame(s: State, i: nat): Frame
    requires Shape(s) && i < RX_DESC
  {
    if s.desc[i].length <= |s.buf[i]| then s.buf[i][..s.desc[i].length] else s.buf[i]
  }

  /** The ring invariant. Descriptor number k lives in slot k mod 32; the card has filled the
      descriptors below |written| and may fill those below the count the tail stands for. */
  ghost predicate Inv(s: State) {
    && Counts(s)
    && (forall k: nat :: Consumed(s) <= k < |s.written| ==> Holds(s, k))
    && (forall k: nat :: Consumed(s) <= k < Consumed(s) + RX_DESC ==> DoneIff(s, k))
  }

  /** The registers agree with the numbers of frames passed on and written. */
  ghost predicate Counts(s: State) {
    var a, w := Consumed(s), |s.written|;
    && Shape(s)
    && 0 <= a && |s.queue| <= w <= Limit(s)
    && s.queue == s.written[..|s.queue|]
    && s.curRx == Slot(RX_DESC, a) && s.head == Slot(RX_DESC, w) && s.tail == Slot(RX_DESC, Limit(s))
    && (s.pc.Advanced? ==> a >= 1 && s.pc.prev == Slot(RX_DESC, a - 1))
    && (s.pc.Loaded? ==> a < w && s.pc.length == |s.written[a]|)
    && (s.pc.Queued? ==> s.pc.length == |s.written[a]|)
  }

  ghost function Limit(s: State): int {
    Consumed(s) + RX_DESC - if s.pc.Advanced? then 2 else 1
  }

  /** The slot of descriptor k holds the k-th frame written. */
  ghost predicate Holds(s: State, k: nat)
    requires Shape(s) && k < |s.written|
  {
    var i, f := Slot(RX_DESC, k), s.written[k];
    s.desc[i].length == |f| <= |s.buf[i]| && s.buf[i][..|f|] == f
  }

  /** The status bit of descriptor k is set exactly while its frame waits to be read. */
  ghost predicate DoneIff(s: State, k: nat)
    requires Shape(s)
  {
    s.desc[Slot(RX_DESC, k)].done <==> k < |s.written| && !(s.pc.Cleared? && k == Consumed(s))
  }

  lemma DmaKeepsInv(s: State, data: Frame)
    requires Inv(s) && Step(s, Dma(data)).Some?
    ensures Inv(Step(s, Dma(data)).value)
  {
    var s' := Step(s, Dma(data)).value;
    var c, w := Consumed(s), |s.written|;
    forall k: nat | c <= k < w ensures Holds(s', k) { assert Holds(s, k); SlotsDiffer(RX_DESC, k, w); }
    forall k: nat | c <= k < c + RX_DESC ensures DoneIff(s', k) { assert DoneIff(s, k); }
  }

  lemma WriteBackHolds(s: State, n: nat, k: nat)
    requires Inv(s) && Step(s, WriteBack(n)).Some? && Consumed(s) <= k <= |s.written|
    ensures Holds(Step(s, WriteBack(n)).value, k)
  {
    if k < |s.written| {
      assert Holds(s, k);
      SlotsDiffer(RX_DESC, k, |s.written|);
    }
  }

  lemma WriteBackDone(s: State, n: nat, k: nat)
    requires Inv(s) && Step(s, WriteBack(n)).Some? && Consumed(s) <= k < Consumed(s) + RX_DESC
    ensures DoneIff(Step(s, WriteBack(n)).value, k)
  {
    var w := |s.written|;
    assert DoneIff(s, k);
    if k < w { SlotsDiffer(RX_DESC, k, w); } else if w < k { SlotsDiffer(RX_DESC, w, k); }
  }

  lemma WriteBackKeepsInv(s: State, n: nat)
    requires Inv(s) && Step(s, WriteBack(n)).Some?
    ensures Inv(Step(s, WriteBack(n)).value)
  {
    var s' := Step(s, WriteBack(n)).value;
    SlotNext(RX_DESC, |s.written|);
    assert Counts(s');
    forall k: nat | Consumed(s) <= k < |s'.written| ensures Holds(s', k) { WriteBackHolds(s, n, k); }
    forall k: nat | Consumed(s) <= k < Consumed(s) + RX_DESC ensures DoneIff(s', k) { WriteBackDone(s, n, k); }
  }

  /** The handler's steps that change no descriptor and not `cur_rx`. */
  lemma ReadingKeepsInv(s: State, a: Action)
    requires Inv(s) && Step(s, a).Some? && (a.Load? || a.Enqueue? || a.WriteTail?)
    ensures Inv(Step(s, a).value)
  {
    var s' := Step(s, a).value;
    var c, w := Consumed(s), |s.written|;
    assert DoneIff(s, c);
    if c < w { assert Holds(s, c); }
    if a.WriteTail? { SlotNext(RX_DESC, c - 1); assert Slot(RX_DESC, Limit(s')) == Slot(RX_DESC, c - 1); }
    assert Counts(s');
    forall k: nat | c <= k < w ensures Holds(s', k) { assert Holds(s, k); }
    forall k: nat | c <= k < c + RX_DESC ensures DoneIff(s', k) { assert DoneIff(s, k); }
  }

  lemma ClearKeepsInv(s: State)
    requires Inv(s) && Step(s, Clear).Some?
    ensures Inv(Step(s, Clear).value)
  {
    var s' := Step(s, Clear).value;
    var c, w := Consumed(s), |s.written|;
    assert Counts(s');
    forall k: nat | c <= k < w ensures Holds(s', k) {
      assert Holds(s, k);
      if c < k { SlotsDiffer(RX_DESC, c, k); }
    }
    forall k: nat | c <= k < c + RX_DESC ensures DoneIff(s', k) {
      assert DoneIff(s, k);
      if c < k { SlotsDiffer(RX_DESC, c, k); }
    }
  }

  lemma AdvanceKeepsInv(s: State)
    requires Inv(s) && Step(s, Advance).Some?
    ensures Inv(Step(s, Advance).value)
  {
    var s' := Step(s, Advance).value;
    var c, w := Consumed(s), |s.written|;
    SlotNext(RX_DESC, c);
    assert Counts(s');
    forall k: nat | c < k < w ensures Holds(s', k) { assert Holds(s, k); }
    assert DoneIff(s, c);
    forall k: nat | c < k <= c + RX_DESC ensures DoneIff(s', k) {
      if k == c + RX_DESC { assert Slot(RX_DESC, k) == Slot(RX_DESC, c); } else { assert DoneIff(s, k); }
    }
  }

  lemma StepKeepsInv(s: State, a: Action)
    requires Inv(s) && Step(s, a).Some?
    ensures Inv(Step(s, a).value)
  {
    match a
    case Dma(data) => DmaKeepsInv(s, data);
    case WriteBack(n) => WriteBackKeepsInv(s, n);
    case Clear => ClearKeepsInv(s);
    case Advance => AdvanceKeepsInv(s);
    case _ => ReadingKeepsInv(s, a);
  }

  lemma Reachable(s: State, acts: seq<Action>)
    requires Init(s) && Exec(Step, s, acts).Some?
    ensures Inv(Exec(Step, s, acts).value)
  {
    forall m, a | Inv(m) && Step(m, a).Some? ensures Inv(Step(m, a).value) { StepKeepsInv(m, a); }
    Invariance(Step, Inv, s, acts);
  }

  lemma SlotIsWritten(s: State, k: nat)
    requires Inv(s) && Consumed(s) <= k < |s.written|
    ensures SlotFrame(s, Slot(RX_DESC, s.curRx + (k - Consumed(s)))) == s.written[k]
  {
    assert Holds(s, k);
    SlotPlus(RX_DESC, Consumed(s), k - Consumed(s));
  }

  lemma RingIsRest(s: State)
    requires Inv(s)
    ensures RingFrames(s) == s.written[Consumed(s)..]
  {
    var a, w := Consumed(s), |s.written|;
    DistIsCount(RX_DESC, a, w);
    forall i: nat | i < w - a ensures RingFrames(s)[i] == s.written[a + i] { SlotIsWritten(s, a + i); }
  }

  lemma UnreadIsRest(s: State)
    requires Inv(s)
    ensures s.queue + Unread(s) == s.written
  {
    RingIsRest(s);
    assert Unread(s) == s.written[|s.queue|..];
  }

  /** Exactly-once, in-order delivery for every interleaving of card and handler: what was
      passed on followed by what is still unread on the ring is what the card wrote. */
  lemma ExactlyOnceInOrder(s: State, acts: seq<Action>, t: State)
    requires Init(s) && Exec(Step, s, acts) == Some(t)
    ensures Shape(t) && t.queue + Unread(t) == t.written
  {
    Reachable(s, acts);
    UnreadIsRest(t);
  }

  /** A slot the card may write stands for a descriptor number that was not written yet. */
  lemma CardSlotIsFree(t: State, i: nat)
    requires Inv(t) && i < RX_DESC && Within(RX_DESC, t.head, t.tail, i)
    ensures !Within(RX_DESC, t.curRx, t.head, i) && !t.desc[i].done
    ensures t.pc.Loaded? || t.pc.Queued? || t.pc.Cleared? ==> i != t.curRx
  {
    var a, w := Consumed(t), |t.written|;
    var d := Dist(RX_DESC, t.head, i);
    DistIsCount(RX_DESC, w, Limit(t));
    DistIsCount(RX_DESC, a, w);
    SlotPlus(RX_DESC, w, d);
    assert Slot(RX_DESC, w + d) == i;
    DistIsCount(RX_DESC, a, w + d);
    assert DoneIff(t, w + d);
  }

  /** No slot the card may still write, in any reachable state, is unread, has its status bit
      set, or is the one the handler is working on. */
  lemma CardNeverOverwrites(s: State, acts: seq<Action>, t: State, i: nat)
    requires Init(s) && Exec(Step, s, acts) == Some(t) && i < RX_DESC
    ensures Shape(t)
    ensures Within(RX_DESC, t.head, t.tail, i) ==>
              && !Within(RX_DESC, t.curRx, t.head, i) && !t.desc[i].done
              && (t.pc.Loaded? || t.pc.Queued? || t.pc.Cleared? ==> i != t.curRx)
  {
    Reachable(s, acts);
    if Within(RX_DESC, t.head, t.tail, i) { CardSlotIsFree(t, i); }
  }

  /** Between two rounds of the loop no descriptor is lost: the slots the card may write and the
      unread ones are 31. */
  lemma SlotsAreConserved(s: State, acts: seq<Action>, t: State)
    requires Init(s) && Exec(Step, s, acts) == Some(t) && t.pc == Idle
    ensures Shape(t) && Dist(RX_DESC, t.head, t.tail) + |Unread(t)| == 31
  {
    Reachable(s, acts);
    RingIsRest(t);
    DistIsCount(RX_DESC, |t.written|, Limit(t));
  }
}
