/** The transmit half of the interrupt handler on the card's descriptor memory, proved to
    compute the steps of the TxRing transition system. */
module TxCard {
  import opened Ring
  import opened TxRing

  class Card {
    const desc: array<Desc>
    const bufs: array<nat>
    var cur: nat
    var tail: nat
    var head: nat
    var last: nat
    var queue: seq<Packet>
    ghost var heap: map<nat, bool>
    ghost var fault: bool
    ghost var dequeued: seq<Packet>
    ghost var sent: seq<Packet>
    ghost var freed: seq<nat>

    ghost function View(): State
      reads this, desc, bufs
    {
      State(desc[..], bufs[..], cur, tail, head, last, queue, heap, fault, dequeued, sent, freed)
    }

    ghost predicate Valid()
      reads this, desc, bufs
    {
      Shape(View())
    }

    constructor ()
      ensures Valid() && Init(View()) && fresh(desc) && fresh(bufs)
    {
      desc := new Desc[TX_DESC](_ => Desc(Packet(0, 0), true));
      bufs := new nat[TX_DESC](_ => 0);
      cur, tail, head, last, queue := 0, 0, 0, 0, [];
      heap, fault, dequeued, sent, freed := map[], false, [], [], [];
    }

    method EnqueuePacket(p: Packet)
      requires Valid()
      modifies this`cur, this`tail, desc, bufs
      ensures Valid() && View() == TxRing.EnqueuePacket(old(View()), p)
    {
      desc[cur] := Desc(p, false);
      bufs[cur] := p.ptr;
      var nextTail := (cur + 1) % 8;
      tail := nextTail;
      cur := nextTail;
    }

    /** Free the buffer of slot i. */
    method Free(i: nat)
      requires Valid() && i < TX_DESC
      modifies this`last, this`heap, this`fault, this`freed, bufs
      ensures Valid() && View() == TxRing.Free(old(View()), i)
    {
      ghost var ptr := bufs[i];
      fault := fault || ptr == 0 || ptr !in heap || !heap[ptr];
      heap, freed := heap - {ptr}, freed + [ptr];
      bufs[i] := 0;
      last := (i + 1) % TX_DESC;
    }

    /** Move the packet at the front of the queue onto the ring. */
    method DequeueOne(ghost n: nat)
      requires Valid() && queue != [] && n > 0
      modifies this`cur, this`tail, this`queue, this`dequeued, desc, bufs
      ensures Valid() && Refill(View(), n - 1) == Refill(old(View()), n)
    {
      var packet := queue[0];
      dequeued := dequeued + [packet];
      queue := queue[1..];
      EnqueuePacket(packet);
    }

    method RefillRing()
      requires Valid()
      modifies this`cur, this`tail, this`queue, this`dequeued, desc, bufs
      ensures Valid() && View() == Refill(old(View()), TX_DESC)
    {
      var n: nat := TX_DESC;
      ghost var all := Refill(View(), TX_DESC);
      while n > 0 && queue != []
        invariant Valid() && Refill(View(), n) == all
      {
        DequeueOne(n);
        n := n - 1;
      }
    }

    method ReclaimSlot(i: nat, ghost curHead: nat)
      requires Valid() && i < TX_DESC && curHead < TX_DESC && i != curHead
      modifies this`last, this`heap, this`fault, this`freed, bufs
      ensures Valid() && Reclaim(View(), Next(TX_DESC, i), curHead) == Reclaim(old(View()), i, curHead)
    {
      if desc[i].done { Free(i); }
    }

    /** The cyclic scan, which reaches the head after fewer than 8 slots. */
    method ReclaimBuffers(curHead: nat) returns (ghost visited: nat)
      requires Valid() && curHead < TX_DESC
      modifies this`last, this`heap, this`fault, this`freed, bufs
      ensures Valid() && View() == Reclaim(old(View()), old(last), curHead)
      ensures visited == Dist(TX_DESC, old(last), curHead) < TX_DESC
    {
      var i: nat := last;
      visited := 0;
      while i != curHead
        invariant Valid() && i < TX_DESC
        invariant Reclaim(View(), i, curHead) == Reclaim(old(View()), old(last), curHead)
        invariant visited + Dist(TX_DESC, i, curHead) == Dist(TX_DESC, old(last), curHead)
        decreases Dist(TX_DESC, i, curHead)
      {
        ReclaimSlot(i, curHead);
        NextIsModulo(TX_DESC, i);
        i := (i + 1) % TX_DESC;
        visited := visited + 1;
      }
    }

    method HandleInterrupt(txdLow: bool, txdw: bool)
      requires Valid()
      modifies this, desc, bufs
      ensures Valid() && View() == Handle(old(View()), txdLow, txdw)
    {
      var curHead, curTail := head, tail;
      if curHead == curTail && (txdLow || txdw) { RefillRing(); }
      if txdw { ghost var visited := ReclaimBuffers(curHead); }
    }
  }
}
