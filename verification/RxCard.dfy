/** The receive half of the interrupt handler, on the card's descriptor memory. Every
    execution, with the card acting at any point in between, is a run of the RxRing
    transition system. */
module RxCard {
  import opened Ring
  import opened Runs
  import opened RxRing
  import Ethernet

  /** Each message is one frame, stored in a packet buffer. */
  ghost predicate PassedOn(passed: seq<Ethernet.Buffer>, frames: seq<Frame>) {
    |passed| == |frames| && forall k: nat :: k < |frames| ==> Ethernet.Stores(passed[k], frames[k])
  }

  class Card {
    const desc: array<Desc>
    const buf: array<Frame>
    var head: nat
    var tail: nat
    var curRx: nat
    /** The messages sent to the network handler, and the frames they were made of. */
    var passed: seq<Ethernet.Buffer>
    ghost var queue: seq<Frame>
    ghost var pc: Pc
    ghost var written: seq<Frame>

    ghost function View(): State
      reads this, desc, buf
    {
      State(desc[..], buf[..], head, tail, curRx, pc, queue, written)
    }

    ghost predicate Valid()
      reads this, desc, buf
    {
      Inv(View()) && PassedOn(passed, queue)
    }

    constructor ()
      ensures Init(View()) && Valid() && fresh(desc) && fresh(buf)
    {
      desc := new Desc[RX_DESC](_ => Desc(0, false));
      buf := new Frame[RX_DESC](_ => []);
      head, tail, curRx, passed, queue, pc, written := 0, RX_DESC - 1, 0, [], [], Idle, [];
    }

    ghost predicate Took(before: State, a: Action)
      reads this, desc, buf
    {
      Step(before, a) == Some(View())
    }

    /** `run` is the history so far, from state `start`. */
    ghost predicate Ran(start: State, run: seq<Action>)
      reads this, desc, buf
    {
      Exec(Step, start, run) == Some(View())
    }

    method Dma(frame: Frame, ghost start: State, ghost run: seq<Action>)
      requires Valid() && Ran(start, run) && head != tail
      modifies buf
      ensures Valid() && Took(old(View()), Action.Dma(frame)) && Ran(start, run + [Action.Dma(frame)]) && buf[head] == frame
    {
      buf[head] := frame;
      assert Took(old(View()), Action.Dma(frame));
      StepKeepsInv(old(View()), Action.Dma(frame));
      ExecSnoc(Step, start, run, Action.Dma(frame));
    }

    method WriteBack(length: nat, ghost start: State, ghost run: seq<Action>)
      requires Valid() && Ran(start, run) && head != tail && length <= |buf[head]|
      modifies this`head, this`written, desc
      ensures Valid() && Took(old(View()), Action.WriteBack(length)) && Ran(start, run + [Action.WriteBack(length)]) && |written| == |old(written)| + 1
    {
      written := written + [buf[head][..length]];
      desc[head] := Desc(length, true);
      NextIsModulo(RX_DESC, head);
      head := (head + 1) % RX_DESC;
      assert Took(old(View()), Action.WriteBack(length));
      StepKeepsInv(old(View()), Action.WriteBack(length));
      ExecSnoc(Step, start, run, Action.WriteBack(length));
    }

    /** The card receives some of the arriving frames, as long as it owns a descriptor. */
    method CardActs(arrivals: seq<Frame>, ghost start: State, ghost run: seq<Action>)
      returns (rest: seq<Frame>, ghost run': seq<Action>)
      requires Valid() && Ran(start, run)
      modifies this`head, this`written, desc, buf
      ensures Valid() && Ran(start, run')
      ensures |rest| + |written| == |arrivals| + |old(written)|
    {
      rest, run' := arrivals, run;
      var count: nat :| count <= |arrivals|;
      while count > 0 && head != tail
        invariant Valid() && Ran(start, run') && count <= |rest|
        invariant |rest| + |written| == |arrivals| + |old(written)|
      {
        Dma(rest[0], start, run');
        run' := run' + [Action.Dma(rest[0])];
        WriteBack(|rest[0]|, start, run');
        run' := run' + [Action.WriteBack(|rest[0]|)];
        rest, count := rest[1..], count - 1;
      }
    }

    /** Read the descriptor at `cur_rx`. */
    method Load(ghost start: State, ghost run: seq<Action>) returns (found: bool, length: nat)
      requires Valid() && Ran(start, run) && pc == Idle
      modifies this`pc
      ensures Valid() && Took(old(View()), Action.Load) && Ran(start, run + [Action.Load])
      ensures if found then pc == Loaded(length) else pc == Idle && queue == written
    {
      var d := desc[curRx];
      found, length := d.done, d.length;
      assert DoneIff(View(), Consumed(View()));
      if found { pc := Loaded(length); }
      assert Took(old(View()), Action.Load);
      StepKeepsInv(old(View()), Action.Load);
      ExecSnoc(Step, start, run, Action.Load);
    }

    /** Copy the frame out of the buffer and pass it on. */
    method Enqueue(length: nat, ghost start: State, ghost run: seq<Action>)
      requires Valid() && Ran(start, run) && pc == Loaded(length)
      modifies this`pc, this`queue, this`passed
      ensures Valid() && Took(old(View()), Action.Enqueue) && Ran(start, run + [Action.Enqueue]) && pc == Queued(length)
      ensures |queue| == |old(queue)| + 1
    {
      assert Holds(View(), Consumed(View()));
      var frame := buf[curRx][..length];
      var message := Ethernet.NewBuffer(frame);
      passed := passed + [message];
      queue := queue + [frame];
      pc := Queued(length);
      assert Took(old(View()), Action.Enqueue);
      StepKeepsInv(old(View()), Action.Enqueue);
      ExecSnoc(Step, start, run, Action.Enqueue);
    }

    /** Write the loaded descriptor back with its status cleared. */
    method Clear(length: nat, ghost start: State, ghost run: seq<Action>)
      requires Valid() && Ran(start, run) && pc == Queued(length)
      modifies this`pc, desc
      ensures Valid() && Took(old(View()), Action.Clear) && Ran(start, run + [Action.Clear]) && pc == Cleared
    {
      desc[curRx] := Desc(length, false);
      pc := Cleared;
      assert Took(old(View()), Action.Clear);
      StepKeepsInv(old(View()), Action.Clear);
      ExecSnoc(Step, start, run, Action.Clear);
    }

    method Advance(ghost start: State, ghost run: seq<Action>) returns (oldRx: nat)
      requires Valid() && Ran(start, run) && pc == Cleared
      modifies this`pc, this`curRx
      ensures Valid() && Took(old(View()), Action.Advance) && Ran(start, run + [Action.Advance]) && pc == Advanced(oldRx)
    {
      oldRx := curRx;
      NextIsModulo(RX_DESC, curRx);
      curRx := (curRx + 1) % RX_DESC;
      pc := Advanced(oldRx);
      assert Took(old(View()), Action.Advance);
      StepKeepsInv(old(View()), Action.Advance);
      ExecSnoc(Step, start, run, Action.Advance);
    }

    /** Hand the descriptor back to the card. */
    method WriteTail(oldRx: nat, ghost start: State, ghost run: seq<Action>)
      requires Valid() && Ran(start, run) && pc == Advanced(oldRx)
      modifies this`pc, this`tail
      ensures Valid() && Took(old(View()), Action.WriteTail) && Ran(start, run + [Action.WriteTail]) && pc == Idle
    {
      tail := oldRx;
      pc := Idle;
      assert Took(old(View()), Action.WriteTail);
      StepKeepsInv(old(View()), Action.WriteTail);
      ExecSnoc(Step, start, run, Action.WriteTail);
    }

    /** The receive loop. The card may act between any two accesses; `arrivals` are the frames
        it can still receive. The loop ends when it has read a descriptor whose status is clear,
        and then everything the card wrote has been passed on. */
    method HandleInterrupt(rxt: bool, arrivals: seq<Frame>) returns (rest: seq<Frame>, ghost run: seq<Action>)
      requires Valid() && pc == Idle
      modifies this, desc, buf
      ensures Valid() && pc == Idle && Exec(Step, old(View()), run) == Some(View())
      ensures rxt ==> queue == written && PassedOn(passed, written)
    {
      rest, run := arrivals, [];
      ghost var start := View();
      if rxt {
        while true
          invariant Valid() && pc == Idle && Ran(start, run)
          decreases |rest| + |written| - |queue|
        {
          rest, run := CardActs(rest, start, run);
          var found, length := Load(start, run);
          run := run + [Action.Load];
          if !found { break; }
          rest, run := Receive(length, rest, start, run);
        }
      }
    }

    /** The loop body after a descriptor with its status set was read. */
    method Receive(length: nat, arrivals: seq<Frame>, ghost start: State, ghost run: seq<Action>)
      returns (rest: seq<Frame>, ghost run': seq<Action>)
      requires Valid() && pc == Loaded(length) && Ran(start, run)
      modifies this, desc, buf
      ensures Valid() && pc == Idle && Ran(start, run')
      ensures |rest| + |written| == |arrivals| + |old(written)| && |queue| == |old(queue)| + 1
    {
      rest, run' := PassOn(length, arrivals, start, run);
      rest, run' := HandBack(rest, start, run');
    }

    /** Copy the frame and clear the descriptor. */
    method PassOn(length: nat, arrivals: seq<Frame>, ghost start: State, ghost run: seq<Action>)
      returns (rest: seq<Frame>, ghost run': seq<Action>)
      requires Valid() && pc == Loaded(length) && Ran(start, run)
      modifies this`pc, this`queue, this`passed, this`head, this`written, desc, buf
      ensures Valid() && pc == Cleared && Ran(start, run')
      ensures |rest| + |written| == |arrivals| + |old(written)| && |queue| == |old(queue)| + 1
    {
      rest, run' := CardActs(arrivals, start, run);
      Enqueue(length, start, run');
      rest, run' := CardActs(rest, start, run' + [Action.Enqueue]);
      Clear(length, start, run');
      run' := run' + [Action.Clear];
    }

    /** Advance and write the tail register. */
    method HandBack(arrivals: seq<Frame>, ghost start: State, ghost run: seq<Action>)
      returns (rest: seq<Frame>, ghost run': seq<Action>)
      requires Valid() && pc == Cleared && Ran(start, run)
      modifies this`pc, this`curRx, this`tail, this`head, this`written, desc, buf
      ensures Valid() && pc == Idle && Ran(start, run')
      ensures |rest| + |written| == |arrivals| + |old(written)|
    {
      rest, run' := CardActs(arrivals, start, run);
      var oldRx := Advance(start, run');
      rest, run' := CardActs(rest, start, run' + [Action.Advance]);
      WriteTail(oldRx, start, run');
      run' := run' + [Action.WriteTail];
    }
  }
}
