/** The ping future as an object: polled in place by its task, its flag set by the handler. */
module PingFutures {
  import opened Bytes
  import opened Runs
  import opened Ping

  /** The flag a future shares with the handler. */
  class Flag {
    var stored: bool

    constructor ()
      ensures !stored
    {
      stored := false;
    }
  }

  class PingFuture {
    var ip: Option<Ip>
    var mac: Option<Mac>
    var send: bool
    const returned: Flag
    /** The task that awaits the future, and the number that names its flag. */
    const task: nat
    const id: nat
    ghost var ready: bool

    /** The addresses are there until the request is sent, so taking them cannot fail. */
    ghost predicate Valid()
      reads this
    {
      !send ==> ip.Some? && mac.Some?
    }

    ghost function View(): Future
      reads this, returned
    {
      Future(ip, mac, send, returned.stored, task, ready)
    }

    constructor (ip: Ip, mac: Mac, task: nat, id: nat)
      ensures Valid() && fresh(returned) && this.id == id
      ensures View() == Future(Some(ip), Some(mac), false, false, task, false)
    {
      this.ip, this.mac, this.task, this.id, send, ready := Some(ip), Some(mac), task, id, false, false;
      returned := new Flag();
    }

    /** A poll takes the step of the composed system, without a panic: Ready exactly if the flag
        was set, and otherwise a request goes out on the first poll only. */
    method Poll(ghost s: State, queue: seq<Message>) returns (done: bool, queue': seq<Message>)
      requires Valid() && id < |s.futures| && s.futures[id] == View() && queue == s.messages
      modifies this
      ensures Valid() && done == returned.stored
      ensures var s' := PollFuture(s, id);
              s'.panicked == s.panicked && |s'.futures| == |s.futures| && s'.futures[id] == View() && queue' == s'.messages
      ensures queue' == queue + if done || old(send) then [] else [Request(old(ip).value, old(mac).value, Binding(task, id))]
    {
      if returned.stored {
        ready := true;
        return true, queue;
      }
      queue' := queue;
      if !send {
        var m, i := mac.value, ip.value;
        mac, ip := None, None;
        queue' := queue + [Request(i, m, Binding(task, id))];
        send := true;
      }
      return false, queue';
    }
  }
}
