/** Address resolution requests: `get_mac` calls, each with its own reply queue of capacity 2,
    and the network handler's table of pending requests. */
module Arp {
  import opened Bytes
  import opened Runs

  const CAPACITY: nat := 2

  /** One `get_mac` call: the values ever put on its reply queue, how many were taken off,
      whether the caller dropped it, and what it returned. */
  datatype Call = Call(ip: Ip, values: seq<Mac>, taken: nat, dropped: bool, result: Option<Option<Mac>>)

  datatype Message = Request(ip: Ip, q: nat) | Response(source: Ip, mac: Mac)

  /** `responses` is the history of responses handled. */
  datatype State = State(calls: seq<Call>, messages: seq<Message>, table: map<Ip, nat>, ips: map<Ip, Mac>,
                         panicked: bool, responses: seq<(Ip, Mac)>)

  const INIT := State([], [], map[], map[], false, [])

  datatype Action = GetMac(ip: Ip) | Arrive(source: Ip, mac: Mac) | HandleNext | Receive(q: nat) | Drop(q: nat)

  /** Can the sending half of reply queue q still be used? */
  ghost predicate SenderAlive(s: State, q: nat) {
    || (exists i: nat :: i < |s.messages| && s.messages[i].Request? && s.messages[i].q == q)
    || (exists ip :: ip in s.table && s.table[ip] == q)
  }

  /** `try_enqueue(mac).expect("")` on the reply queue of a call. */
  function Reply(s: State, q: nat, mac: Mac): State
    requires q < |s.calls|
  {
    var c := s.calls[q];
    if c.dropped || |c.values| >= c.taken + CAPACITY then s.(panicked := true)
    else s.(calls := s.calls[q := c.(values := c.values + [mac])])
  }

  function Handle(s: State, m: Message): State {
    match m
    case Request(ip, q) => s.(table := s.table[ip := q])
    case Response(ip, mac) =>
      var s1 := s.(ips := s.ips[ip := mac], responses := s.responses + [(ip, mac)]);
      if ip !in s.table || s.table[ip] >= |s.calls| then s1
      else Reply(s1.(table := s1.table - {ip}), s.table[ip], mac)
  }

  ghost function Step(s: State, a: Action): Option<State> {
    if s.panicked then None else
    match a
    case GetMac(ip) =>
      Some(s.(calls := s.calls + [Call(ip, [], 0, false, None)], messages := s.messages + [Request(ip, |s.calls|)]))
    case Arrive(ip, mac) => Some(s.(messages := s.messages + [Response(ip, mac)]))
    case HandleNext =>
      if s.messages == [] then None else Some(Handle(s.(messages := s.messages[1..]), s.messages[0]))
    case Receive(q) =>
      if q >= |s.calls| || s.calls[q].dropped || s.calls[q].result.Some? then None
      else
        var c := s.calls[q];
        if c.taken < |c.values| then Some(s.(calls := s.calls[q := c.(taken := c.taken + 1, result := Some(Some(c.values[c.taken])))]))
        else if !SenderAlive(s, q) then Some(s.(calls := s.calls[q := c.(result := Some(None))]))
        else None
    case Drop(q) =>
      if q >= |s.calls| || s.calls[q].result.Some? then None
      else Some(s.(calls := s.calls[q := s.calls[q].(dropped := true)]))
  }

  /** A call whose sender is still around has received nothing, and there is one such sender. */
  ghost predicate Pending(s: State) {
    && (forall i: nat :: i < |s.messages| && s.messages[i].Request? ==> Fresh(s.calls, s.messages[i].q, s.messages[i].ip))
    && (forall ip :: ip in s.table ==> Fresh(s.calls, s.table[ip], ip))
    && (forall i: nat, j: nat :: i < j < |s.messages| && s.messages[i].Request? && s.messages[j].Request? ==>
          s.messages[i].q != s.messages[j].q)
    && (forall i: nat, ip :: i < |s.messages| && s.messages[i].Request? && ip in s.table ==> s.messages[i].q != s.table[ip])
    && (forall ip, ip' :: ip in s.table && ip' in s.table && s.table[ip] == s.table[ip'] ==> ip == ip')
  }

  ghost predicate Fresh(calls: seq<Call>, q: nat, ip: Ip) {
    q < |calls| && calls[q].ip == ip && calls[q].values == [] && calls[q].result.None?
  }

  /** What a call received, and what it returned, comes from a response from its address. */
  ghost predicate Sourced(c: Call, responses: seq<(Ip, Mac)>) {
    && |c.values| <= 1 && c.taken <= |c.values|
    && (c.values != [] ==> (c.ip, c.values[0]) in responses)
    && (c.taken > 0 ==> c.result.Some?)
    && (c.result.Some? && c.result.value.Some? ==> c.values != [] && c.result.value.value == c.values[0])
  }

  /** The address map after a sequence of responses: the last one from each address counts. */
  function Learned(responses: seq<(Ip, Mac)>): map<Ip, Mac> {
    if responses == [] then map[]
    else Learned(responses[..|responses| - 1])[responses[|responses| - 1].0 := responses[|responses| - 1].1]
  }

  ghost predicate Inv(s: State) {
    && (!s.panicked ==> Pending(s))
    && forall q: nat :: q < |s.calls| ==> Sourced(s.calls[q], s.responses)
  }

  /** Taking a request keeps the senders apart. */
  lemma RequestPends(s: State)
    requires Pending(s) && s.messages != [] && s.messages[0].Request?
    ensures Pending(Handle(s.(messages := s.messages[1..]), s.messages[0]))
  {
    var s' := Handle(s.(messages := s.messages[1..]), s.messages[0]);
    forall i: nat | i < |s'.messages| ensures s'.messages[i] == s.messages[i + 1] {}
  }

  lemma ResponsePends(s: State)
    requires Pending(s) && s.messages != [] && s.messages[0].Response? && !s.panicked
    ensures var s' := Handle(s.(messages := s.messages[1..]), s.messages[0]); !s'.panicked ==> Pending(s')
  {
    var s' := Handle(s.(messages := s.messages[1..]), s.messages[0]);
    forall i: nat | i < |s'.messages| ensures s'.messages[i] == s.messages[i + 1] {}
  }

  lemma HandleSources(s: State)
    requires Pending(s) && s.messages != []
    requires forall q: nat :: q < |s.calls| ==> Sourced(s.calls[q], s.responses)
    ensures var s' := Handle(s.(messages := s.messages[1..]), s.messages[0]);
            forall q: nat :: q < |s'.calls| ==> Sourced(s'.calls[q], s'.responses)
  {
    var s' := Handle(s.(messages := s.messages[1..]), s.messages[0]);
    if s.messages[0].Response? {
      assert s'.responses[|s.responses|] == (s.messages[0].source, s.messages[0].mac);
      forall x | x in s.responses ensures x in s'.responses {}
    }
  }

  lemma HandleKeeps(s: State)
    requires Inv(s) && Step(s, HandleNext).Some?
    ensures Inv(Step(s, HandleNext).value)
  {
    HandleSources(s);
    if s.messages[0].Request? { RequestPends(s); } else { ResponsePends(s); }
  }

  lemma ReceiveKeeps(s: State, q: nat)
    requires Inv(s) && Step(s, Receive(q)).Some?
    ensures Inv(Step(s, Receive(q)).value)
  {
    if s.calls[q].taken < |s.calls[q].values| {
      assert Sourced(s.calls[q], s.responses);
    } else {
      assert forall i: nat :: i < |s.messages| && s.messages[i].Request? ==> s.messages[i].q != q;
      assert forall ip :: ip in s.table ==> s.table[ip] != q;
    }
  }

  lemma GetMacKeeps(s: State, ip: Ip)
    requires Inv(s) && Step(s, GetMac(ip)).Some?
    ensures Inv(Step(s, GetMac(ip)).value)
  {}

  lemma ArriveKeeps(s: State, ip: Ip, mac: Mac)
    requires Inv(s) && Step(s, Arrive(ip, mac)).Some?
    ensures Inv(Step(s, Arrive(ip, mac)).value)
  {}

  lemma DropKeeps(s: State, q: nat)
    requires Inv(s) && Step(s, Drop(q)).Some?
    ensures Inv(Step(s, Drop(q)).value)
  {}

  lemma InvKept(s: State, a: Action)
    requires Inv(s) && Step(s, a).Some?
    ensures Inv(Step(s, a).value)
  {
    match a
    case HandleNext => HandleKeeps(s);
    case Receive(q) => ReceiveKeeps(s, q);
    case GetMac(ip) => GetMacKeeps(s, ip);
    case Arrive(ip, mac) => ArriveKeeps(s, ip, mac);
    case Drop(q) => DropKeeps(s, q);
  }

  lemma Reachable(acts: seq<Action>)
    requires Exec(Step, INIT, acts).Some?
    ensures Inv(Exec(Step, INIT, acts).value)
  {
    forall m, a | Inv(m) && Step(m, a).Some? ensures Inv(Step(m, a).value) { InvKept(m, a); }
    Invariance(Step, Inv, INIT, acts);
  }

  lemma HandleLearns(s: State, m: Message)
    requires s.ips == Learned(s.responses)
    ensures Handle(s, m).ips == Learned(Handle(s, m).responses)
  {
    if m.Response? {
      var more := s.responses + [(m.source, m.mac)];
      assert more[..|s.responses|] == s.responses;
      assert Learned(more) == s.ips[m.source := m.mac];
    }
  }

  lemma LearnedKept(s: State, a: Action)
    requires s.ips == Learned(s.responses) && Step(s, a).Some?
    ensures Step(s, a).value.ips == Learned(Step(s, a).value.responses)
  {
    if a.HandleNext? { HandleLearns(s.(messages := s.messages[1..]), s.messages[0]); }
  }

  lemma {:induction false} ReachableLearned(acts: seq<Action>, t: State)
    requires Exec(Step, INIT, acts) == Some(t)
    ensures t.ips == Learned(t.responses)
  {
    if acts != [] {
      var m := Exec(Step, INIT, acts[..|acts| - 1]).value;
      ReachableLearned(acts[..|acts| - 1], m);
      LearnedKept(m, acts[|acts| - 1]);
    }
  }

  /** In every run each reply queue has received at most one value, so its capacity is never
      exceeded, and a MAC that `get_mac` returned is one that a handled
      response from the requested address carried and put in the address map. */
  lemma AtMostOneReply(acts: seq<Action>, t: State, q: nat)
    requires Exec(Step, INIT, acts) == Some(t) && q < |t.calls|
    ensures |t.calls[q].values| <= 1 < CAPACITY
    ensures t.calls[q].result.Some? && t.calls[q].result.value.Some? ==>
              (t.calls[q].ip, t.calls[q].result.value.value) in t.responses
    ensures t.ips == Learned(t.responses)
  {
    Reachable(acts);
    ReachableLearned(acts, t);
  }

  /** The step that answers a call stores the same MAC for the same address, and answers no
      other call. */
  lemma StoredWhenAnswered(acts: seq<Action>, s: State, q: nat)
    requires Exec(Step, INIT, acts) == Some(s) && Step(s, HandleNext).Some? && q < |s.calls|
    requires var s' := Step(s, HandleNext).value; q < |s'.calls| ==> s'.calls[q] != s.calls[q]
    ensures var s' := Step(s, HandleNext).value;
            && s.messages[0].Response? && s.messages[0].source == s.calls[q].ip
            && s'.calls[q].values == [s.messages[0].mac] && s'.ips == s.ips[s.calls[q].ip := s.messages[0].mac]
            && forall p: nat :: p < |s.calls| && p != q ==> s'.calls[p] == s.calls[p]
  {
    Reachable(acts);
  }

  /** The handler panics on a response exactly when the call waiting for that address was
      dropped; never because a reply queue is full. */
  lemma PanicsIffDropped(acts: seq<Action>, s: State)
    requires Exec(Step, INIT, acts) == Some(s) && !s.panicked && s.messages != []
    ensures var m := s.messages[0];
            Step(s, HandleNext).value.panicked <==>
              m.Response? && m.source in s.table && s.table[m.source] < |s.calls| && s.calls[s.table[m.source]].dropped
  {
    Reachable(acts);
  }

  /** A caller that asks, is registered and goes away before the response arrives. */
  lemma DroppedCallPanics(ip: Ip, mac: Mac) returns (t: State)
    ensures Exec(Step, INIT, [GetMac(ip), HandleNext, Drop(0), Arrive(ip, mac), HandleNext]) == Some(t) && t.panicked
  {
    var s1 := Step(INIT, GetMac(ip)).value;
    var s2 := Step(s1, HandleNext).value;
    var s3 := Step(s2, Drop(0)).value;
    var s4 := Step(s3, Arrive(ip, mac)).value;
    t := Step(s4, HandleNext).value;
    ExecThen(Step, INIT, [], INIT, GetMac(ip), s1);
    var acts := [] + [GetMac(ip)];
    ExecThen(Step, INIT, acts, s1, HandleNext, s2);
    acts := acts + [HandleNext];
    ExecThen(Step, INIT, acts, s2, Drop(0), s3);
    acts := acts + [Drop(0)];
    ExecThen(Step, INIT, acts, s3, Arrive(ip, mac), s4);
    acts := acts + [Arrive(ip, mac)];
    ExecThen(Step, INIT, acts, s4, HandleNext, t);
    assert acts + [HandleNext] == [GetMac(ip), HandleNext, Drop(0), Arrive(ip, mac), HandleNext];
  }

  /** A response with these addresses arrived. */
  ghost predicate Arrived(acts: seq<Action>, ip: Ip, mac: Mac) {
    exists i: nat :: i < |acts| && acts[i] == Arrive(ip, mac)
  }

  lemma ArrivedMore(acts: seq<Action>, a: Action, ip: Ip, mac: Mac)
    requires Arrived(acts, ip, mac) || a == Arrive(ip, mac)
    ensures Arrived(acts + [a], ip, mac)
  {
    if a == Arrive(ip, mac) {
      assert (acts + [a])[|acts|] == a;
    } else {
      var i: nat :| i < |acts| && acts[i] == Arrive(ip, mac);
      assert (acts + [a])[i] == acts[i];
    }
  }

  ghost predicate AllArrived(acts: seq<Action>, t: State) {
    && (forall i: nat :: i < |t.messages| && t.messages[i].Response? ==> Arrived(acts, t.messages[i].source, t.messages[i].mac))
    && (forall i: nat :: i < |t.responses| ==> Arrived(acts, t.responses[i].0, t.responses[i].1))
  }

  lemma ArrivedStep(acts: seq<Action>, s: State, a: Action, t: State)
    requires AllArrived(acts, s) && Step(s, a) == Some(t)
    ensures AllArrived(acts + [a], t)
  {
    forall i: nat | i < |t.messages| && t.messages[i].Response? ensures Arrived(acts + [a], t.messages[i].source, t.messages[i].mac) {
      if a.HandleNext? { assert t.messages[i] == s.messages[i + 1]; }
      ArrivedMore(acts, a, t.messages[i].source, t.messages[i].mac);
    }
    forall i: nat | i < |t.responses| ensures Arrived(acts + [a], t.responses[i].0, t.responses[i].1) {
      ArrivedMore(acts, a, t.responses[i].0, t.responses[i].1);
    }
  }

  /** Every response handled has arrived. */
  lemma {:induction false} ResponsesArrived(acts: seq<Action>, t: State)
    requires Exec(Step, INIT, acts) == Some(t)
    ensures AllArrived(acts, t)
  {
    if acts != [] {
      var init := acts[..|acts| - 1];
      var m := Exec(Step, INIT, init).value;
      ResponsesArrived(init, m);
      ArrivedStep(init, m, acts[|acts| - 1], t);
      assert acts == init + [acts[|acts| - 1]];
    }
  }

  /** The address map holds only what responses carried. */
  lemma {:induction false} LearnedFrom(responses: seq<(Ip, Mac)>, ip: Ip)
    requires ip in Learned(responses)
    ensures (ip, Learned(responses)[ip]) in responses
  {
    if responses[|responses| - 1].0 != ip { LearnedFrom(responses[..|responses| - 1], ip); }
  }

  // ---- What a caller gets ----

  /** The addresses asked for in a run, one for each call. */
  function AskedBy(acts: seq<Action>): seq<Ip> {
    if acts == [] then []
    else AskedBy(acts[..|acts| - 1]) + if acts[|acts| - 1].GetMac? then [acts[|acts| - 1].ip] else []
  }

  lemma {:induction false} CallsAreAsked(acts: seq<Action>, t: State)
    requires Exec(Step, INIT, acts) == Some(t)
    ensures |t.calls| == |AskedBy(acts)| && forall q: nat :: q < |t.calls| ==> t.calls[q].ip == AskedBy(acts)[q]
  {
    if acts != [] {
      var m := Exec(Step, INIT, acts[..|acts| - 1]).value;
      CallsAreAsked(acts[..|acts| - 1], m);
      IpsStay(m, acts[|acts| - 1], t);
    }
  }

  lemma IpsStay(s: State, a: Action, s': State)
    requires Step(s, a) == Some(s')
    ensures |s'.calls| == |s.calls| + if a.GetMac? then 1 else 0
    ensures forall q: nat :: q < |s.calls| ==> s'.calls[q].ip == s.calls[q].ip
    ensures a.GetMac? ==> s'.calls[|s.calls|].ip == a.ip
  {}

  /** Handling a request registers its call under the address it asked for. */
  lemma RequestsRegister(acts: seq<Action>, s: State)
    requires Exec(Step, INIT, acts) == Some(s) && Step(s, HandleNext).Some? && s.messages[0].Request?
    ensures var s', q := Step(s, HandleNext).value, s.messages[0].q;
            q < |AskedBy(acts)| && AskedBy(acts)[q] in s'.table && s'.table[AskedBy(acts)[q]] == q && s'.ips == s.ips && s'.calls == s.calls
  {
    Reachable(acts);
    CallsAreAsked(acts, s);
  }

  /** A call that has its answer and has not taken it. */
  ghost predicate Holds(s: State, q: nat, mac: Mac) {
    q < |s.calls| && s.calls[q].values == [mac] && s.calls[q].taken == 0 && s.calls[q].result.None? && !s.calls[q].dropped
  }

  /** A response is stored in the address map, and answers the call registered for its sender. */
  lemma ResponseAnswers(acts: seq<Action>, s: State, ip: Ip, mac: Mac)
    requires Exec(Step, INIT, acts) == Some(s) && Step(s, HandleNext).Some? && s.messages[0] == Response(ip, mac)
    ensures var s' := Step(s, HandleNext).value;
            && s'.ips == s.ips[ip := mac]
            && (ip in s.table && s.table[ip] < |s.calls| && !s.calls[s.table[ip]].dropped ==> Holds(s', s.table[ip], mac))
  {
    Reachable(acts);
  }

  lemma HoldsKept(s: State, a: Action, q: nat, mac: Mac)
    requires Inv(s) && Holds(s, q, mac) && Step(s, a).Some? && a != Receive(q) && a != Drop(q)
    ensures Holds(Step(s, a).value, q, mac)
  {
    if a.HandleNext? && s.messages[0].Response? && s.messages[0].source in s.table {
      assert Fresh(s.calls, s.table[s.messages[0].source], s.messages[0].source);
    }
  }

  /** Whatever happens in between, the next time the caller looks it gets that answer. */
  lemma {:induction false} NextReceiveReturns(before: seq<Action>, s: State, after: seq<Action>, t: State, q: nat, mac: Mac)
    requires Exec(Step, INIT, before) == Some(s) && Holds(s, q, mac) && Exec(Step, s, after) == Some(t)
    requires forall i: nat :: i < |after| ==> after[i] != Receive(q) && after[i] != Drop(q)
    ensures Holds(t, q, mac)
    ensures !t.panicked ==> Step(t, Receive(q)).Some? && Step(t, Receive(q)).value.calls[q].result == Some(Some(mac))
  {
    if after != [] {
      var init := after[..|after| - 1];
      var m := Exec(Step, s, init).value;
      NextReceiveReturns(before, s, init, m, q, mac);
      ExecConcat(Step, INIT, before, init);
      Reachable(before + init);
      HoldsKept(m, after[|after| - 1], q, mac);
    }
  }

  /** A caller gets None exactly if it has no answer and nobody can send it one any more, and
      waits exactly if somebody can. */
  lemma ReceivesNone(acts: seq<Action>, s: State, q: nat)
    requires Exec(Step, INIT, acts) == Some(s) && !s.panicked && q < |s.calls| && !s.calls[q].dropped && s.calls[q].result.None?
    ensures Step(s, Receive(q)).Some? && Step(s, Receive(q)).value.calls[q].result == Some(None)
            <==> s.calls[q].values == [] && !SenderAlive(s, q)
    ensures Step(s, Receive(q)).None? <==> s.calls[q].values == [] && SenderAlive(s, q)
  {
    Reachable(acts);
    assert Sourced(s.calls[q], s.responses);
  }

  // ---- The message queue ----

  function Handled(acts: seq<Action>): nat {
    if acts == [] then 0 else Handled(acts[..|acts| - 1]) + if acts[|acts| - 1].HandleNext? then 1 else 0
  }

  /** All messages sent to the handler in a run. */
  function MessagesOf(acts: seq<Action>): seq<Message> {
    if acts == [] then []
    else
      var init, a := acts[..|acts| - 1], acts[|acts| - 1];
      MessagesOf(init) +
      match a
      case GetMac(ip) => [Request(ip, |AskedBy(init)|)]
      case Arrive(ip, mac) => [Response(ip, mac)]
      case _ => []
  }

  lemma StepMessages(s: State, a: Action, s': State)
    requires Step(s, a) == Some(s')
    ensures match a
            case HandleNext => s.messages != [] && s'.messages == s.messages[1..]
            case Arrive(ip, mac) => s'.messages == s.messages + [Response(ip, mac)]
            case GetMac(ip) => s'.messages == s.messages + [Request(ip, |s.calls|)]
            case _ => s'.messages == s.messages
  {}

  /** The handler takes the messages in the order they were sent, and none is lost. */
  lemma {:induction false} MessagesInOrder(acts: seq<Action>, t: State)
    requires Exec(Step, INIT, acts) == Some(t)
    ensures Handled(acts) <= |MessagesOf(acts)| && t.messages == MessagesOf(acts)[Handled(acts)..]
  {
    if acts != [] {
      var init, a := acts[..|acts| - 1], acts[|acts| - 1];
      var m := Exec(Step, INIT, init).value;
      MessagesInOrder(init, m);
      CallsAreAsked(init, m);
      StepMessages(m, a, t);
      var all := MessagesOf(init);
      assert MessagesOf(acts)[..|all|] == all;
      QueueMoves(all, Handled(init), MessagesOf(acts)[|all|..]);
      assert MessagesOf(acts) == all + MessagesOf(acts)[|all|..];
    }
  }
}
