/** The whole network stack as one system: raw frames and requests wait in the handler's message
    queue, the handler works on its tables, and callers and the executor go on meanwhile. Every
    run of it is a run of the models of pings and of address requests, on the events its frames
    stand for, so their results hold from raw frames on. */
module Network {
  import opened Bytes
  import opened Runs
  import opened Ethernet
  import Arp
  import Executor
  import Handler
  import Ping

  /** A message to the handler: a received frame, or a request of a caller. */
  datatype Message =
    | Packet(id: nat, frame: Buffer)
    | AskFor(ip: Ip, q: nat)
    | PingTo(ip: Ip, mac: Mac, to: Ping.Binding)

  /** The handler and its messages; the executor, the ping futures and the tasks that await them;
      the calls of `get_mac`. `waking` is set between storing a flag and calling the waker. */
  datatype State = State(build: Build, net: Handler.Net, queue: seq<Message>,
                         exec: Executor.State, futures: seq<Ping.Future>, current: map<nat, nat>,
                         waking: Option<Ping.Binding>, panicked: bool, calls: seq<Arp.Call>)

  datatype Action =
    | Run(a: Executor.Action) | Poll(next: Option<(Ip, Mac)>) | CallWaker
    | GetMac(ip: Ip) | Receive(q: nat) | Drop(q: nat)
    | Arrive(id: nat, frame: Buffer) | HandleNext

  /** Any devices, and nothing pending. */
  ghost predicate Start(s: State) {
    && s.net.arp == map[] && s.net.ping == map[] && s.net.ips == map[] && s.queue == []
    && s.exec == Executor.INIT && s.futures == [] && s.current == map[]
    && s.waking.None? && !s.panicked && s.calls == []
  }

  // ---- What frames stand for ----

  function EventOf(build: Build, devices: seq<Handler.Entry>, m: Message): Handler.Event
    requires m.Packet?
  {
    var i := Handler.FindDevice(devices, m.id);
    if i == |devices| || |m.frame.data| != BUFFER_SIZE then Handler.Crash
    else Handler.Classify(build, devices[i].device.mac, m.frame)
  }

  function PingMessage(build: Build, devices: seq<Handler.Entry>, m: Message): seq<Ping.Message> {
    match m
    case Packet(_, _) =>
      var e := EventOf(build, devices, m);
      if e.EchoReply? then [Ping.EchoReply(e.source)] else []
    case PingTo(ip, mac, to) => [Ping.Request(ip, mac, to)]
    case AskFor(_, _) => []
  }

  function ArpMessage(build: Build, devices: seq<Handler.Entry>, m: Message): seq<Arp.Message> {
    match m
    case Packet(_, _) =>
      var e := EventOf(build, devices, m);
      if e.ArpResponse? then [Arp.Response(e.ip, e.mac)] else []
    case AskFor(ip, q) => [Arp.Request(ip, q)]
    case PingTo(_, _, _) => []
  }

  function PingMessages(build: Build, devices: seq<Handler.Entry>, queue: seq<Message>): seq<Ping.Message> {
    if queue == [] then [] else PingMessage(build, devices, queue[0]) + PingMessages(build, devices, queue[1..])
  }

  function ArpMessages(build: Build, devices: seq<Handler.Entry>, queue: seq<Message>): seq<Arp.Message> {
    if queue == [] then [] else ArpMessage(build, devices, queue[0]) + ArpMessages(build, devices, queue[1..])
  }

  lemma {:induction false} PingMessagesSnoc(build: Build, devices: seq<Handler.Entry>, queue: seq<Message>, m: Message)
    ensures PingMessages(build, devices, queue + [m]) == PingMessages(build, devices, queue) + PingMessage(build, devices, m)
  {
    if queue == [] {
      assert (queue + [m])[1..] == [];
    } else {
      assert (queue + [m])[1..] == queue[1..] + [m];
      PingMessagesSnoc(build, devices, queue[1..], m);
    }
  }

  lemma {:induction false} ArpMessagesSnoc(build: Build, devices: seq<Handler.Entry>, queue: seq<Message>, m: Message)
    ensures ArpMessages(build, devices, queue + [m]) == ArpMessages(build, devices, queue) + ArpMessage(build, devices, m)
  {
    if queue == [] {
      assert (queue + [m])[1..] == [];
    } else {
      assert (queue + [m])[1..] == queue[1..] + [m];
      ArpMessagesSnoc(build, devices, queue[1..], m);
    }
  }

  /** The same devices, in whatever state. */
  ghost predicate SameDevices(a: seq<Handler.Entry>, b: seq<Handler.Entry>) {
    |a| == |b| && forall i: nat :: i < |a| ==> a[i].id == b[i].id && a[i].device.mac == b[i].device.mac
  }

  lemma SameEvent(build: Build, a: seq<Handler.Entry>, b: seq<Handler.Entry>, m: Message)
    requires SameDevices(a, b) && m.Packet?
    ensures EventOf(build, a, m) == EventOf(build, b, m)
  {
    var i, j := Handler.FindDevice(a, m.id), Handler.FindDevice(b, m.id);
    assert i == j;
  }

  lemma {:induction false} SameMessages(build: Build, a: seq<Handler.Entry>, b: seq<Handler.Entry>, queue: seq<Message>)
    requires SameDevices(a, b)
    ensures PingMessages(build, a, queue) == PingMessages(build, b, queue)
    ensures ArpMessages(build, a, queue) == ArpMessages(build, b, queue)
  {
    if queue != [] {
      if queue[0].Packet? { SameEvent(build, a, b, queue[0]); }
      SameMessages(build, a, b, queue[1..]);
    }
  }

  // ---- Steps ----

  /** The callers' side of the ping system, with the given messages. */
  function Callers(s: State, messages: seq<Ping.Message>): Ping.State {
    Ping.State(s.exec, s.futures, s.current, messages, map[], s.waking, s.panicked, {}, [], [], 0)
  }

  function Requests(messages: seq<Ping.Message>): seq<Message> {
    if messages == [] then []
    else
      var m := messages[|messages| - 1];
      Requests(messages[..|messages| - 1]) + if m.Request? then [PingTo(m.ip, m.mac, m.to)] else []
  }

  /** The poll of the task that was found; a request it sends joins the messages. */
  function Polled(s: State, next: Option<(Ip, Mac)>): State
    requires s.exec.pc.Polling?
  {
    var r := Ping.PollTask(Callers(s, []), s.exec.pc.task.id, next);
    s.(exec := Executor.Step(s.exec, Executor.PollEnd).value, futures := r.futures, current := r.current,
       panicked := r.panicked, queue := s.queue + Requests(r.messages))
  }

  /** The handler takes a frame; None if that makes it panic. An answer goes to its reply queue,
      a flag is stored before its waker is called. */
  function TakeFrame(s: State, id: nat, frame: Buffer): Option<State> {
    if |frame.data| != BUFFER_SIZE then None
    else
      match Handler.HandleFrame(s.build, s.net.(refusing := Handler.Refusing(s.calls)), id, frame)
      case Ok(net) =>
        var woken := Handler.NewlyWoken(s.net.woken, net.woken);
        Some(s.(net := net, calls := Handler.Answered(s.calls, s.net.answers, net.answers), waking := woken,
                futures := if woken.Some? && woken.value.f < |s.futures|
                           then s.futures[woken.value.f := s.futures[woken.value.f].(returned := true)] else s.futures))
      case _ => None
  }

  function TakeNext(s: State, m: Message): Option<State> {
    match m
    case Packet(id, frame) => TakeFrame(s, id, frame)
    case AskFor(ip, q) => Some(s.(net := Handler.AskAll(s.net, ip, q)))
    case PingTo(ip, mac, to) =>
      match Handler.PingFrames(s.build, s.net.devices, ip, mac)
      case Ok(frames) => Some(s.(net := s.net.(ping := s.net.ping[ip := to], sent := s.net.sent + frames)))
      case _ => None
  }

  /** A step of a caller of `get_mac`, as in the model of address requests. */
  ghost function CallStep(s: State, a: Arp.Action): Option<State>
    requires a.Receive? || a.Drop?
  {
    match Arp.Step(Arp.State(s.calls, ArpMessages(s.build, s.net.devices, s.queue), s.net.arp, s.net.ips, false, []), a)
    case Some(r) => Some(s.(calls := r.calls))
    case None => None
  }

  ghost function Step(s: State, a: Action): Option<State> {
    match a
    case Run(e) =>
      if e.PollEnd? then None
      else (match Executor.Step(s.exec, e) case Some(x) => Some(s.(exec := x)) case None => None)
    case Poll(next) => if s.exec.pc.Polling? then Some(Polled(s, next)) else None
    case CallWaker =>
      if s.waking.None? then None
      else
        (match Executor.Step(s.exec, Executor.Wake(s.waking.value.task))
         case Some(x) => Some(s.(exec := x, waking := None))
         case None => None)
    case GetMac(ip) =>
      Some(s.(calls := s.calls + [Arp.Call(ip, [], 0, false, None)], queue := s.queue + [AskFor(ip, |s.calls|)]))
    case Receive(q) => CallStep(s, Arp.Receive(q))
    case Drop(q) => CallStep(s, Arp.Drop(q))
    case Arrive(id, frame) => Some(s.(queue := s.queue + [Packet(id, frame)]))
    case HandleNext =>
      if s.waking.Some? || s.queue == [] then None else TakeNext(s.(queue := s.queue[1..]), s.queue[0])
  }

  // ---- Pings ----

  ghost predicate MatchPing(s: State, p: Ping.State) {
    && p.exec == s.exec && p.futures == s.futures && p.current == s.current && p.waking == s.waking && p.panicked == s.panicked
    && p.table == s.net.ping && p.messages == PingMessages(s.build, s.net.devices, s.queue)
  }

  /** Every binding in the table names a future. */
  ghost predicate Bound(p: Ping.State) {
    forall ip :: ip in p.table ==> p.table[ip].f < |p.futures|
  }

  /** Two views of the callers that differ in the messages sent before, and elsewhere. */
  ghost predicate Apart(p: Ping.State, c: Ping.State, before: seq<Ping.Message>) {
    && p.futures == c.futures && p.current == c.current && p.panicked == c.panicked && p.messages == before + c.messages
    && (forall i: nat :: i < |c.messages| ==> c.messages[i].Request?)
  }

  ghost predicate SameHandler(p: Ping.State, q: Ping.State) {
    p.table == q.table && p.waking == q.waking && p.exec == q.exec
  }

  lemma PollFutureApart(p: Ping.State, c: Ping.State, before: seq<Ping.Message>, f: nat)
    requires Apart(p, c, before) && f < |p.futures|
    ensures Apart(Ping.PollFuture(p, f), Ping.PollFuture(c, f), before) && SameHandler(Ping.PollFuture(p, f), p)
  {}

  /** A poll looks at neither the messages nor the handler. */
  lemma PollTaskApart(p: Ping.State, c: Ping.State, before: seq<Ping.Message>, task: nat, next: Option<(Ip, Mac)>)
    requires Apart(p, c, before)
    ensures Apart(Ping.PollTask(p, task, next), Ping.PollTask(c, task, next), before) && SameHandler(Ping.PollTask(p, task, next), p)
  {
    var p1, c1 := Ping.PollAwaited(p, task), Ping.PollAwaited(c, task);
    if task in p.current && p.current[task] < |p.futures| { PollFutureApart(p, c, before, p.current[task]); }
    assert Apart(p1, c1, before) && SameHandler(p1, p);
    if task !in p1.current && next.Some? {
      var created := Ping.Future(Some(next.value.0), Some(next.value.1), false, false, task, false);
      var p2 := p1.(futures := p1.futures + [created], current := p1.current[task := |p1.futures|]);
      var c2 := c1.(futures := c1.futures + [created], current := c1.current[task := |c1.futures|]);
      PollFutureApart(p2, c2, before, |p1.futures|);
    }
  }

  lemma RequestIsPing(build: Build, devices: seq<Handler.Entry>, queue: seq<Message>, m: Ping.Message)
    requires m.Request?
    ensures PingMessages(build, devices, queue + [PingTo(m.ip, m.mac, m.to)]) == PingMessages(build, devices, queue) + [m]
    ensures ArpMessages(build, devices, queue + [PingTo(m.ip, m.mac, m.to)]) == ArpMessages(build, devices, queue)
  {
    PingMessagesSnoc(build, devices, queue, PingTo(m.ip, m.mac, m.to));
    ArpMessagesSnoc(build, devices, queue, PingTo(m.ip, m.mac, m.to));
  }

  lemma RequestsSnoc(queue: seq<Message>, init: seq<Ping.Message>, m: Ping.Message)
    requires m.Request?
    ensures queue + Requests(init + [m]) == (queue + Requests(init)) + [PingTo(m.ip, m.mac, m.to)]
  {
    assert (init + [m])[..|init|] == init;
  }

  lemma {:induction false} RequestsArePings(build: Build, devices: seq<Handler.Entry>, queue: seq<Message>, ms: seq<Ping.Message>, all: seq<Message>)
    requires (forall i: nat :: i < |ms| ==> ms[i].Request?) && all == queue + Requests(ms)
    ensures PingMessages(build, devices, all) == PingMessages(build, devices, queue) + ms
    ensures ArpMessages(build, devices, all) == ArpMessages(build, devices, queue)
    decreases ms
  {
    if ms == [] {
      assert all == queue;
    } else {
      var init, m := ms[..|ms| - 1], ms[|ms| - 1];
      var most := queue + Requests(init);
      RequestsArePings(build, devices, queue, init, most);
      RequestIsPing(build, devices, most, m);
      assert ms == init + [m];
      RequestsSnoc(queue, init, m);
      assert all == most + [PingTo(m.ip, m.mac, m.to)];
    }
  }

  lemma PollMatches(s: State, p: Ping.State, next: Option<(Ip, Mac)>) returns (p': Ping.State)
    requires MatchPing(s, p) && s.exec.pc.Polling?
    ensures Ping.Step(p, Ping.Poll(next)) == Some(p') && MatchPing(Polled(s, next), p')
  {
    var task := s.exec.pc.task.id;
    var c := Callers(s, []);
    PollTaskApart(p, c, p.messages, task, next);
    RequestsArePings(s.build, s.net.devices, s.queue, Ping.PollTask(c, task, next).messages, Polled(s, next).queue);
    p' := Ping.Step(p, Ping.Poll(next)).value;
  }

  /** Handling a frame keeps the devices, and so what the waiting frames stand for. */
  lemma FrameKeepsDevices(s: State, id: nat, frame: Buffer, s': State)
    requires TakeFrame(s, id, frame) == Some(s')
    ensures SameDevices(s.net.devices, s'.net.devices) && s'.build == s.build && s'.queue == s.queue
    ensures EventOf(s.build, s.net.devices, Packet(id, frame)) != Handler.Crash
  {
    var net, i := s.net.(refusing := Handler.Refusing(s.calls)), Handler.FindDevice(s.net.devices, id);
    var e := Handler.Classify(s.build, net.devices[i].device.mac, frame);
    Handler.ReactTouchesOne(net, i, e, s'.net);
  }

  /** A frame is handled in the ping system if it is an echo reply, and otherwise changes
      nothing there. */
  lemma FrameMatchesPing(s: State, id: nat, frame: Buffer, s': State, p: Ping.State) returns (p': Ping.State)
    requires TakeFrame(s, id, frame) == Some(s') && MatchPing(s, p) && Bound(p) && s.waking.None?
    ensures MatchPing(s', p')
    ensures var e := EventOf(s.build, s.net.devices, Packet(id, frame));
            p' == if e.EchoReply? then Ping.Handle(p, Ping.EchoReply(e.source)) else p
  {
    var net, i := s.net.(refusing := Handler.Refusing(s.calls)), Handler.FindDevice(s.net.devices, id);
    var e := Handler.Classify(s.build, net.devices[i].device.mac, frame);
    FrameKeepsDevices(s, id, frame, s');
    SameMessages(s.build, s.net.devices, s'.net.devices, s.queue);
    if e.EchoReply? {
      Handler.PingFollows(net, i, e.source, p);
      p' := Ping.Handle(p, Ping.EchoReply(e.source));
    } else {
      Handler.OthersLeaveTables(net, i, e, s'.net);
      p' := p;
    }
  }

  /** One step, or none, of the ping system. */
  ghost predicate PingTakes(p: Ping.State, acts: seq<Ping.Action>, p': Ping.State) {
    (acts == [] && p' == p) || (|acts| == 1 && Ping.Step(p, acts[0]) == Some(p'))
  }

  lemma TakesIsExec(p: Ping.State, acts: seq<Ping.Action>, p': Ping.State)
    requires PingTakes(p, acts, p')
    ensures Exec(Ping.Step, p, acts) == Some(p')
  {
    if acts != [] { assert acts[..0] == []; }
  }

  /** The first waiting message is one of the ping system, or it has none of it. */
  lemma HeadOfPing(s: State, p: Ping.State) returns (q: Ping.State)
    requires MatchPing(s, p) && s.queue != []
    ensures MatchPing(s.(queue := s.queue[1..]), q)
    ensures var ms := PingMessage(s.build, s.net.devices, s.queue[0]);
            if ms == [] then q == p else |ms| == 1 && p.messages != [] && p.messages[0] == ms[0] && q == p.(messages := p.messages[1..])
  {
    var ms := PingMessage(s.build, s.net.devices, s.queue[0]);
    var rest := PingMessages(s.build, s.net.devices, s.queue[1..]);
    assert p.messages == ms + rest;
    if ms == [] {
      q := p;
      assert ms + rest == rest;
    } else {
      q := p.(messages := p.messages[1..]);
      assert (ms + rest)[1..] == rest;
    }
  }

  lemma PacketMatchesPing(s: State, p: Ping.State, s': State) returns (acts: seq<Ping.Action>, p': Ping.State)
    requires MatchPing(s, p) && Bound(p) && Step(s, HandleNext) == Some(s') && s.queue[0].Packet?
    ensures PingTakes(p, acts, p') && MatchPing(s', p') && (acts == [] || acts == [Ping.HandleNext])
  {
    var q := HeadOfPing(s, p);
    p' := FrameMatchesPing(s.(queue := s.queue[1..]), s.queue[0].id, s.queue[0].frame, s', q);
    acts := if EventOf(s.build, s.net.devices, s.queue[0]).EchoReply? then [Ping.HandleNext] else [];
  }

  lemma PingMatchesPing(s: State, p: Ping.State, s': State) returns (p': Ping.State)
    requires MatchPing(s, p) && Step(s, HandleNext) == Some(s') && s.queue[0].PingTo?
    ensures Ping.Step(p, Ping.HandleNext) == Some(p') && MatchPing(s', p')
  {
    var q := HeadOfPing(s, p);
    p' := Ping.Handle(q, p.messages[0]);
  }

  lemma AskLeavesPing(s: State, p: Ping.State, s': State)
    requires MatchPing(s, p) && Step(s, HandleNext) == Some(s') && s.queue[0].AskFor?
    ensures MatchPing(s', p)
  {
    var q := HeadOfPing(s, p);
  }

  lemma HandleMatchesPing(s: State, p: Ping.State, s': State) returns (acts: seq<Ping.Action>, p': Ping.State)
    requires MatchPing(s, p) && Bound(p) && Step(s, HandleNext) == Some(s')
    ensures PingTakes(p, acts, p') && MatchPing(s', p') && (acts == [] || acts == [Ping.HandleNext])
  {
    match s.queue[0]
    case Packet(id, frame) =>
      acts, p' := PacketMatchesPing(s, p, s');
    case AskFor(ip, n) =>
      AskLeavesPing(s, p, s');
      p', acts := p, [];
    case PingTo(ip, mac, to) =>
      p' := PingMatchesPing(s, p, s');
      acts := [Ping.HandleNext];
  }

  /** The action that a frame arriving is in the ping system. */
  ghost function ReplyArrival(build: Build, devices: seq<Handler.Entry>, m: Message): seq<Ping.Action>
    requires m.Packet?
  {
    var e := EventOf(build, devices, m);
    if e.EchoReply? then [Ping.Arrive(e.source)] else []
  }

  lemma ArriveMatchesPing(s: State, p: Ping.State, m: Message) returns (p': Ping.State)
    requires MatchPing(s, p) && m.Packet?
    ensures PingTakes(p, ReplyArrival(s.build, s.net.devices, m), p') && MatchPing(s.(queue := s.queue + [m]), p')
  {
    PingMessagesSnoc(s.build, s.net.devices, s.queue, m);
    var e := EventOf(s.build, s.net.devices, m);
    p' := if e.EchoReply? then p.(messages := p.messages + [Ping.EchoReply(e.source)]) else p;
    if !e.EchoReply? { assert p.messages + [] == p.messages; }
  }

  /** Which actions of the ping system a step is. */
  ghost predicate PingStands(s: State, x: Action, acts: seq<Ping.Action>) {
    if x.Arrive? then acts == ReplyArrival(s.build, s.net.devices, Packet(x.id, x.frame))
    else if x.Poll? then acts == [Ping.Poll(x.next)]
    else forall i: nat :: i < |acts| ==> !acts[i].Arrive? && !acts[i].Poll?
  }

  lemma StepMatchesPing(s: State, a: Action, s': State, p: Ping.State) returns (acts: seq<Ping.Action>, p': Ping.State)
    requires MatchPing(s, p) && Bound(p) && Step(s, a) == Some(s')
    ensures PingTakes(p, acts, p') && MatchPing(s', p') && PingStands(s, a, acts)
  {
    acts, p' := [], p;
    match a
    case Run(e) => acts, p' := [Ping.Run(e)], p.(exec := s'.exec);
    case CallWaker => acts, p' := [Ping.CallWaker], p.(exec := s'.exec, waking := None);
    case Poll(next) =>
      p' := PollMatches(s, p, next);
      acts := [Ping.Poll(next)];
    case GetMac(ip) =>
      PingMessagesSnoc(s.build, s.net.devices, s.queue, AskFor(ip, |s.calls|));
      assert p.messages + [] == p.messages;
    case Arrive(id, frame) =>
      acts := ReplyArrival(s.build, s.net.devices, Packet(id, frame));
      p' := ArriveMatchesPing(s, p, Packet(id, frame));
    case HandleNext => acts, p' := HandleMatchesPing(s, p, s');
    case _ =>
  }

  lemma ReachableBound(acts: seq<Ping.Action>, p: Ping.State)
    requires Exec(Ping.Step, Ping.INIT, acts) == Some(p)
    ensures Bound(p)
  {
    Ping.Reachable(acts, p);
  }

  /** From a state that matches one of the ping system, every run is a run of the ping system. */
  lemma {:induction false} RunMatchesPing(pre: seq<Ping.Action>, p: Ping.State, s: State, acts: seq<Action>, t: State)
    returns (pings: seq<Ping.Action>, q: Ping.State)
    requires Exec(Ping.Step, Ping.INIT, pre) == Some(p) && MatchPing(s, p) && Exec(Step, s, acts) == Some(t)
    ensures Exec(Ping.Step, p, pings) == Some(q) && MatchPing(t, q)
  {
    if acts == [] {
      pings, q := [], p;
    } else {
      var init := acts[..|acts| - 1];
      var m := Exec(Step, s, init).value;
      var first, r := RunMatchesPing(pre, p, s, init, m);
      ExecConcat(Ping.Step, Ping.INIT, pre, first);
      ReachableBound(pre + first, r);
      var last;
      last, q := StepMatchesPing(m, acts[|acts| - 1], t, r);
      TakesIsExec(r, last, q);
      ExecConcat(Ping.Step, p, first, last);
      pings := first + last;
    }
  }

  /** No lost wakeup, from raw frames on: once an echo reply frame was handled and its waker
      called, the pinging task has a turn on the run queue, and in every continuation in which
      the run loop gets past that turn a poll of the future has returned Ready. */
  lemma WakeupFromFrames(start: State, before: seq<Action>, s: State, f: nat) returns (at: nat)
    requires Start(start) && Exec(Step, start, before) == Some(s)
    requires f < |s.futures| && s.futures[f].returned && !s.futures[f].ready && s.waking != Some(Ping.Binding(s.futures[f].task, f))
    ensures Ping.Finished(s.exec) <= at < |s.exec.enqueued| && s.exec.enqueued[at] == s.futures[f].task
    ensures forall after, t :: Exec(Step, s, after) == Some(t) && Ping.Finished(t.exec) > at ==> f < |t.futures| && t.futures[f].ready
  {
    var pings, p := RunMatchesPing([], Ping.INIT, start, before, s);
    at := Ping.NoLostWakeup(pings, p, f);
    forall after, t | Exec(Step, s, after) == Some(t) && Ping.Finished(t.exec) > at ensures f < |t.futures| && t.futures[f].ready {
      var more, q := RunMatchesPing(pings, p, s, after, t);
    }
  }

  /** The `expect` calls of a poll never fail, and a waker that is to be called can be. */
  lemma PollsSurvive(start: State, acts: seq<Action>, t: State)
    requires Start(start) && Exec(Step, start, acts) == Some(t)
    ensures !t.panicked && (t.waking.Some? ==> Step(t, CallWaker).Some?)
  {
    var pings, p := RunMatchesPing([], Ping.INIT, start, acts, t);
    Ping.OneRequestOneCompletion(pings, p);
  }

  // ---- Address requests ----

  ghost predicate MatchArp(s: State, a: Arp.State) {
    && a.calls == s.calls && a.table == s.net.arp && a.ips == s.net.ips && !a.panicked
    && a.messages == ArpMessages(s.build, s.net.devices, s.queue)
  }

  /** Every reply queue in the table belongs to a call. */
  ghost predicate Registered(a: Arp.State) {
    forall ip :: ip in a.table ==> a.table[ip] < |a.calls|
  }

  ghost predicate ArpTakes(a: Arp.State, acts: seq<Arp.Action>, a': Arp.State) {
    (acts == [] && a' == a) || (|acts| == 1 && Arp.Step(a, acts[0]) == Some(a'))
  }

  lemma ArpTakesIsExec(a: Arp.State, acts: seq<Arp.Action>, a': Arp.State)
    requires ArpTakes(a, acts, a')
    ensures Exec(Arp.Step, a, acts) == Some(a')
  {
    if acts != [] { assert acts[..0] == []; }
  }

  /** A frame is handled in the model of address requests if it is a response, and otherwise
      changes nothing there; the handler panics exactly when that model does. */
  lemma FrameMatchesArp(s: State, id: nat, frame: Buffer, a: Arp.State) returns (a': Arp.State)
    requires MatchArp(s, a) && Registered(a)
    ensures var e := EventOf(s.build, s.net.devices, Packet(id, frame));
            && a' == (if e.ArpResponse? then Arp.Handle(a, Arp.Response(e.ip, e.mac)) else a)
            && (e.ArpResponse? ==> (TakeFrame(s, id, frame).None? <==> a'.panicked))
            && (TakeFrame(s, id, frame).Some? ==> MatchArp(TakeFrame(s, id, frame).value, a'))
  {
    var e := EventOf(s.build, s.net.devices, Packet(id, frame));
    var net, i := s.net.(refusing := Handler.Refusing(s.calls)), Handler.FindDevice(s.net.devices, id);
    a' := if e.ArpResponse? then Arp.Handle(a, Arp.Response(e.ip, e.mac)) else a;
    if e.ArpResponse? { Handler.ArpFollows(net, i, e.ip, e.mac, a); }
    if TakeFrame(s, id, frame).Some? { FrameLeavesArp(s, id, frame, TakeFrame(s, id, frame).value); }
  }

  lemma FrameLeavesArp(s: State, id: nat, frame: Buffer, s': State)
    requires TakeFrame(s, id, frame) == Some(s')
    ensures ArpMessages(s'.build, s'.net.devices, s'.queue) == ArpMessages(s.build, s.net.devices, s.queue)
    ensures !EventOf(s.build, s.net.devices, Packet(id, frame)).ArpResponse? ==>
              s'.calls == s.calls && s'.net.arp == s.net.arp && s'.net.ips == s.net.ips
  {
    var net, i := s.net.(refusing := Handler.Refusing(s.calls)), Handler.FindDevice(s.net.devices, id);
    FrameKeepsDevices(s, id, frame, s');
    SameMessages(s.build, s.net.devices, s'.net.devices, s.queue);
    Handler.OthersLeaveTables(net, i, EventOf(s.build, s.net.devices, Packet(id, frame)), s'.net);
  }

  lemma HeadOfArp(s: State, a: Arp.State) returns (b: Arp.State)
    requires MatchArp(s, a) && s.queue != []
    ensures MatchArp(s.(queue := s.queue[1..]), b)
    ensures var ms := ArpMessage(s.build, s.net.devices, s.queue[0]);
            if ms == [] then b == a else |ms| == 1 && a.messages != [] && a.messages[0] == ms[0] && b == a.(messages := a.messages[1..])
  {
    var ms := ArpMessage(s.build, s.net.devices, s.queue[0]);
    var rest := ArpMessages(s.build, s.net.devices, s.queue[1..]);
    assert a.messages == ms + rest;
    if ms == [] {
      b := a;
      assert ms + rest == rest;
    } else {
      b := a.(messages := a.messages[1..]);
      assert (ms + rest)[1..] == rest;
    }
  }

  lemma PacketMatchesArp(s: State, a: Arp.State, s': State) returns (acts: seq<Arp.Action>, a': Arp.State)
    requires MatchArp(s, a) && Registered(a) && Step(s, HandleNext) == Some(s') && s.queue[0].Packet?
    ensures ArpTakes(a, acts, a') && MatchArp(s', a') && (acts == [] || acts == [Arp.HandleNext])
  {
    var b := HeadOfArp(s, a);
    a' := FrameMatchesArp(s.(queue := s.queue[1..]), s.queue[0].id, s.queue[0].frame, b);
    acts := if EventOf(s.build, s.net.devices, s.queue[0]).ArpResponse? then [Arp.HandleNext] else [];
  }

  lemma AskMatchesArp(s: State, a: Arp.State, s': State) returns (a': Arp.State)
    requires MatchArp(s, a) && Step(s, HandleNext) == Some(s') && s.queue[0].AskFor?
    ensures Arp.Step(a, Arp.HandleNext) == Some(a') && MatchArp(s', a')
  {
    var b := HeadOfArp(s, a);
    a' := Arp.Handle(b, a.messages[0]);
  }

  lemma PingLeavesArp(s: State, a: Arp.State, s': State)
    requires MatchArp(s, a) && Step(s, HandleNext) == Some(s') && s.queue[0].PingTo?
    ensures MatchArp(s', a)
  {
    var b := HeadOfArp(s, a);
  }

  lemma HandleMatchesArp(s: State, a: Arp.State, s': State) returns (acts: seq<Arp.Action>, a': Arp.State)
    requires MatchArp(s, a) && Registered(a) && Step(s, HandleNext) == Some(s')
    ensures ArpTakes(a, acts, a') && MatchArp(s', a') && (acts == [] || acts == [Arp.HandleNext])
  {
    match s.queue[0]
    case Packet(id, frame) =>
      acts, a' := PacketMatchesArp(s, a, s');
    case AskFor(ip, q) =>
      a' := AskMatchesArp(s, a, s');
      acts := [Arp.HandleNext];
    case PingTo(ip, mac, to) =>
      PingLeavesArp(s, a, s');
      a', acts := a, [];
  }

  /** The action that a frame arriving is in the model of address requests. */
  ghost function Arrival(build: Build, devices: seq<Handler.Entry>, m: Message): seq<Arp.Action>
    requires m.Packet?
  {
    var e := EventOf(build, devices, m);
    if e.ArpResponse? then [Arp.Arrive(e.ip, e.mac)] else []
  }

  lemma ArriveMatchesArp(s: State, a: Arp.State, m: Message) returns (a': Arp.State)
    requires MatchArp(s, a) && m.Packet?
    ensures ArpTakes(a, Arrival(s.build, s.net.devices, m), a') && MatchArp(s.(queue := s.queue + [m]), a')
  {
    ArpMessagesSnoc(s.build, s.net.devices, s.queue, m);
    var e := EventOf(s.build, s.net.devices, m);
    a' := if e.ArpResponse? then a.(messages := a.messages + [Arp.Response(e.ip, e.mac)]) else a;
    if !e.ArpResponse? { assert a.messages + [] == a.messages; }
  }

  lemma CallMatchesArp(s: State, x: Arp.Action, s': State, a: Arp.State) returns (a': Arp.State)
    requires MatchArp(s, a) && (x.Receive? || x.Drop?) && CallStep(s, x) == Some(s')
    ensures Arp.Step(a, x) == Some(a') && MatchArp(s', a')
  {
    var b := Arp.State(s.calls, ArpMessages(s.build, s.net.devices, s.queue), s.net.arp, s.net.ips, false, []);
    if x.Receive? { assert Arp.SenderAlive(b, x.q) == Arp.SenderAlive(a, x.q); }
    a' := a.(calls := s'.calls);
  }

  /** Which actions of the model of address requests a step is. */
  ghost predicate Stands(s: State, a: Action, acts: seq<Arp.Action>) {
    if a.Arrive? then acts == Arrival(s.build, s.net.devices, Packet(a.id, a.frame)) else forall i: nat :: i < |acts| ==> !acts[i].Arrive?
  }

  lemma StepMatchesArp(s: State, x: Action, s': State, a: Arp.State) returns (acts: seq<Arp.Action>, a': Arp.State)
    requires MatchArp(s, a) && Registered(a) && Step(s, x) == Some(s')
    ensures ArpTakes(a, acts, a') && MatchArp(s', a') && Stands(s, x, acts)
  {
    acts, a' := [], a;
    match x
    case Poll(next) =>
      var c := Callers(s, []);
      PollTaskApart(c, c, [], s.exec.pc.task.id, next);
      RequestsArePings(s.build, s.net.devices, s.queue, Ping.PollTask(c, s.exec.pc.task.id, next).messages, s'.queue);
    case GetMac(ip) =>
      ArpMessagesSnoc(s.build, s.net.devices, s.queue, AskFor(ip, |s.calls|));
      acts, a' := [Arp.GetMac(ip)], Arp.Step(a, Arp.GetMac(ip)).value;
    case Receive(q) =>
      a' := CallMatchesArp(s, Arp.Receive(q), s', a);
      acts := [Arp.Receive(q)];
    case Drop(q) =>
      a' := CallMatchesArp(s, Arp.Drop(q), s', a);
      acts := [Arp.Drop(q)];
    case Arrive(id, frame) =>
      acts := Arrival(s.build, s.net.devices, Packet(id, frame));
      a' := ArriveMatchesArp(s, a, Packet(id, frame));
    case HandleNext => acts, a' := HandleMatchesArp(s, a, s');
    case _ =>
  }

  /** Among the frames that arrived was an ARP response with these addresses. */
  ghost predicate Seen(start: State, acts: seq<Action>, ip: Ip, mac: Mac) {
    exists i: nat :: i < |acts| && acts[i].Arrive?
                     && EventOf(start.build, start.net.devices, Packet(acts[i].id, acts[i].frame)) == Handler.ArpResponse(ip, mac)
  }

  ghost predicate AllSeen(start: State, acts: seq<Action>, arps: seq<Arp.Action>) {
    forall i: nat :: i < |arps| && arps[i].Arrive? ==> Seen(start, acts, arps[i].source, arps[i].mac)
  }

  lemma SeenMore(start: State, acts: seq<Action>, x: Action, ip: Ip, mac: Mac)
    requires Seen(start, acts, ip, mac)
             || (x.Arrive? && EventOf(start.build, start.net.devices, Packet(x.id, x.frame)) == Handler.ArpResponse(ip, mac))
    ensures Seen(start, acts + [x], ip, mac)
  {
    if Seen(start, acts, ip, mac) {
      var i: nat :| i < |acts| && acts[i].Arrive?
                    && EventOf(start.build, start.net.devices, Packet(acts[i].id, acts[i].frame)) == Handler.ArpResponse(ip, mac);
      assert (acts + [x])[i] == acts[i];
    } else {
      assert (acts + [x])[|acts|] == x;
    }
  }

  /** One more step adds at most the arrival of its own frame. */
  lemma StepSeen(start: State, acts: seq<Action>, s: State, x: Action, arps: seq<Arp.Action>, last: seq<Arp.Action>)
    requires AllSeen(start, acts, arps) && Stands(s, x, last) && s.build == start.build && SameDevices(s.net.devices, start.net.devices)
    ensures AllSeen(start, acts + [x], arps + last)
  {
    forall i: nat | i < |arps + last| && (arps + last)[i].Arrive?
      ensures Seen(start, acts + [x], (arps + last)[i].source, (arps + last)[i].mac)
    {
      if i >= |arps| { SameEvent(s.build, s.net.devices, start.net.devices, Packet(x.id, x.frame)); }
      SeenMore(start, acts, x, (arps + last)[i].source, (arps + last)[i].mac);
    }
  }

  /** No step changes the build or the devices. */
  lemma StepKeepsDevices(s: State, x: Action, s': State)
    requires Step(s, x) == Some(s')
    ensures s'.build == s.build && SameDevices(s'.net.devices, s.net.devices)
  {
    if x.HandleNext? && s.queue[0].Packet? {
      FrameKeepsDevices(s.(queue := s.queue[1..]), s.queue[0].id, s.queue[0].frame, s');
    }
  }

  lemma ReachableRegistered(acts: seq<Arp.Action>, a: Arp.State)
    requires Exec(Arp.Step, Arp.INIT, acts) == Some(a) && !a.panicked
    ensures Registered(a)
  {
    Arp.Reachable(acts);
  }

  /** A run of the model of address requests that matches this one, and whose responses are ARP
      response frames that arrived. */
  ghost predicate ArpRun(start: State, acts: seq<Action>, t: State, arps: seq<Arp.Action>, a: Arp.State) {
    && Exec(Arp.Step, Arp.INIT, arps) == Some(a) && MatchArp(t, a) && AllSeen(start, acts, arps)
    && t.build == start.build && SameDevices(t.net.devices, start.net.devices)
  }

  lemma ArpRunStarts(start: State)
    requires Start(start)
    ensures ArpRun(start, [], start, [], Arp.INIT)
  {}

  lemma ArpRunGrows(start: State, acts: seq<Action>, s: State, arps: seq<Arp.Action>, b: Arp.State, x: Action, t: State)
    returns (arps': seq<Arp.Action>, a: Arp.State)
    requires ArpRun(start, acts, s, arps, b) && Step(s, x) == Some(t)
    ensures ArpRun(start, acts + [x], t, arps', a)
  {
    ReachableRegistered(arps, b);
    var last;
    last, a := StepMatchesArp(s, x, t, b);
    ArpTakesIsExec(b, last, a);
    ExecConcat(Arp.Step, Arp.INIT, arps, last);
    arps' := arps + last;
    StepSeen(start, acts, s, x, arps, last);
    StepKeepsDevices(s, x, t);
  }

  /** Every run is such a run of the model of address requests. */
  lemma {:induction false} RunMatchesArp(start: State, acts: seq<Action>, t: State) returns (arps: seq<Arp.Action>, a: Arp.State)
    requires Start(start) && Exec(Step, start, acts) == Some(t)
    ensures ArpRun(start, acts, t, arps, a)
  {
    if acts == [] {
      ArpRunStarts(start);
      arps, a := [], Arp.INIT;
    } else {
      var init, x := acts[..|acts| - 1], acts[|acts| - 1];
      var m := Exec(Step, start, init).value;
      var first, b := RunMatchesArp(start, init, m);
      arps, a := ArpRunGrows(start, init, m, first, b, x, t);
      assert acts == init + [x];
    }
  }

  /** The addresses asked for in a run, one for each call of `get_mac`. */
  function AskedBy(acts: seq<Action>): seq<Ip> {
    if acts == [] then []
    else AskedBy(acts[..|acts| - 1]) + if acts[|acts| - 1].GetMac? then [acts[|acts| - 1].ip] else []
  }

  lemma IpsStay(s: State, x: Action, s': State)
    requires Step(s, x) == Some(s')
    ensures |s'.calls| == |s.calls| + if x.GetMac? then 1 else 0
    ensures forall q: nat :: q < |s.calls| ==> s'.calls[q].ip == s.calls[q].ip
    ensures x.GetMac? ==> s'.calls[|s.calls|].ip == x.ip
  {}

  lemma {:induction false} CallsAreAsked(start: State, acts: seq<Action>, t: State)
    requires Start(start) && Exec(Step, start, acts) == Some(t)
    ensures |t.calls| == |AskedBy(acts)| && forall q: nat :: q < |t.calls| ==> t.calls[q].ip == AskedBy(acts)[q]
  {
    if acts != [] {
      var m := Exec(Step, start, acts[..|acts| - 1]).value;
      CallsAreAsked(start, acts[..|acts| - 1], m);
      IpsStay(m, acts[|acts| - 1], t);
    }
  }

  lemma ResponsesSeen(start: State, acts: seq<Action>, arps: seq<Arp.Action>, a: Arp.State, ip: Ip, mac: Mac)
    requires Exec(Arp.Step, Arp.INIT, arps) == Some(a) && AllSeen(start, acts, arps) && (ip, mac) in a.responses
    ensures Seen(start, acts, ip, mac)
  {
    Arp.ResponsesArrived(arps, a);
    var i: nat :| i < |a.responses| && a.responses[i] == (ip, mac);
    assert Arp.Arrived(arps, ip, mac);
  }

  /** From raw frames on: each call of `get_mac` gets at most one answer, an address it returns
      was carried by an ARP response frame from the ip it asked for, and every address in the map
      by one from its ip. */
  lemma RepliesFromFrames(start: State, acts: seq<Action>, t: State)
    requires Start(start) && Exec(Step, start, acts) == Some(t)
    ensures |t.calls| == |AskedBy(acts)|
    ensures forall q: nat :: q < |t.calls| ==> |t.calls[q].values| <= 1
    ensures forall q: nat :: q < |t.calls| && t.calls[q].result.Some? && t.calls[q].result.value.Some? ==>
              Seen(start, acts, AskedBy(acts)[q], t.calls[q].result.value.value)
    ensures forall ip :: ip in t.net.ips ==> Seen(start, acts, ip, t.net.ips[ip])
  {
    var arps, a := RunMatchesArp(start, acts, t);
    CallsAreAsked(start, acts, t);
    Arp.ReachableLearned(arps, a);
    forall q: nat | q < |t.calls| ensures |t.calls[q].values| <= 1 { Arp.AtMostOneReply(arps, a, q); }
    forall q: nat | q < |t.calls| && t.calls[q].result.Some? && t.calls[q].result.value.Some?
      ensures Seen(start, acts, AskedBy(acts)[q], t.calls[q].result.value.value)
    {
      Arp.AtMostOneReply(arps, a, q);
      ResponsesSeen(start, acts, arps, a, t.calls[q].ip, t.calls[q].result.value.value);
    }
    forall ip | ip in t.net.ips ensures Seen(start, acts, ip, t.net.ips[ip]) {
      Arp.LearnedFrom(a.responses, ip);
      ResponsesSeen(start, acts, arps, a, ip, t.net.ips[ip]);
    }
  }

  /** An ARP response frame makes the handler panic if and only if the caller waiting for its
      sender is gone. */
  lemma ResponsePanicsIffDropped(start: State, acts: seq<Action>, s: State, ip: Ip, mac: Mac)
    requires Start(start) && Exec(Step, start, acts) == Some(s) && s.waking.None? && s.queue != [] && s.queue[0].Packet?
    requires EventOf(s.build, s.net.devices, s.queue[0]) == Handler.ArpResponse(ip, mac)
    ensures Step(s, HandleNext).None? <==> ip in s.net.arp && s.net.arp[ip] < |s.calls| && s.calls[s.net.arp[ip]].dropped
  {
    var arps, a := RunMatchesArp(start, acts, s);
    ReachableRegistered(arps, a);
    var b := HeadOfArp(s, a);
    var a' := FrameMatchesArp(s.(queue := s.queue[1..]), s.queue[0].id, s.queue[0].frame, b);
    Arp.PanicsIffDropped(arps, a);
  }

  // ---- Which frames complete a ping ----

  /** The addresses pinged in a run, one for each future. */
  ghost function PingsOf(start: State, acts: seq<Action>): seq<(Ip, Mac)>
    requires Exec(Step, start, acts).Some?
  {
    if acts == [] then []
    else
      var init, a := acts[..|acts| - 1], acts[|acts| - 1];
      var m, t := Exec(Step, start, init).value, Exec(Step, start, acts).value;
      PingsOf(start, init) + if a.Poll? && a.next.Some? && |t.futures| > |m.futures| then [a.next.value] else []
  }

  /** Among the frames that arrived was an echo reply from this address. */
  ghost predicate Replied(start: State, acts: seq<Action>, ip: Ip) {
    exists i: nat :: i < |acts| && acts[i].Arrive?
                     && EventOf(start.build, start.net.devices, Packet(acts[i].id, acts[i].frame)) == Handler.EchoReply(ip)
  }

  ghost predicate AllReplied(start: State, acts: seq<Action>, pings: seq<Ping.Action>) {
    forall i: nat :: i < |pings| && pings[i].Arrive? ==> Replied(start, acts, pings[i].source)
  }

  lemma RepliedMore(start: State, acts: seq<Action>, x: Action, ip: Ip)
    requires Replied(start, acts, ip)
             || (x.Arrive? && EventOf(start.build, start.net.devices, Packet(x.id, x.frame)) == Handler.EchoReply(ip))
    ensures Replied(start, acts + [x], ip)
  {
    if Replied(start, acts, ip) {
      var i: nat :| i < |acts| && acts[i].Arrive?
                    && EventOf(start.build, start.net.devices, Packet(acts[i].id, acts[i].frame)) == Handler.EchoReply(ip);
      assert (acts + [x])[i] == acts[i];
    } else {
      assert (acts + [x])[|acts|] == x;
    }
  }

  lemma StepReplied(start: State, acts: seq<Action>, s: State, x: Action, pings: seq<Ping.Action>, last: seq<Ping.Action>)
    requires AllReplied(start, acts, pings) && PingStands(s, x, last) && s.build == start.build && SameDevices(s.net.devices, start.net.devices)
    ensures AllReplied(start, acts + [x], pings + last)
  {
    forall i: nat | i < |pings + last| && (pings + last)[i].Arrive? ensures Replied(start, acts + [x], (pings + last)[i].source) {
      if i >= |pings| { SameEvent(s.build, s.net.devices, start.net.devices, Packet(x.id, x.frame)); }
      RepliedMore(start, acts, x, (pings + last)[i].source);
    }
  }

  /** One more step of the ping system pings the same address, if any. */
  lemma StepPings(pings: seq<Ping.Action>, p: Ping.State, last: seq<Ping.Action>, q: Ping.State, next: Option<(Ip, Mac)>)
    requires Exec(Ping.Step, Ping.INIT, pings) == Some(p) && PingTakes(p, last, q)
    requires if next.Some? then last == [Ping.Poll(next)] else forall i: nat :: i < |last| ==> last[i].Poll? ==> last[i].next.None?
    ensures Exec(Ping.Step, Ping.INIT, pings + last) == Some(q)
    ensures Ping.PingsOf(pings + last) == Ping.PingsOf(pings) + if next.Some? && |q.futures| > |p.futures| then [next.value] else []
  {
    if last == [] {
      assert pings + last == pings;
    } else {
      assert last == [last[0]];
      Ping.PingsOfNext(pings, p, last[0], q);
    }
  }

  /** A run of the ping system that matches this one, pings the same addresses, and whose replies
      are echo reply frames that arrived. */
  ghost predicate PingRun(start: State, acts: seq<Action>, t: State, who: seq<(Ip, Mac)>, pings: seq<Ping.Action>, q: Ping.State) {
    && Exec(Ping.Step, Ping.INIT, pings) == Some(q) && MatchPing(t, q) && Ping.PingsOf(pings) == who
    && AllReplied(start, acts, pings) && t.build == start.build && SameDevices(t.net.devices, start.net.devices)
  }

  lemma PingRunGrows(start: State, acts: seq<Action>, s: State, who: seq<(Ip, Mac)>, pings: seq<Ping.Action>, p: Ping.State, x: Action, t: State)
    returns (pings': seq<Ping.Action>, q: Ping.State)
    requires PingRun(start, acts, s, who, pings, p) && Step(s, x) == Some(t)
    ensures PingRun(start, acts + [x], t, who + (if x.Poll? && x.next.Some? && |t.futures| > |s.futures| then [x.next.value] else []), pings', q)
  {
    ReachableBound(pings, p);
    var last;
    last, q := StepMatchesPing(s, x, t, p);
    StepPings(pings, p, last, q, if x.Poll? then x.next else None);
    pings' := pings + last;
    StepReplied(start, acts, s, x, pings, last);
    StepKeepsDevices(s, x, t);
  }

  lemma PingRunStarts(start: State)
    requires Start(start)
    ensures PingRun(start, [], start, [], [], Ping.INIT)
  {}

  lemma PingsOfNext(start: State, init: seq<Action>, m: State, x: Action, t: State)
    requires Exec(Step, start, init) == Some(m) && Step(m, x) == Some(t)
    ensures Exec(Step, start, init + [x]) == Some(t)
    ensures PingsOf(start, init + [x])
            == PingsOf(start, init) + if x.Poll? && x.next.Some? && |t.futures| > |m.futures| then [x.next.value] else []
  {
    ExecThen(Step, start, init, m, x, t);
    assert (init + [x])[..|init|] == init;
  }

  /** Every run is such a run of the ping system. */
  lemma {:induction false} RunPings(start: State, acts: seq<Action>, t: State) returns (pings: seq<Ping.Action>, q: Ping.State)
    requires Start(start) && Exec(Step, start, acts) == Some(t)
    ensures PingRun(start, acts, t, PingsOf(start, acts), pings, q)
  {
    if acts == [] {
      PingRunStarts(start);
      pings, q := [], Ping.INIT;
    } else {
      var init, x := acts[..|acts| - 1], acts[|acts| - 1];
      var m := Exec(Step, start, init).value;
      var first, r := RunPings(start, init, m);
      pings, q := PingRunGrows(start, init, m, PingsOf(start, init), first, r, x, t);
      PingsOfNext(start, init, m, x, t);
      assert acts == init + [x];
    }
  }

  /** Whatever frames arrive, a ping that was answered was answered by an echo reply frame that
      arrived from the address it pinged. */
  lemma AnswersFromFrames(start: State, acts: seq<Action>, t: State)
    requires Start(start) && Exec(Step, start, acts) == Some(t)
    ensures |PingsOf(start, acts)| == |t.futures|
    ensures forall f: nat :: f < |t.futures| && t.futures[f].returned ==> Replied(start, acts, PingsOf(start, acts)[f].0)
  {
    var pings, q := RunPings(start, acts, t);
    Ping.AnsweredByItsAddress(pings, q);
    forall f: nat | f < |t.futures| && t.futures[f].returned ensures Replied(start, acts, PingsOf(start, acts)[f].0) {
      assert Ping.Arrived(pings, PingsOf(start, acts)[f].0);
    }
  }

  /** And an echo reply frame that is handled completes exactly the registered pings to the
      address it is from. */
  lemma ReplyFrameCompletes(start: State, acts: seq<Action>, s: State, s': State, f: nat, e: Handler.Event)
    requires Start(start) && Exec(Step, start, acts) == Some(s) && Step(s, HandleNext) == Some(s') && s.queue[0].Packet?
    requires f < |s.futures| && !s.futures[f].returned && e == EventOf(s.build, s.net.devices, s.queue[0])
    ensures |PingsOf(start, acts)| == |s.futures| && |s'.futures| == |s.futures|
    ensures s'.futures[f].returned <==> e == Handler.EchoReply(PingsOf(start, acts)[f].0) && Ping.InTable(s.net.ping, f)
  {
    var pings, p := RunPings(start, acts, s);
    MatchedCompletes(pings, p, PingsOf(start, acts), s, s', f, e);
  }

  lemma MatchedCompletes(pings: seq<Ping.Action>, p: Ping.State, who: seq<(Ip, Mac)>, s: State, s': State, f: nat, e: Handler.Event)
    requires Exec(Ping.Step, Ping.INIT, pings) == Some(p) && MatchPing(s, p) && who == Ping.PingsOf(pings)
    requires Step(s, HandleNext) == Some(s') && s.queue[0].Packet? && e == EventOf(s.build, s.net.devices, s.queue[0])
    requires f < |s.futures| && !s.futures[f].returned
    ensures |who| == |s.futures| && |s'.futures| == |s.futures|
    ensures s'.futures[f].returned <==> e == Handler.EchoReply(who[f].0) && Ping.InTable(s.net.ping, f)
  {
    ReachableBound(pings, p);
    FrameCompletes(s, s', p);
    if e.EchoReply? { Ping.RepliesCompleteExactly(pings, p, f); } else { Ping.ReachableAddressed(pings, p); }
  }

  /** An echo reply frame changes the futures as its reply does in the ping system; no other
      frame changes them. */
  lemma FrameCompletes(s: State, s': State, p: Ping.State)
    requires MatchPing(s, p) && Bound(p) && Step(s, HandleNext) == Some(s') && s.queue[0].Packet?
    ensures var e := EventOf(s.build, s.net.devices, s.queue[0]);
            if e.EchoReply? then
              && Ping.Step(p, Ping.HandleNext).Some? && p.messages[0] == Ping.EchoReply(e.source)
              && s'.futures == Ping.Step(p, Ping.HandleNext).value.futures
            else s'.futures == s.futures
  {
    var h := HeadOfPing(s, p);
    var p' := FrameMatchesPing(s.(queue := s.queue[1..]), s.queue[0].id, s.queue[0].frame, s', h);
  }

  // ---- The message queue ----

  function Handled(acts: seq<Action>): nat {
    if acts == [] then 0 else Handled(acts[..|acts| - 1]) + if acts[|acts| - 1].HandleNext? then 1 else 0
  }

  /** The messages a step sends to the handler, if n addresses were asked for before it: a frame
      that arrives, a call, or what a poll sends. */
  ghost function SentBy(s: State, a: Action, t: State, n: nat): seq<Message> {
    match a
    case Arrive(id, frame) => [Packet(id, frame)]
    case GetMac(ip) => [AskFor(ip, n)]
    case Poll(_) => if |t.queue| > |s.queue| then t.queue[|s.queue|..] else []
    case _ => []
  }

  /** All messages sent to the handler in a run. */
  ghost function MessagesOf(start: State, acts: seq<Action>): seq<Message>
    requires Exec(Step, start, acts).Some?
  {
    if acts == [] then []
    else
      var init := acts[..|acts| - 1];
      MessagesOf(start, init)
      + SentBy(Exec(Step, start, init).value, acts[|acts| - 1], Exec(Step, start, acts).value, |AskedBy(init)|)
  }

  lemma StepQueues(s: State, a: Action, t: State)
    requires Step(s, a) == Some(t)
    ensures a.HandleNext? ==> s.queue != [] && t.queue == s.queue[1..]
    ensures !a.HandleNext? ==> t.queue == s.queue + SentBy(s, a, t, |s.calls|)
  {}

  /** What waits is what was sent and not yet taken. */
  ghost predicate Waiting(queue: seq<Message>, all: seq<Message>, n: nat) {
    n <= |all| && queue == all[n..]
  }

  lemma WaitingMoves(s: State, a: Action, t: State, all: seq<Message>, n: nat)
    requires Step(s, a) == Some(t) && Waiting(s.queue, all, n)
    ensures Waiting(t.queue, all + SentBy(s, a, t, |s.calls|), n + if a.HandleNext? then 1 else 0)
  {
    StepQueues(s, a, t);
    QueueMoves(all, n, SentBy(s, a, t, |s.calls|));
  }

  lemma MessagesOfNext(start: State, init: seq<Action>, m: State, a: Action, t: State)
    requires Exec(Step, start, init) == Some(m) && Step(m, a) == Some(t)
    ensures Exec(Step, start, init + [a]) == Some(t)
    ensures MessagesOf(start, init + [a]) == MessagesOf(start, init) + SentBy(m, a, t, |AskedBy(init)|)
    ensures Handled(init + [a]) == Handled(init) + if a.HandleNext? then 1 else 0
  {
    ExecThen(Step, start, init, m, a, t);
    assert (init + [a])[..|init|] == init;
  }

  ghost predicate InOrder(start: State, acts: seq<Action>, t: State)
    requires Exec(Step, start, acts).Some?
  {
    Waiting(t.queue, MessagesOf(start, acts), Handled(acts))
  }

  lemma OrderGrows(start: State, acts: seq<Action>, m: State, t: State)
    requires acts != [] && Start(start) && Exec(Step, start, acts[..|acts| - 1]) == Some(m) && InOrder(start, acts[..|acts| - 1], m)
    requires Step(m, acts[|acts| - 1]) == Some(t)
    ensures Exec(Step, start, acts) == Some(t) && InOrder(start, acts, t)
  {
    var init, a := acts[..|acts| - 1], acts[|acts| - 1];
    CallsAreAsked(start, init, m);
    WaitingMoves(m, a, t, MessagesOf(start, init), Handled(init));
    MessagesOfNext(start, init, m, a, t);
    assert acts == init + [a];
  }

  /** The handler takes the messages in the order they were sent, and none is lost. */
  lemma {:induction false} MessagesInOrder(start: State, acts: seq<Action>, t: State)
    requires Start(start) && Exec(Step, start, acts) == Some(t)
    ensures InOrder(start, acts, t)
  {
    if acts != [] {
      var m := Exec(Step, start, acts[..|acts| - 1]).value;
      MessagesInOrder(start, acts[..|acts| - 1], m);
      OrderGrows(start, acts, m, t);
    }
  }
}
