/** Ping requests end to end: the futures, the network handler's table of pending pings and the
    executor that polls the tasks awaiting them, composed into one transition system. */
module Ping {
  import opened Bytes
  import opened Runs
  import Executor

  /** A ping future as the source stores it, with the task that awaits it. `ready` records
      that a poll of it returned Ready. */
  datatype Future = Future(ip: Option<Ip>, mac: Option<Mac>, send: bool, returned: bool, task: nat, ready: bool)

  /** A waker for `task` and the flag of future `f`. */
  datatype Binding = Binding(task: nat, f: nat)

  datatype Message = Request(ip: Ip, mac: Mac, to: Binding) | EchoReply(source: Ip)

  /** `current` maps a task to the future it awaits. `waking` is set between storing the flag
      and calling the waker. Histories: `lost` are futures whose table entry was overwritten,
      `requests` the futures that sent a request, `completed` those whose flag was stored. */
  datatype State = State(exec: Executor.State, futures: seq<Future>, current: map<nat, nat>,
                         messages: seq<Message>, table: map<Ip, Binding>, waking: Option<Binding>, panicked: bool,
                         lost: set<nat>, requests: seq<nat>, completed: seq<nat>, replies: nat)

  const INIT := State(Executor.INIT, [], map[], [], map[], None, false, {}, [], [], 0)

  /** An executor step; the poll of the task that was found, which may go on to ping `next`;
      the arrival of a reply; the handler taking a message; the handler calling a waker. */
  datatype Action = Run(a: Executor.Action) | Poll(next: Option<(Ip, Mac)>) | Arrive(source: Ip) | HandleNext | CallWaker

  /** Poll future f. */
  function PollFuture(s: State, f: nat): State
    requires f < |s.futures|
  {
    var p := s.futures[f];
    if p.returned then s.(futures := s.futures[f := p.(ready := true)], current := s.current - {p.task})
    else if p.send then s
    else if p.mac.None? || p.ip.None? then s.(panicked := true)
    else s.(futures := s.futures[f := p.(ip := None, mac := None, send := true)], requests := s.requests + [f],
            messages := s.messages + [Request(p.ip.value, p.mac.value, Binding(p.task, f))])
  }

  /** Poll the future the task awaits, if any. */
  function PollAwaited(s: State, task: nat): State {
    if task in s.current && s.current[task] < |s.futures| then PollFuture(s, s.current[task]) else s
  }

  /** Create a ping future and poll it for the first time. */
  function StartPing(s: State, task: nat, ip: Ip, mac: Mac): State {
    var created := Future(Some(ip), Some(mac), false, false, task, false);
    PollFuture(s.(futures := s.futures + [created], current := s.current[task := |s.futures|]), |s.futures|)
  }

  /** The poll of a task polls the future it awaits; once that is ready, or if there is none,
      the task may go on to another ping. */
  function PollTask(s: State, task: nat, next: Option<(Ip, Mac)>): State {
    var s1 := PollAwaited(s, task);
    if task in s1.current || next.None? then s1 else StartPing(s1, task, next.value.0, next.value.1)
  }

  /** The handler's reaction to one message. */
  function Handle(s: State, m: Message): State {
    match m
    case Request(ip, _, to) =>
      s.(table := s.table[ip := to], lost := if ip in s.table then s.lost + {s.table[ip].f} else s.lost)
    case EchoReply(ip) =>
      if ip !in s.table || s.table[ip].f >= |s.futures| then s.(replies := s.replies + 1)
      else
        var to := s.table[ip];
        s.(table := s.table - {ip}, waking := Some(to), futures := s.futures[to.f := s.futures[to.f].(returned := true)],
           completed := s.completed + [to.f], replies := s.replies + 1)
  }

  function Step(s: State, a: Action): Option<State> {
    match a
    case Run(e) =>
      if e.PollEnd? then None
      else (match Executor.Step(s.exec, e) case None => None case Some(x) => Some(s.(exec := x)))
    case Poll(next) =>
      if !s.exec.pc.Polling? then None
      else Some(PollTask(s, s.exec.pc.task.id, next).(exec := Executor.Step(s.exec, Executor.PollEnd).value))
    case Arrive(ip) => Some(s.(messages := s.messages + [EchoReply(ip)]))
    case HandleNext =>
      if s.waking.Some? || s.messages == [] then None
      else Some(Handle(s.(messages := s.messages[1..]), s.messages[0]))
    case CallWaker =>
      if s.waking.None? then None
      else
        (match Executor.Step(s.exec, Executor.Wake(s.waking.value.task))
         case None => None
         case Some(x) => Some(s.(exec := x, waking := None)))
  }

  // ---- The executor inside ----

  /** The executor's part of a run of the composition is a run of the executor. */
  lemma {:induction false} Projects(acts: seq<Action>, t: State) returns (es: seq<Executor.Action>)
    requires Exec(Step, INIT, acts) == Some(t)
    ensures Exec(Executor.Step, Executor.INIT, es) == Some(t.exec)
  {
    if acts == [] {
      es := [];
    } else {
      var m, a := Exec(Step, INIT, acts[..|acts| - 1]).value, acts[|acts| - 1];
      es := Projects(acts[..|acts| - 1], m);
      if a.Run? {
        ExecSnoc(Executor.Step, Executor.INIT, es, a.a);
        es := es + [a.a];
      } else if a.Poll? {
        ExecSnoc(Executor.Step, Executor.INIT, es, Executor.PollEnd);
        es := es + [Executor.PollEnd];
      } else if a.CallWaker? {
        ExecSnoc(Executor.Step, Executor.INIT, es, Executor.Wake(m.waking.value.task));
        es := es + [Executor.Wake(m.waking.value.task)];
      }
    }
  }

  // ---- Where a pending ping is ----

  ghost predicate InMessages(ms: seq<Message>, f: nat) {
    exists i: nat :: i < |ms| && ms[i].Request? && ms[i].to.f == f
  }

  ghost predicate InTable(table: map<Ip, Binding>, f: nat) {
    exists ip :: ip in table && table[ip].f == f
  }

  /** A binding on its way belongs to a future that is neither answered nor lost. */
  ghost predicate Live(fs: seq<Future>, lost: set<nat>, b: Binding) {
    b.f < |fs| && fs[b.f].task == b.task && !fs[b.f].returned && b.f !in lost
  }

  ghost predicate LiveMessages(fs: seq<Future>, ms: seq<Message>, lost: set<nat>) {
    && (forall i: nat :: i < |ms| && ms[i].Request? ==> Live(fs, lost, ms[i].to))
    && (forall i: nat, j: nat :: i < j < |ms| && ms[i].Request? && ms[j].Request? ==> ms[i].to.f != ms[j].to.f)
  }

  ghost predicate LiveTable(fs: seq<Future>, ms: seq<Message>, table: map<Ip, Binding>, lost: set<nat>) {
    && (forall ip :: ip in table ==> Live(fs, lost, table[ip]) && !InMessages(ms, table[ip].f))
    && (forall ip, ip' :: ip in table && ip' in table && ip != ip' ==> table[ip].f != table[ip'].f)
  }

  /** A ping without an answer is in exactly one place: the message queue, the table, or among
      the lost. */
  ghost predicate Located(fs: seq<Future>, ms: seq<Message>, table: map<Ip, Binding>, lost: set<nat>) {
    && LiveMessages(fs, ms, lost) && LiveTable(fs, ms, table, lost)
    && (forall f :: f in lost ==> f < |fs| && !fs[f].returned)
    && (forall f: nat :: f < |fs| && !fs[f].returned && f !in lost ==> InMessages(ms, f) || InTable(table, f))
  }

  lemma LocatedReady(fs: seq<Future>, ms: seq<Message>, table: map<Ip, Binding>, lost: set<nat>, f: nat)
    requires Located(fs, ms, table, lost) && f < |fs| && fs[f].returned
    ensures Located(fs[f := fs[f].(ready := true)], ms, table, lost)
  {}

  lemma LocatedSend(fs: seq<Future>, ms: seq<Message>, table: map<Ip, Binding>, lost: set<nat>, p: Future, m: Message)
    requires Located(fs, ms, table, lost) && m.Request? && m.to == Binding(p.task, |fs|) && !p.returned
    ensures Located(fs + [p], ms + [m], table, lost)
  {
    assert (ms + [m])[|ms|] == m;
    forall f: nat | InMessages(ms, f) ensures InMessages(ms + [m], f) {
      var i: nat :| i < |ms| && ms[i].Request? && ms[i].to.f == f;
      assert (ms + [m])[i] == ms[i];
    }
    forall f: nat | InMessages(ms + [m], f) ensures InMessages(ms, f) || f == |fs| {
      var i: nat :| i < |ms + [m]| && (ms + [m])[i].Request? && (ms + [m])[i].to.f == f;
      assert i < |ms| ==> ms[i].to.f == f;
    }
  }

  lemma LocatedArrive(fs: seq<Future>, ms: seq<Message>, table: map<Ip, Binding>, lost: set<nat>, ip: Ip)
    requires Located(fs, ms, table, lost)
    ensures Located(fs, ms + [EchoReply(ip)], table, lost)
  {
    forall f: nat ensures InMessages(ms, f) <==> InMessages(ms + [EchoReply(ip)], f) {
      if InMessages(ms, f) {
        var i: nat :| i < |ms| && ms[i].Request? && ms[i].to.f == f;
        assert (ms + [EchoReply(ip)])[i] == ms[i];
      }
    }
  }

  lemma DropFirst(ms: seq<Message>, f: nat)
    requires ms != []
    ensures InMessages(ms, f) <==> (ms[0].Request? && ms[0].to.f == f) || InMessages(ms[1..], f)
  {
    if InMessages(ms[1..], f) {
      var i: nat :| i < |ms[1..]| && ms[1..][i].Request? && ms[1..][i].to.f == f;
      assert ms[i + 1] == ms[1..][i];
    }
    if InMessages(ms, f) {
      var i: nat :| i < |ms| && ms[i].Request? && ms[i].to.f == f;
      assert i > 0 ==> ms[1..][i - 1] == ms[i];
    }
  }

  lemma LocatedInsert(fs: seq<Future>, ms: seq<Message>, table: map<Ip, Binding>, lost: set<nat>)
    requires Located(fs, ms, table, lost) && ms != [] && ms[0].Request?
    ensures var ip := ms[0].ip;
            Located(fs, ms[1..], table[ip := ms[0].to], if ip in table then lost + {table[ip].f} else lost)
  {
    var ip, to := ms[0].ip, ms[0].to;
    var table', lost' := table[ip := to], if ip in table then lost + {table[ip].f} else lost;
    assert InMessages(ms, to.f);
    forall f: nat ensures InMessages(ms, f) <==> f == to.f || InMessages(ms[1..], f) { DropFirst(ms, f); }
    forall i: nat | i < |ms[1..]| && ms[1..][i].Request? ensures Live(fs, lost', ms[1..][i].to) {
      assert ms[i + 1] == ms[1..][i];
      assert InMessages(ms, ms[i + 1].to.f);
    }
    assert table'[ip].f == to.f;
    forall f: nat | f < |fs| && !fs[f].returned && f !in lost' ensures InMessages(ms[1..], f) || InTable(table', f) {
      if InTable(table, f) {
        var other :| other in table && table[other].f == f;
        assert table'[other].f == f;
      }
    }
  }

  lemma LocatedReply(fs: seq<Future>, ms: seq<Message>, table: map<Ip, Binding>, lost: set<nat>, ip: Ip)
    requires Located(fs, ms, table, lost) && ms != [] && !ms[0].Request?
    ensures Located(fs, ms[1..], table, lost)
    ensures ip in table ==> Located(fs[table[ip].f := fs[table[ip].f].(returned := true)], ms[1..], table - {ip}, lost)
  {
    forall f: nat ensures InMessages(ms, f) <==> InMessages(ms[1..], f) { DropFirst(ms, f); }
    if ip in table {
      var b := table[ip];
      var fs' := fs[b.f := fs[b.f].(returned := true)];
      forall i: nat | i < |ms[1..]| && ms[1..][i].Request? ensures Live(fs', lost, ms[1..][i].to) {
        assert ms[i + 1] == ms[1..][i];
        assert InMessages(ms, ms[i + 1].to.f);
      }
      forall f: nat | f < |fs| && !fs'[f].returned && f !in lost ensures InMessages(ms[1..], f) || InTable(table - {ip}, f) {
        if InTable(table, f) {
          var other :| other in table && table[other].f == f;
          assert (table - {ip})[other].f == f;
        }
      }
    }
  }

  /** Each unfinished future is the one its task awaits, and has sent its one request. */
  ghost predicate Awaited(s: State) {
    && !s.panicked
    && (forall t :: t in s.current ==>
          s.current[t] < |s.futures| && s.futures[s.current[t]].task == t && !s.futures[s.current[t]].ready)
    && (forall f: nat :: f < |s.futures| ==>
          && s.futures[f].send
          && (s.futures[f].ready ==> s.futures[f].returned)
          && (!s.futures[f].ready ==> s.futures[f].task in s.current && s.current[s.futures[f].task] == f))
    && |s.requests| == |s.futures|
    && (forall i: nat :: i < |s.requests| ==> s.requests[i] == i)
  }

  /** Id `task` is on the run queue or being handled by the run loop. */
  ghost predicate Due(e: Executor.State, task: nat) {
    || task in e.runQueue
    || (Executor.InFlight(e) && e.pc.id == task)
    || (e.pc.Polling? && e.pc.task.id == task)
  }

  /** Whoever was answered and does not know yet is about to be woken or polled. */
  ghost predicate Woken(s: State) {
    && (forall f: nat :: f < |s.futures| ==> s.futures[f].task in s.exec.wakers)
    && (forall f: nat :: f < |s.futures| && s.futures[f].returned && !s.futures[f].ready ==>
          s.waking == Some(Binding(s.futures[f].task, f)) || Due(s.exec, s.futures[f].task))
    && (s.waking.Some? ==> s.waking.value.f < |s.futures| && s.futures[s.waking.value.f].task == s.waking.value.task)
    && (s.exec.pc.Polling? ==> s.exec.pc.task.id in s.exec.wakers)
  }

  /** One reply completes at most one future, and no future is completed twice. */
  ghost predicate Counted(s: State) {
    && |s.completed| <= s.replies
    && (forall i: nat :: i < |s.completed| ==> s.completed[i] < |s.futures| && s.futures[s.completed[i]].returned)
    && (forall i: nat, j: nat :: i < j < |s.completed| ==> s.completed[i] != s.completed[j])
  }

  ghost predicate Inv(s: State) {
    Located(s.futures, s.messages, s.table, s.lost) && Awaited(s) && Woken(s) && Counted(s)
  }

  /** After the awaited future was polled, no answered future of this task is left waiting. */
  lemma PollAwaitedKeeps(s: State, task: nat)
    requires Inv(s)
    ensures Inv(PollAwaited(s, task)) && PollAwaited(s, task).exec == s.exec
    ensures UpToDate(PollAwaited(s, task).futures, task)
  {
    if task in s.current && s.futures[s.current[task]].returned {
      LocatedReady(s.futures, s.messages, s.table, s.lost, s.current[task]);
    }
  }

  lemma StartPingKeeps(s: State, task: nat, ip: Ip, mac: Mac)
    requires Inv(s) && task !in s.current && task in s.exec.wakers
    ensures Inv(StartPing(s, task, ip, mac)) && StartPing(s, task, ip, mac).exec == s.exec
    ensures var s' := StartPing(s, task, ip, mac);
            && |s'.futures| == |s.futures| + 1 && !s'.futures[|s.futures|].returned
            && forall f: nat :: f < |s.futures| ==> s'.futures[f] == s.futures[f]
  {
    var s' := StartPing(s, task, ip, mac);
    var sent := Future(None, None, true, false, task, false);
    LocatedSend(s.futures, s.messages, s.table, s.lost, sent, Request(ip, mac, Binding(task, |s.futures|)));
    assert s'.futures == s.futures + [sent];
    assert s'.messages == s.messages + [Request(ip, mac, Binding(task, |s.futures|))];
  }

  /** No answered future of this task is left waiting. */
  ghost predicate UpToDate(fs: seq<Future>, task: nat) {
    forall f: nat :: f < |fs| && fs[f].task == task && fs[f].returned ==> fs[f].ready
  }

  lemma PollEndKeeps(s: State)
    requires Inv(s) && s.exec.pc.Polling? && UpToDate(s.futures, s.exec.pc.task.id)
    ensures Inv(s.(exec := Executor.Step(s.exec, Executor.PollEnd).value))
  {}

  lemma PollTaskKeeps(s: State, task: nat, next: Option<(Ip, Mac)>)
    requires Inv(s) && task in s.exec.wakers
    ensures var s' := PollTask(s, task, next); Inv(s') && s'.exec == s.exec && UpToDate(s'.futures, task)
  {
    PollAwaitedKeeps(s, task);
    var s1 := PollAwaited(s, task);
    if task !in s1.current && next.Some? { StartPingKeeps(s1, task, next.value.0, next.value.1); }
  }

  lemma PollKeeps(s: State, next: Option<(Ip, Mac)>)
    requires Inv(s) && s.exec.pc.Polling?
    ensures Inv(Step(s, Poll(next)).value)
  {
    PollTaskKeeps(s, s.exec.pc.task.id, next);
    PollEndKeeps(PollTask(s, s.exec.pc.task.id, next));
  }

  /** An executor step other than a failed lookup loses no id that is due. */
  lemma RunKeeps(s: State, a: Executor.Action)
    requires Inv(s) && Step(s, Run(a)).Some?
    requires a.Find? ==> Executor.FindTask(s.exec.tasks, s.exec.pc.id).Some?
    ensures Inv(Step(s, Run(a)).value)
  {
    var e, e' := s.exec, Step(s, Run(a)).value.exec;
    assert e.wakers <= e'.wakers;
    forall t | Due(e, t) ensures Due(e', t) {
      if t in e.runQueue {
        var i :| 0 <= i < |e.runQueue| && e.runQueue[i] == t;
        if a.Dequeue? { assert i > 0 ==> e'.runQueue[i - 1] == t; } else { assert e'.runQueue[i] == t; }
      }
    }
  }

  lemma HandleRequestKeeps(s: State)
    requires Inv(s) && Step(s, HandleNext).Some? && s.messages[0].Request?
    ensures Inv(Step(s, HandleNext).value)
  {
    LocatedInsert(s.futures, s.messages, s.table, s.lost);
  }

  lemma ReplyAwaited(s: State, ip: Ip)
    requires Awaited(s)
    ensures Awaited(Handle(s, EchoReply(ip)))
  {}

  lemma ReplyWoken(s: State, ip: Ip)
    requires Woken(s) && s.waking.None? && LiveTable(s.futures, s.messages, s.table, s.lost)
    ensures Woken(Handle(s, EchoReply(ip)))
  {
    if ip in s.table { assert Live(s.futures, s.lost, s.table[ip]); }
  }

  lemma ReplyCounted(s: State, ip: Ip)
    requires Counted(s) && LiveTable(s.futures, s.messages, s.table, s.lost)
    ensures Counted(Handle(s, EchoReply(ip)))
  {
    if ip in s.table { assert Live(s.futures, s.lost, s.table[ip]); }
  }

  lemma HandleReplyKeeps(s: State)
    requires Inv(s) && Step(s, HandleNext).Some? && !s.messages[0].Request?
    ensures Inv(Step(s, HandleNext).value)
  {
    var rest, ip := s.(messages := s.messages[1..]), s.messages[0].source;
    LocatedReply(s.futures, s.messages, s.table, s.lost, ip);
    ReplyAwaited(rest, ip);
    ReplyWoken(rest, ip);
    ReplyCounted(rest, ip);
  }

  lemma HandleKeeps(s: State)
    requires Inv(s) && Step(s, HandleNext).Some?
    ensures Inv(Step(s, HandleNext).value)
  {
    if s.messages[0].Request? { HandleRequestKeeps(s); } else { HandleReplyKeeps(s); }
  }

  lemma CallWakerKeeps(s: State)
    requires Inv(s) && s.waking.Some?
    ensures Step(s, CallWaker).Some? && Inv(Step(s, CallWaker).value)
  {
    var task := s.waking.value.task;
    var e, e' := s.exec, Step(s, CallWaker).value.exec;
    assert e'.runQueue[|e.runQueue|] == task;
    forall t | t in e.runQueue ensures t in e'.runQueue {
      var i :| 0 <= i < |e.runQueue| && e.runQueue[i] == t;
      assert e'.runQueue[i] == t;
    }
  }

  lemma {:induction false} Reachable(acts: seq<Action>, t: State)
    requires Exec(Step, INIT, acts) == Some(t)
    ensures Inv(t)
  {
    if acts != [] {
      var init, a := acts[..|acts| - 1], acts[|acts| - 1];
      var m := Exec(Step, INIT, init).value;
      Reachable(init, m);
      match a
      case Run(e) =>
        var es := Projects(init, m);
        Executor.LookupNeverFails(es, m.exec);
        RunKeeps(m, e);
      case Poll(next) => PollKeeps(m, next);
      case Arrive(ip) => LocatedArrive(m.futures, m.messages, m.table, m.lost, ip);
      case HandleNext => HandleKeeps(m);
      case CallWaker => CallWakerKeeps(m);
    }
  }

  // ---- The results ----

  /** In every run: the `expect` calls never fail, each future sends exactly one request,
      replies complete at most one future each and none twice, and a waker that is to be called
      can be called. */
  lemma OneRequestOneCompletion(acts: seq<Action>, t: State)
    requires Exec(Step, INIT, acts) == Some(t)
    ensures !t.panicked
    ensures |t.requests| == |t.futures| && forall f: nat :: f < |t.futures| ==> t.requests[f] == f
    ensures |t.completed| <= t.replies
    ensures forall i: nat, j: nat :: i < j < |t.completed| ==> t.completed[i] != t.completed[j]
    ensures t.waking.Some? ==> Step(t, CallWaker).Some?
  {
    Reachable(acts, t);
    if t.waking.Some? { CallWakerKeeps(t); }
  }

  /** In every run an unanswered ping is queued, in the table, or lost, and in one of these
      only; the handler loses one exactly when it takes a second ping to the same address. */
  lemma LostIffSecondPing(acts: seq<Action>, s: State)
    requires Exec(Step, INIT, acts) == Some(s)
    ensures forall f: nat :: f < |s.futures| && !s.futures[f].returned ==>
              && (f in s.lost || InMessages(s.messages, f) || InTable(s.table, f))
              && !(InMessages(s.messages, f) && InTable(s.table, f))
              && (f in s.lost ==> !InMessages(s.messages, f) && !InTable(s.table, f))
    ensures Step(s, HandleNext).Some? ==>
              (Step(s, HandleNext).value.lost != s.lost <==> s.messages[0].Request? && s.messages[0].ip in s.table)
  {
    Reachable(acts, s);
    if s.messages != [] && s.messages[0].Request? && s.messages[0].ip in s.table {
      assert Live(s.futures, s.lost, s.table[s.messages[0].ip]);
    }
  }

  lemma LostKept(s: State, a: Action)
    requires Step(s, a).Some?
    ensures s.lost <= Step(s, a).value.lost
  {}

  lemma {:induction false} LostGrows(s: State, acts: seq<Action>, t: State)
    requires Exec(Step, s, acts) == Some(t)
    ensures s.lost <= t.lost
  {
    if acts != [] {
      var m := Exec(Step, s, acts[..|acts| - 1]).value;
      LostGrows(s, acts[..|acts| - 1], m);
      LostKept(m, acts[|acts| - 1]);
    }
  }

  /** A lost ping never becomes ready. */
  lemma LostForever(before: seq<Action>, s: State, after: seq<Action>, t: State, f: nat)
    requires Exec(Step, INIT, before) == Some(s) && f in s.lost && Exec(Step, s, after) == Some(t)
    ensures f < |t.futures| && !t.futures[f].ready
  {
    ExecConcat(Step, INIT, before, after);
    Reachable(before + after, t);
    LostGrows(s, after, t);
  }

  /** Number of polls that have come to an end. */
  function Finished(e: Executor.State): int {
    |e.polled| - if e.pc.Polling? then 1 else 0
  }

  /** Future f is ready, or its task has the turn number `at` still to come. */
  ghost predicate Waits(s: State, f: nat, at: nat) {
    && f < |s.futures| && s.futures[f].returned
    && (s.futures[f].ready ||
        (Finished(s.exec) <= at < |s.exec.enqueued| && s.exec.enqueued[at] == s.futures[f].task))
  }

  lemma ExecInTurn(acts: seq<Action>, t: State)
    requires Exec(Step, INIT, acts) == Some(t)
    ensures Executor.InTurn(t.exec)
  {
    var es := Projects(acts, t);
    Executor.ReachableInTurn(es);
  }

  lemma DueHasTurn(e: Executor.State, task: nat) returns (at: nat)
    requires Executor.InTurn(e) && Due(e, task)
    ensures Finished(e) <= at < |e.enqueued| && e.enqueued[at] == task
  {
    if task in e.runQueue {
      var k :| 0 <= k < |e.runQueue| && e.runQueue[k] == task;
      at := |e.taken| + k;
      assert (e.taken + e.runQueue)[at] == task;
    } else {
      at := |e.taken| - 1;
      assert (e.taken + e.runQueue)[at] == e.taken[at];
    }
  }

  /** Polls keep tasks and answers, and never take readiness back. */
  lemma PollTaskFrame(s: State, task: nat, next: Option<(Ip, Mac)>, f: nat)
    requires Awaited(s) && f < |s.futures|
    ensures var fs := PollTask(s, task, next).futures;
            && f < |fs| && fs[f].returned == s.futures[f].returned && fs[f].task == s.futures[f].task
            && (s.futures[f].ready ==> fs[f].ready)
  {}

  lemma PollUpdates(s: State, next: Option<(Ip, Mac)>, f: nat)
    requires Inv(s) && s.exec.pc.Polling? && f < |s.futures| && s.futures[f].returned
    ensures var s' := Step(s, Poll(next)).value;
            && f < |s'.futures| && s'.futures[f].returned && s'.futures[f].task == s.futures[f].task
            && (s.futures[f].ready || s.exec.pc.task.id == s.futures[f].task ==> s'.futures[f].ready)
  {
    PollTaskFrame(s, s.exec.pc.task.id, next, f);
    PollTaskKeeps(s, s.exec.pc.task.id, next);
  }

  /** The turn only passes with a poll, and that poll returns Ready. */
  lemma PollWaits(s: State, next: Option<(Ip, Mac)>, f: nat, at: nat)
    requires Inv(s) && Executor.InTurn(s.exec) && Waits(s, f, at) && s.exec.pc.Polling?
    ensures Waits(Step(s, Poll(next)).value, f, at)
  {
    PollUpdates(s, next, f);
    if Finished(s.exec) == at {
      var e := s.exec;
      assert e.polled[at].id == e.taken[at] == (e.taken + e.runQueue)[at];
    }
  }

  /** A step of the executor other than the end of a poll. */
  lemma ExecutorWaits(e: Executor.State, a: Executor.Action)
    requires Executor.Step(e, a).Some? && !a.PollEnd?
    ensures var e' := Executor.Step(e, a).value; Finished(e') == Finished(e) && e.enqueued <= e'.enqueued
  {}

  lemma WaitsKept(s: State, a: Action, f: nat, at: nat)
    requires Inv(s) && Executor.InTurn(s.exec) && Waits(s, f, at) && Step(s, a).Some?
    ensures Waits(Step(s, a).value, f, at)
  {
    match a
    case Poll(next) => PollWaits(s, next, f, at);
    case Run(e) => ExecutorWaits(s.exec, e);
    case CallWaker => ExecutorWaits(s.exec, Executor.Wake(s.waking.value.task));
    case _ =>
  }

  lemma {:induction false} WaitsThroughout(before: seq<Action>, s: State, after: seq<Action>, t: State, f: nat, at: nat)
    requires Exec(Step, INIT, before) == Some(s) && Exec(Step, s, after) == Some(t) && Waits(s, f, at)
    ensures Waits(t, f, at)
  {
    if after != [] {
      var init, a := after[..|after| - 1], after[|after| - 1];
      var m := Exec(Step, s, init).value;
      WaitsThroughout(before, s, init, m, f, at);
      ExecConcat(Step, INIT, before, init);
      Reachable(before + init, m);
      ExecInTurn(before + init, m);
      WaitsKept(m, a, f, at);
    }
  }

  /** No lost wakeup. Once the flag of a ping is stored and its waker called, its task has a
      turn on the run queue, and in every continuation in which the run loop gets past that
      turn a poll of the future has returned Ready. */
  lemma NoLostWakeup(before: seq<Action>, s: State, f: nat) returns (at: nat)
    requires Exec(Step, INIT, before) == Some(s) && f < |s.futures| && s.futures[f].returned && !s.futures[f].ready
    requires s.waking != Some(Binding(s.futures[f].task, f))
    ensures Finished(s.exec) <= at < |s.exec.enqueued| && s.exec.enqueued[at] == s.futures[f].task
    ensures forall after, t :: Exec(Step, s, after) == Some(t) && Finished(t.exec) > at ==> f < |t.futures| && t.futures[f].ready
  {
    Reachable(before, s);
    ExecInTurn(before, s);
    at := DueHasTurn(s.exec, s.futures[f].task);
    forall after, t | Exec(Step, s, after) == Some(t) && Finished(t.exec) > at ensures f < |t.futures| && t.futures[f].ready {
      WaitsThroughout(before, s, after, t, f, at);
    }
  }

  // ---- Which ping a reply completes ----

  /** The addresses pinged in a run, one for each future: those a poll was to go on with when it
      created a future. */
  function PingsOf(acts: seq<Action>): seq<(Ip, Mac)>
    requires Exec(Step, INIT, acts).Some?
  {
    if acts == [] then []
    else
      var init, a := acts[..|acts| - 1], acts[|acts| - 1];
      var m, t := Exec(Step, INIT, init).value, Exec(Step, INIT, acts).value;
      PingsOf(init) + if a.Poll? && a.next.Some? && |t.futures| > |m.futures| then [a.next.value] else []
  }

  lemma PingsOfNext(init: seq<Action>, m: State, a: Action, t: State)
    requires Exec(Step, INIT, init) == Some(m) && Step(m, a) == Some(t)
    ensures Exec(Step, INIT, init + [a]) == Some(t)
    ensures PingsOf(init + [a]) == PingsOf(init) + if a.Poll? && a.next.Some? && |t.futures| > |m.futures| then [a.next.value] else []
  {
    ExecThen(Step, INIT, init, m, a, t);
    assert (init + [a])[..|init|] == init;
  }

  /** What the polls of a run put on the message queue. */
  function RequestsOf(acts: seq<Action>): seq<Message>
    requires Exec(Step, INIT, acts).Some?
  {
    if acts == [] then []
    else
      var init, a := acts[..|acts| - 1], acts[|acts| - 1];
      var m, t := Exec(Step, INIT, init).value, Exec(Step, INIT, acts).value;
      RequestsOf(init) + if a.Poll? && |t.messages| > |m.messages| then t.messages[|m.messages|..] else []
  }

  ghost predicate Arrived(acts: seq<Action>, ip: Ip) {
    exists i: nat :: i < |acts| && acts[i] == Arrive(ip)
  }

  /** The task has a ping that was not answered. */
  ghost predicate Unanswered(s: State, task: nat) {
    exists f: nat :: f < |s.futures| && s.futures[f].task == task && !s.futures[f].returned
  }

  /** Requests and table entries are for the addresses pinged. */
  ghost predicate Addressed(pings: seq<(Ip, Mac)>, s: State) {
    && |pings| == |s.futures|
    && (forall i: nat :: i < |s.messages| && s.messages[i].Request? ==>
          s.messages[i].to.f < |pings| && (s.messages[i].ip, s.messages[i].mac) == pings[s.messages[i].to.f])
    && (forall ip :: ip in s.table ==> s.table[ip].f < |pings| && pings[s.table[ip].f].0 == ip)
  }

  /** A poll starts a ping exactly if it has one to go on with and its task waits for no answer,
      and then sends one request, for this ping. */
  lemma PollStarts(s: State, task: nat, next: Option<(Ip, Mac)>)
    requires Inv(s)
    ensures var s' := PollTask(s, task, next);
            if next.Some? && !Unanswered(s, task) then
              && |s'.futures| == |s.futures| + 1
              && s'.messages == s.messages + [Request(next.value.0, next.value.1, Binding(task, |s.futures|))]
            else |s'.futures| == |s.futures| && s'.messages == s.messages
  {
    var s1 := PollAwaited(s, task);
    assert s1.messages == s.messages && |s1.futures| == |s.futures|;
    if task in s.current && !s.futures[s.current[task]].returned { assert Unanswered(s, task); }
    if Unanswered(s, task) {
      var f: nat :| f < |s.futures| && s.futures[f].task == task && !s.futures[f].returned;
      assert task in s1.current;
    } else {
      assert task !in s1.current;
    }
  }

  lemma AddressedPoll(pings: seq<(Ip, Mac)>, s: State, next: Option<(Ip, Mac)>)
    requires Inv(s) && Addressed(pings, s) && s.exec.pc.Polling?
    ensures var s' := Step(s, Poll(next)).value;
            Addressed(pings + (if next.Some? && |s'.futures| > |s.futures| then [next.value] else []), s')
  {
    PollStarts(s, s.exec.pc.task.id, next);
    PollTaskTable(s, s.exec.pc.task.id, next);
  }

  lemma PollTaskTable(s: State, task: nat, next: Option<(Ip, Mac)>)
    ensures PollTask(s, task, next).table == s.table
  {}

  lemma AddressedHandle(pings: seq<(Ip, Mac)>, s: State)
    requires Addressed(pings, s) && Step(s, HandleNext).Some?
    ensures Addressed(pings, Step(s, HandleNext).value)
  {
    var s' := Step(s, HandleNext).value;
    forall i: nat | i < |s'.messages| ensures s'.messages[i] == s.messages[i + 1] {}
  }

  lemma AddressedOther(pings: seq<(Ip, Mac)>, s: State, a: Action, s': State)
    requires Addressed(pings, s) && Step(s, a) == Some(s') && !a.Poll? && !a.HandleNext?
    ensures Addressed(pings, s')
  {
    assert s'.table == s.table && |s'.futures| == |s.futures|;
  }

  lemma {:induction false} ReachableAddressed(acts: seq<Action>, t: State)
    requires Exec(Step, INIT, acts) == Some(t)
    ensures Addressed(PingsOf(acts), t)
  {
    if acts != [] {
      var init, a := acts[..|acts| - 1], acts[|acts| - 1];
      var m := Exec(Step, INIT, init).value;
      ReachableAddressed(init, m);
      Reachable(init, m);
      match a
      case Poll(next) => AddressedPoll(PingsOf(init), m, next);
      case HandleNext => AddressedHandle(PingsOf(init), m);
      case _ => AddressedOther(PingsOf(init), m, a, t);
    }
  }

  /** The request of future f. */
  function RequestOf(t: State, pings: seq<(Ip, Mac)>, f: nat): Message
    requires f < |t.futures| && f < |pings|
  {
    Request(pings[f].0, pings[f].1, Binding(t.futures[f].task, f))
  }

  /** One request for each future, in order, with the addresses that were to be pinged. */
  ghost predicate Requested(requests: seq<Message>, pings: seq<(Ip, Mac)>, t: State) {
    && |pings| == |t.futures| == |requests|
    && forall f: nat :: f < |t.futures| ==> requests[f] == RequestOf(t, pings, f)
  }

  lemma RequestedPoll(requests: seq<Message>, pings: seq<(Ip, Mac)>, s: State, next: Option<(Ip, Mac)>, s': State)
    requires Inv(s) && Requested(requests, pings, s) && Step(s, Poll(next)) == Some(s')
    ensures Requested(requests + (if |s'.messages| > |s.messages| then s'.messages[|s.messages|..] else []),
                      pings + (if next.Some? && |s'.futures| > |s.futures| then [next.value] else []), s')
  {
    TasksStay(s, Poll(next), s');
    PollStarts(s, s.exec.pc.task.id, next);
    if |s'.futures| > |s.futures| { NewTask(s, next, s'); }
  }

  /** In every run the polls send exactly one request for each future, in order, with the
      addresses that were to be pinged. */
  lemma {:induction false} RequestsExactly(acts: seq<Action>, t: State)
    requires Exec(Step, INIT, acts) == Some(t)
    ensures Requested(RequestsOf(acts), PingsOf(acts), t)
  {
    if acts != [] {
      var init, a := acts[..|acts| - 1], acts[|acts| - 1];
      var m := Exec(Step, INIT, init).value;
      RequestsExactly(init, m);
      Reachable(init, m);
      if a.Poll? { RequestedPoll(RequestsOf(init), PingsOf(init), m, a.next, t); } else { TasksStay(m, a, t); }
    }
  }

  /** No step changes the number of futures but a poll, or the task of one. */
  lemma TasksStay(s: State, a: Action, s': State)
    requires Step(s, a) == Some(s')
    ensures |s.futures| <= |s'.futures| && (!a.Poll? ==> |s'.futures| == |s.futures|)
    ensures forall f: nat :: f < |s.futures| ==> s'.futures[f].task == s.futures[f].task
  {}

  lemma NewTask(s: State, next: Option<(Ip, Mac)>, s': State)
    requires Inv(s) && Step(s, Poll(next)) == Some(s') && |s'.futures| == |s.futures| + 1
    ensures s'.futures[|s.futures|].task == s.exec.pc.task.id
  {}

  lemma ReplyCompletes(s: State, ip: Ip, f: nat)
    requires f < |s.futures| && !s.futures[f].returned && LiveTable(s.futures, s.messages, s.table, s.lost) && s.waking.None?
    ensures var s' := Handle(s, EchoReply(ip));
            && |s'.futures| == |s.futures|
            && (s'.futures[f].returned <==> ip in s.table && s.table[ip].f == f)
            && (s'.futures[f].returned ==> s'.waking == Some(Binding(s.futures[f].task, f)))
  {
    if ip in s.table { assert Live(s.futures, s.lost, s.table[ip]); }
  }

  /** A ping is found under its own address only. */
  lemma FoundUnderItsAddress(pings: seq<(Ip, Mac)>, s: State, ip: Ip, f: nat)
    requires Addressed(pings, s) && f < |pings|
    ensures ip in s.table && s.table[ip].f == f <==> ip == pings[f].0 && InTable(s.table, f)
  {}

  /** Handling a message completes exactly the registered pings to the address it is a reply
      from, and calls their waker. */
  lemma RepliesCompleteExactly(acts: seq<Action>, s: State, f: nat)
    requires Exec(Step, INIT, acts) == Some(s) && Step(s, HandleNext).Some? && f < |s.futures| && !s.futures[f].returned
    ensures |PingsOf(acts)| == |s.futures|
    ensures var s' := Step(s, HandleNext).value;
            && |s'.futures| == |s.futures|
            && (s'.futures[f].returned <==> s.messages[0] == EchoReply(PingsOf(acts)[f].0) && InTable(s.table, f))
            && (s'.futures[f].returned ==> s'.waking == Some(Binding(s.futures[f].task, f)))
  {
    Reachable(acts, s);
    ReachableAddressed(acts, s);
    if s.messages[0].EchoReply? {
      var ip := s.messages[0].source;
      LocatedReply(s.futures, s.messages, s.table, s.lost, ip);
      ReplyCompletes(s.(messages := s.messages[1..]), ip, f);
      FoundUnderItsAddress(PingsOf(acts), s, ip, f);
    }
  }

  /** A request that is handled is registered under the address it pings. */
  lemma RequestsAreRegistered(acts: seq<Action>, s: State)
    requires Exec(Step, INIT, acts) == Some(s) && Step(s, HandleNext).Some? && s.messages[0].Request?
    ensures var s', f := Step(s, HandleNext).value, s.messages[0].to.f;
            f < |PingsOf(acts)| && PingsOf(acts)[f].0 in s'.table && s'.table[PingsOf(acts)[f].0].f == f
  {
    ReachableAddressed(acts, s);
  }

  lemma ArrivedMore(acts: seq<Action>, a: Action, ip: Ip)
    requires Arrived(acts, ip) || a == Arrive(ip)
    ensures Arrived(acts + [a], ip)
  {
    if a == Arrive(ip) {
      assert (acts + [a])[|acts|] == a;
    } else {
      var i: nat :| i < |acts| && acts[i] == Arrive(ip);
      assert (acts + [a])[i] == acts[i];
    }
  }

  /** Replies that wait, or completed a ping, arrived from the address pinged. */
  ghost predicate AllArrived(acts: seq<Action>, pings: seq<(Ip, Mac)>, t: State) {
    && |pings| == |t.futures|
    && (forall i: nat :: i < |t.messages| && t.messages[i].EchoReply? ==> Arrived(acts, t.messages[i].source))
    && (forall f: nat :: f < |t.futures| && t.futures[f].returned ==> Arrived(acts, pings[f].0))
  }

  lemma ArrivedPoll(acts: seq<Action>, pings: seq<(Ip, Mac)>, s: State, next: Option<(Ip, Mac)>)
    requires Inv(s) && s.exec.pc.Polling? && AllArrived(acts, pings, s)
    ensures var s' := Step(s, Poll(next)).value;
            AllArrived(acts + [Poll(next)], pings + (if next.Some? && |s'.futures| > |s.futures| then [next.value] else []), s')
  {
    var s', task := Step(s, Poll(next)).value, s.exec.pc.task.id;
    PollStarts(s, task, next);
    forall i: nat | i < |s'.messages| && s'.messages[i].EchoReply? ensures Arrived(acts + [Poll(next)], s'.messages[i].source) {
      assert s'.messages[i] == s.messages[i];
      ArrivedMore(acts, Poll(next), s.messages[i].source);
    }
    forall f: nat | f < |s'.futures| && s'.futures[f].returned ensures f < |pings| && Arrived(acts + [Poll(next)], pings[f].0) {
      PollReturns(s, task, next, f);
      ArrivedMore(acts, Poll(next), pings[f].0);
    }
  }

  /** A poll answers no ping. */
  lemma PollReturns(s: State, task: nat, next: Option<(Ip, Mac)>, f: nat)
    requires Inv(s) && f < |PollTask(s, task, next).futures| && PollTask(s, task, next).futures[f].returned
    ensures f < |s.futures| && s.futures[f].returned
  {}

  lemma ArrivedHandle(acts: seq<Action>, pings: seq<(Ip, Mac)>, s: State)
    requires Step(s, HandleNext).Some? && AllArrived(acts, pings, s) && Addressed(pings, s)
    ensures AllArrived(acts + [HandleNext], pings, Step(s, HandleNext).value)
  {
    var s' := Step(s, HandleNext).value;
    forall i: nat | i < |s'.messages| && s'.messages[i].EchoReply? ensures Arrived(acts + [HandleNext], s'.messages[i].source) {
      assert s'.messages[i] == s.messages[i + 1];
      ArrivedMore(acts, HandleNext, s.messages[i + 1].source);
    }
    forall f: nat | f < |s'.futures| && s'.futures[f].returned ensures Arrived(acts + [HandleNext], pings[f].0) {
      ArrivedMore(acts, HandleNext, pings[f].0);
    }
  }

  lemma ArrivedOther(acts: seq<Action>, pings: seq<(Ip, Mac)>, s: State, a: Action, s': State)
    requires Step(s, a) == Some(s') && AllArrived(acts, pings, s) && !a.Poll? && !a.HandleNext?
    ensures AllArrived(acts + [a], pings, s')
  {
    forall i: nat | i < |s'.messages| && s'.messages[i].EchoReply? ensures Arrived(acts + [a], s'.messages[i].source) {
      ArrivedMore(acts, a, s'.messages[i].source);
    }
    forall f: nat | f < |s'.futures| && s'.futures[f].returned ensures Arrived(acts + [a], pings[f].0) { ArrivedMore(acts, a, pings[f].0); }
  }

  /** In every run, a ping that was answered was answered by a reply that arrived from the
      address it pinged. */
  lemma {:induction false} AnsweredByItsAddress(acts: seq<Action>, t: State)
    requires Exec(Step, INIT, acts) == Some(t)
    ensures AllArrived(acts, PingsOf(acts), t)
  {
    if acts != [] {
      var init, a := acts[..|acts| - 1], acts[|acts| - 1];
      var m := Exec(Step, INIT, init).value;
      AnsweredByItsAddress(init, m);
      Reachable(init, m);
      ReachableAddressed(init, m);
      assert acts == init + [a];
      match a
      case Poll(next) => ArrivedPoll(init, PingsOf(init), m, next);
      case HandleNext => ArrivedHandle(init, PingsOf(init), m);
      case _ => ArrivedOther(init, PingsOf(init), m, a, t);
    }
  }

  // ---- The message queue ----

  function Handled(acts: seq<Action>): nat {
    if acts == [] then 0 else Handled(acts[..|acts| - 1]) + if acts[|acts| - 1].HandleNext? then 1 else 0
  }

  /** The messages a step sends to the handler: a reply that arrives, or what a poll sends. */
  function SentBy(s: State, a: Action, t: State): seq<Message> {
    match a
    case Arrive(ip) => [EchoReply(ip)]
    case Poll(_) => if |t.messages| > |s.messages| then t.messages[|s.messages|..] else []
    case _ => []
  }

  /** All messages sent to the handler in a run. */
  function MessagesOf(acts: seq<Action>): seq<Message>
    requires Exec(Step, INIT, acts).Some?
  {
    if acts == [] then []
    else
      var init := acts[..|acts| - 1];
      MessagesOf(init) + SentBy(Exec(Step, INIT, init).value, acts[|acts| - 1], Exec(Step, INIT, acts).value)
  }

  lemma StepMessages(s: State, a: Action, t: State)
    requires Inv(s) && Step(s, a) == Some(t)
    ensures a.HandleNext? ==> s.messages != [] && t.messages == s.messages[1..]
    ensures !a.HandleNext? ==> t.messages == s.messages + SentBy(s, a, t)
  {
    if a.Poll? { PollStarts(s, s.exec.pc.task.id, a.next); }
  }

  /** What waits is what was sent and not yet taken. */
  ghost predicate InOrder(acts: seq<Action>, t: State)
    requires Exec(Step, INIT, acts).Some?
  {
    Handled(acts) <= |MessagesOf(acts)| && t.messages == MessagesOf(acts)[Handled(acts)..]
  }

  lemma OrderGrows(init: seq<Action>, m: State, a: Action, t: State, acts: seq<Action>)
    requires Exec(Step, INIT, init) == Some(m) && InOrder(init, m) && Step(m, a) == Some(t) && acts == init + [a]
    ensures Exec(Step, INIT, acts) == Some(t) && InOrder(acts, t)
  {
    ExecThen(Step, INIT, init, m, a, t);
    assert acts[..|init|] == init;
    Reachable(init, m);
    StepMessages(m, a, t);
    QueueMoves(MessagesOf(init), Handled(init), SentBy(m, a, t));
  }

  /** The handler takes the messages in the order they were sent, and none is lost. */
  lemma {:induction false} MessagesInOrder(acts: seq<Action>, t: State)
    requires Exec(Step, INIT, acts) == Some(t)
    ensures InOrder(acts, t)
  {
    if acts != [] {
      var init := acts[..|acts| - 1];
      var m := Exec(Step, INIT, init).value;
      MessagesInOrder(init, m);
      OrderGrows(init, m, acts[|acts| - 1], t, acts);
    }
  }

  // ---- A lost ping ----

  ghost function Lifted(es: seq<Executor.Action>): seq<Action> {
    seq(|es|, i requires 0 <= i < |es| => Run(es[i]))
  }

  lemma LiftedSnoc(acts: seq<Action>, es: seq<Executor.Action>, e: Executor.Action)
    ensures acts + Lifted(es + [e]) == acts + Lifted(es) + [Run(e)]
  {}

  ghost predicate NoPollEnd(es: seq<Executor.Action>) {
    forall i: nat :: i < |es| ==> !es[i].PollEnd?
  }

  /** A run of the executor, without the end of a poll, inside the composed system. */
  lemma {:induction false} ExecutorRuns(acts: seq<Action>, s: State, es: seq<Executor.Action>, e: Executor.State)
    requires Exec(Step, INIT, acts) == Some(s) && Exec(Executor.Step, s.exec, es) == Some(e) && NoPollEnd(es)
    ensures Exec(Step, INIT, acts + Lifted(es)) == Some(s.(exec := e))
  {
    if es == [] {
      assert acts + Lifted(es) == acts;
    } else {
      var init := es[..|es| - 1];
      var m := Exec(Executor.Step, s.exec, init).value;
      ExecutorRuns(acts, s, init, m);
      LiftedGrows(acts, s, es, m, e);
    }
  }

  lemma LiftedGrows(acts: seq<Action>, s: State, es: seq<Executor.Action>, m: Executor.State, e: Executor.State)
    requires es != [] && NoPollEnd(es) && Executor.Step(m, es[|es| - 1]) == Some(e)
    requires Exec(Step, INIT, acts + Lifted(es[..|es| - 1])) == Some(s.(exec := m))
    ensures Exec(Step, INIT, acts + Lifted(es)) == Some(s.(exec := e))
  {
    var init, last := es[..|es| - 1], es[|es| - 1];
    LiftedRuns(acts + Lifted(init), s.(exec := m), last, e);
    LiftedSnoc(acts, init, last);
    assert es == init + [last];
  }

  lemma LiftedRuns(acts: seq<Action>, s: State, a: Executor.Action, e: Executor.State)
    requires Exec(Step, INIT, acts) == Some(s) && Executor.Step(s.exec, a) == Some(e) && !a.PollEnd?
    ensures Exec(Step, INIT, acts + [Run(a)]) == Some(s.(exec := e))
  {
    ExecThen(Step, INIT, acts, s, Run(a), s.(exec := e));
  }

  /** Two tasks are spawned and the run loop finds the first one. */
  lemma TwoSpawned() returns (es: seq<Executor.Action>, e: Executor.State)
    ensures Exec(Executor.Step, Executor.INIT, es) == Some(e) && forall i: nat :: i < |es| ==> !es[i].PollEnd?
    ensures e.pc == Executor.Polling(Executor.Task(0, 0)) && e.runQueue == [1] && e.addQueue == []
    ensures e.tasks == [Executor.Task(0, 0), Executor.Task(1, 1)]
  {
    var e1, e2 := Spawned(Executor.INIT, 0, 0), Spawned(Spawned(Executor.INIT, 0, 0), 1, 1);
    SpawnRuns([], Executor.INIT, 0);
    SpawnRuns(Spawning(0), e1, 1);
    assert [] + Spawning(0) == Spawning(0);
    es, e := FindRuns(Spawning(0) + Spawning(1), e2);
  }

  ghost function Spawning(p: nat): seq<Executor.Action> {
    [Executor.TakeId(p), Executor.PublishTask(p), Executor.PublishId(p)]
  }

  /** The state after spawner p has spawned the task with ticket k. */
  ghost function Spawned(e: Executor.State, p: nat, k: nat): Executor.State {
    e.(count := k + 1, addQueue := e.addQueue + [Executor.Task(k, k)], runQueue := e.runQueue + [k],
       enqueued := e.enqueued + [k], published := e.published + [k])
  }

  lemma SpawnRuns(es: seq<Executor.Action>, e: Executor.State, p: nat)
    requires Exec(Executor.Step, Executor.INIT, es) == Some(e) && e.spawners == map[] && e.count < Executor.ID_LIMIT
    ensures Exec(Executor.Step, Executor.INIT, es + Spawning(p)) == Some(Spawned(e, p, e.count))
  {
    var k := e.count;
    assert Executor.Id(k) == k;
    var e1 := e.(count := k + 1, spawners := e.spawners[p := Executor.HasId(k)]);
    var e2 := e1.(addQueue := e.addQueue + [Executor.Task(k, k)], spawners := e1.spawners[p := Executor.TaskSent(k)]);
    assert e2.spawners - {p} == map[];
    ExecThen(Executor.Step, Executor.INIT, es, e, Executor.TakeId(p), e1);
    ExecThen(Executor.Step, Executor.INIT, es + [Executor.TakeId(p)], e1, Executor.PublishTask(p), e2);
    ExecThen(Executor.Step, Executor.INIT, es + [Executor.TakeId(p)] + [Executor.PublishTask(p)], e2, Executor.PublishId(p), Spawned(e, p, k));
    assert es + Spawning(p) == es + [Executor.TakeId(p)] + [Executor.PublishTask(p)] + [Executor.PublishId(p)];
  }

  /** From two published tasks to the poll of the first. */
  lemma FindRuns(es: seq<Executor.Action>, e: Executor.State) returns (es': seq<Executor.Action>, e': Executor.State)
    requires Exec(Executor.Step, Executor.INIT, es) == Some(e) && forall i: nat :: i < |es| ==> !es[i].PollEnd?
    requires e.pc.Waiting? && e.runQueue == [0, 1] && e.tasks == [] && e.addQueue == [Executor.Task(0, 0), Executor.Task(1, 1)]
    ensures Exec(Executor.Step, Executor.INIT, es') == Some(e') && forall i: nat :: i < |es'| ==> !es'[i].PollEnd?
    ensures e'.pc == Executor.Polling(Executor.Task(0, 0)) && e'.runQueue == [1] && e'.addQueue == []
    ensures e'.tasks == [Executor.Task(0, 0), Executor.Task(1, 1)]
  {
    var drained, e3 := DrainRuns(es, e);
    var e4 := Executor.Step(e3, Executor.DrainEnd).value;
    e' := Executor.Step(e4, Executor.Find).value;
    ExecThen(Executor.Step, Executor.INIT, drained, e3, Executor.DrainEnd, e4);
    ExecThen(Executor.Step, Executor.INIT, drained + [Executor.DrainEnd], e4, Executor.Find, e');
    es' := drained + [Executor.DrainEnd] + [Executor.Find];
  }

  lemma DrainRuns(es: seq<Executor.Action>, e: Executor.State) returns (es': seq<Executor.Action>, e': Executor.State)
    requires Exec(Executor.Step, Executor.INIT, es) == Some(e) && forall i: nat :: i < |es| ==> !es[i].PollEnd?
    requires e.pc.Waiting? && e.runQueue == [0, 1] && e.tasks == [] && e.addQueue == [Executor.Task(0, 0), Executor.Task(1, 1)]
    ensures Exec(Executor.Step, Executor.INIT, es') == Some(e') && forall i: nat :: i < |es'| ==> !es'[i].PollEnd?
    ensures e'.pc == Executor.Draining(0) && e'.runQueue == [1] && e'.addQueue == []
    ensures e'.tasks == [Executor.Task(0, 0), Executor.Task(1, 1)]
  {
    var e1 := Executor.Step(e, Executor.Dequeue).value;
    var e2 := Executor.Step(e1, Executor.DrainOne).value;
    e' := Executor.Step(e2, Executor.DrainOne).value;
    ExecThen(Executor.Step, Executor.INIT, es, e, Executor.Dequeue, e1);
    ExecThen(Executor.Step, Executor.INIT, es + [Executor.Dequeue], e1, Executor.DrainOne, e2);
    ExecThen(Executor.Step, Executor.INIT, es + [Executor.Dequeue] + [Executor.DrainOne], e2, Executor.DrainOne, e');
    es' := es + [Executor.Dequeue] + [Executor.DrainOne] + [Executor.DrainOne];
  }

  /** From the end of the first poll to the poll of the second task. */
  lemma FindSecond(e: Executor.State) returns (es: seq<Executor.Action>, e': Executor.State)
    requires e.pc.Waiting? && e.runQueue == [1] && e.addQueue == [] && e.tasks == [Executor.Task(0, 0), Executor.Task(1, 1)]
    ensures Exec(Executor.Step, e, es) == Some(e') && forall i: nat :: i < |es| ==> !es[i].PollEnd?
    ensures e'.pc == Executor.Polling(Executor.Task(1, 1))
  {
    var e1 := Executor.Step(e, Executor.Dequeue).value;
    var e2 := Executor.Step(e1, Executor.DrainEnd).value;
    assert Executor.FindTask(e.tasks[1..], 1) == Some(0);
    assert Executor.FindTask(e.tasks, 1) == Some(1);
    e' := Executor.Step(e2, Executor.Find).value;
    ExecThen(Executor.Step, e, [], e, Executor.Dequeue, e1);
    ExecThen(Executor.Step, e, [Executor.Dequeue], e1, Executor.DrainEnd, e2);
    ExecThen(Executor.Step, e, [Executor.Dequeue, Executor.DrainEnd], e2, Executor.Find, e');
    es := [Executor.Dequeue, Executor.DrainEnd, Executor.Find];
  }

  /** Two tasks ping the same address, and the handler takes both requests: the first is lost. */
  lemma SecondPingLoses(ip: Ip, mac: Mac) returns (acts: seq<Action>, t: State)
    ensures Exec(Step, INIT, acts) == Some(t) && t.lost == {0} && |t.futures| == 2
  {
    var es, e := TwoSpawned();
    ExecutorRuns([], INIT, es, e);
    var s1 := INIT.(exec := e);
    var poll := Poll(Some((ip, mac)));
    var s2 := Step(s1, poll).value;
    ExecThen(Step, INIT, [] + Lifted(es), s1, poll, s2);
    acts := [] + Lifted(es) + [poll];
    var es', e' := FindSecond(s2.exec);
    ExecutorRuns(acts, s2, es', e');
    var s3 := s2.(exec := e');
    var s4 := Step(s3, poll).value;
    acts := acts + Lifted(es');
    ExecThen(Step, INIT, acts, s3, poll, s4);
    acts := acts + [poll];
    t := BothHandled(s4, ip);
    var s5 := Step(s4, HandleNext).value;
    ExecThen(Step, INIT, acts, s4, HandleNext, s5);
    ExecThen(Step, INIT, acts + [HandleNext], s5, HandleNext, t);
    acts := acts + [HandleNext] + [HandleNext];
  }

  lemma BothHandled(s: State, ip: Ip) returns (t: State)
    requires s.waking.None? && s.table == map[] && s.lost == {} && |s.messages| == 2
    requires s.messages[0].Request? && s.messages[1].Request? && s.messages[0].ip == s.messages[1].ip == ip && s.messages[0].to.f == 0
    ensures Step(s, HandleNext).Some? && Step(Step(s, HandleNext).value, HandleNext) == Some(t)
    ensures t.lost == {0} && t.futures == s.futures
  {
    var m := Step(s, HandleNext).value;
    t := Step(m, HandleNext).value;
  }
}
