/** The kernel's task executor as a transition system: any number of concurrent spawners, the
    run loop and the wakers, taking atomic steps in any order. The three steps of a spawner are
    taking an id, publishing the task and publishing the id. */
module Executor {
  import opened Runs

  /** The id counter is a 64-bit word and wraps. */
  const ID_LIMIT: nat := 0x1_0000_0000_0000_0000

  /** `ticket` is the number of ids handed out before; the id is what the counter showed. */
  datatype Task = Task(id: nat, ticket: nat)

  /** ticket mod 2^64, by repeated subtraction. */
  function Id(ticket: nat): nat {
    if ticket < ID_LIMIT then ticket else Id(ticket - ID_LIMIT)
  }

  lemma {:induction false} IdIsModulo(ticket: nat)
    ensures Id(ticket) == ticket % ID_LIMIT
  {
    if ticket >= ID_LIMIT { IdIsModulo(ticket - ID_LIMIT); }
  }

  datatype Spawner = HasId(ticket: nat) | TaskSent(ticket: nat)

  /** The run loop waits for an id, drains the add queue, looks the task up, polls it. */
  datatype Pc = Waiting | Draining(id: nat) | Searching(id: nat) | Polling(task: Task)

  /** The last six fields are histories: tickets whose id was published, ids woken, all ids put
      on the run queue, ids taken off it, tasks polled, and lookups that failed. */
  datatype State = State(count: nat, spawners: map<nat, Spawner>, addQueue: seq<Task>, runQueue: seq<nat>,
                         tasks: seq<Task>, pc: Pc, wakers: set<nat>,
                         published: seq<nat>, wakes: seq<nat>, enqueued: seq<nat>, taken: seq<nat>,
                         polled: seq<Task>, missing: nat)

  datatype Action =
    | TakeId(p: nat) | PublishTask(p: nat) | PublishId(p: nat)
    | Dequeue | DrainOne | DrainEnd | Find | PollEnd
    | Wake(id: nat)

  const INIT := State(0, map[], [], [], [], Waiting, {}, [], [], [], [], [], 0)

  /** The first task with the given id. */
  function FindTask(tasks: seq<Task>, id: nat): (i: Option<nat>)
    ensures i.Some? ==> i.value < |tasks| && tasks[i.value].id == id && forall j: nat :: j < i.value ==> tasks[j].id != id
    ensures i.None? ==> forall j: nat :: j < |tasks| ==> tasks[j].id != id
  {
    if tasks == [] then None
    else if tasks[0].id == id then Some(0)
    else
      match FindTask(tasks[1..], id)
      case None => None
      case Some(i) => assert forall j: nat :: 0 < j < i + 1 ==> tasks[j] == tasks[1..][j - 1]; Some(i + 1)
  }

  function Step(s: State, a: Action): Option<State> {
    match a
    case TakeId(p) =>
      if p in s.spawners then None
      else Some(s.(count := s.count + 1, spawners := s.spawners[p := HasId(s.count)]))
    case PublishTask(p) =>
      if p !in s.spawners || !s.spawners[p].HasId? then None
      else
        var k := s.spawners[p].ticket;
        Some(s.(addQueue := s.addQueue + [Task(Id(k), k)], spawners := s.spawners[p := TaskSent(k)]))
    case PublishId(p) =>
      if p !in s.spawners || !s.spawners[p].TaskSent? then None
      else
        var k := s.spawners[p].ticket;
        Some(s.(runQueue := s.runQueue + [Id(k)], enqueued := s.enqueued + [Id(k)],
                published := s.published + [k], spawners := s.spawners - {p}))
    case Dequeue =>
      if !s.pc.Waiting? || s.runQueue == [] then None
      else Some(s.(pc := Draining(s.runQueue[0]), taken := s.taken + [s.runQueue[0]], runQueue := s.runQueue[1..]))
    case DrainOne =>
      if !s.pc.Draining? || s.addQueue == [] then None
      else Some(s.(tasks := s.tasks + [s.addQueue[0]], addQueue := s.addQueue[1..]))
    case DrainEnd =>
      if !s.pc.Draining? || s.addQueue != [] then None
      else Some(s.(pc := Searching(s.pc.id)))
    case Find =>
      if !s.pc.Searching? then None
      else
        (match FindTask(s.tasks, s.pc.id)
         case None => Some(s.(missing := s.missing + 1, pc := Waiting))
         case Some(i) => Some(s.(polled := s.polled + [s.tasks[i]], wakers := s.wakers + {s.pc.id}, pc := Polling(s.tasks[i]))))
    case PollEnd =>
      if !s.pc.Polling? then None else Some(s.(pc := Waiting))
    case Wake(id) =>
      if id !in s.wakers then None
      else Some(s.(runQueue := s.runQueue + [id], enqueued := s.enqueued + [id], wakes := s.wakes + [id]))
  }

  // ---- Lookup never fails ----

  /** Every task that was published, in the order of publication. */
  ghost function All(s: State): seq<Task> {
    s.tasks + s.addQueue
  }

  ghost predicate Has(tasks: seq<Task>, id: nat) {
    exists i: nat :: i < |tasks| && tasks[i].id == id
  }

  ghost predicate HasTicket(tasks: seq<Task>, k: nat) {
    exists i: nat :: i < |tasks| && tasks[i].ticket == k
  }

  /** Ids on their way to a lookup belong to published tasks. */
  ghost predicate Inv(s: State) {
    && s.missing == 0
    && (forall i: nat :: i < |s.runQueue| ==> Has(All(s), s.runQueue[i]))
    && (s.pc.Draining? ==> Has(All(s), s.pc.id))
    && (s.pc.Searching? ==> Has(s.tasks, s.pc.id))
    && (forall id :: id in s.wakers ==> Has(s.tasks, id))
    && (forall p :: p in s.spawners && s.spawners[p].TaskSent? ==> Has(All(s), Id(s.spawners[p].ticket)))
  }

  lemma HasMore(tasks: seq<Task>, more: seq<Task>, id: nat)
    requires Has(tasks, id)
    ensures Has(tasks + more, id)
  {
    var i: nat :| i < |tasks| && tasks[i].id == id;
    assert (tasks + more)[i].id == id;
  }

  lemma PublishTaskKeeps(s: State, p: nat)
    requires Inv(s) && Step(s, PublishTask(p)).Some?
    ensures Inv(Step(s, PublishTask(p)).value)
  {
    var s', k := Step(s, PublishTask(p)).value, s.spawners[p].ticket;
    assert All(s') == All(s) + [Task(Id(k), k)];
    assert All(s')[|All(s)|].id == Id(k);
    forall id | Has(All(s), id) ensures Has(All(s'), id) { HasMore(All(s), [Task(Id(k), k)], id); }
  }

  lemma DrainOneKeeps(s: State)
    requires Inv(s) && Step(s, DrainOne).Some?
    ensures Inv(Step(s, DrainOne).value)
  {
    var s' := Step(s, DrainOne).value;
    assert All(s') == All(s);
    forall id | Has(s.tasks, id) ensures Has(s'.tasks, id) { HasMore(s.tasks, [s.addQueue[0]], id); }
  }

  lemma FindKeeps(s: State)
    requires Inv(s) && Step(s, Find).Some?
    ensures Inv(Step(s, Find).value)
  {
    var i: nat :| i < |s.tasks| && s.tasks[i].id == s.pc.id;
  }

  lemma WakeKeeps(s: State, id: nat)
    requires Inv(s) && Step(s, Wake(id)).Some?
    ensures Inv(Step(s, Wake(id)).value)
  {
    HasMore(s.tasks, s.addQueue, id);
  }

  lemma InvKept(s: State, a: Action)
    requires Inv(s) && Step(s, a).Some?
    ensures Inv(Step(s, a).value)
  {
    match a
    case PublishTask(p) => PublishTaskKeeps(s, p);
    case DrainOne => DrainOneKeeps(s);
    case DrainEnd => assert All(s) == s.tasks;
    case Find => FindKeeps(s);
    case Wake(id) => WakeKeeps(s, id);
    case _ => assert All(Step(s, a).value) == All(s);
  }

  lemma Reachable(acts: seq<Action>)
    requires Exec(Step, INIT, acts).Some?
    ensures Inv(Exec(Step, INIT, acts).value)
  {
    forall m, a | Inv(m) && Step(m, a).Some? ensures Inv(Step(m, a).value) { InvKept(m, a); }
    Invariance(Step, Inv, INIT, acts);
  }

  // ---- Tickets ----

  /** The ids of published tasks come from their tickets, which are all different. */
  ghost predicate Ticketed(tasks: seq<Task>, count: nat) {
    && (forall i: nat :: i < |tasks| ==> tasks[i].ticket < count && tasks[i].id == Id(tasks[i].ticket))
    && (forall i: nat, j: nat :: i < j < |tasks| ==> tasks[i].ticket != tasks[j].ticket)
  }

  /** Spawners under way hold different tickets, and one that only has its id has no task yet. */
  ghost predicate Holding(tasks: seq<Task>, spawners: map<nat, Spawner>, count: nat) {
    && (forall p :: p in spawners ==> spawners[p].ticket < count)
    && (forall p, q :: p in spawners && q in spawners && p != q ==> spawners[p].ticket != spawners[q].ticket)
    && (forall p :: p in spawners && spawners[p].HasId? ==> !HasTicket(tasks, spawners[p].ticket))
  }

  ghost predicate Held(spawners: map<nat, Spawner>, k: nat) {
    exists p :: p in spawners && spawners[p] == HasId(k)
  }

  /** No ticket gets lost: each belongs to a task or to a spawner about to publish it. */
  ghost predicate Covered(tasks: seq<Task>, spawners: map<nat, Spawner>, count: nat) {
    forall k: nat :: k < count ==> HasTicket(tasks, k) || Held(spawners, k)
  }

  ghost predicate Tickets(s: State) {
    Ticketed(All(s), s.count) && Holding(All(s), s.spawners, s.count) && Covered(All(s), s.spawners, s.count)
  }

  lemma HasTicketMore(tasks: seq<Task>, task: Task)
    ensures forall k: nat :: HasTicket(tasks + [task], k) <==> HasTicket(tasks, k) || k == task.ticket
  {
    forall k: nat | HasTicket(tasks, k) ensures HasTicket(tasks + [task], k) {
      var i: nat :| i < |tasks| && tasks[i].ticket == k;
      assert (tasks + [task])[i].ticket == k;
    }
    assert (tasks + [task])[|tasks|] == task;
  }

  lemma PublishTaskTickets(s: State, p: nat)
    requires Tickets(s) && p in s.spawners && s.spawners[p].HasId?
    ensures Tickets(Step(s, PublishTask(p)).value)
  {
    var s' := Step(s, PublishTask(p)).value;
    var ts, k := All(s), s.spawners[p].ticket;
    assert All(s') == ts + [Task(Id(k), k)];
    HasTicketMore(ts, Task(Id(k), k));
    forall i: nat | i < |ts| ensures ts[i].ticket != k { assert !HasTicket(ts, k); }
    forall j: nat | j < s'.count ensures HasTicket(All(s'), j) || Held(s'.spawners, j) {
      if !HasTicket(ts, j) && j != k {
        var q :| q in s.spawners && s.spawners[q] == HasId(j);
        assert q in s'.spawners && s'.spawners[q] == HasId(j);
      }
    }
  }

  lemma TakeIdTickets(s: State, p: nat)
    requires Tickets(s) && p !in s.spawners
    ensures Tickets(Step(s, TakeId(p)).value)
  {
    var s' := Step(s, TakeId(p)).value;
    forall j: nat | j < s'.count ensures HasTicket(All(s'), j) || Held(s'.spawners, j) {
      if j == s.count {
        assert p in s'.spawners && s'.spawners[p] == HasId(j);
      } else if !HasTicket(All(s), j) {
        var q :| q in s.spawners && s.spawners[q] == HasId(j);
        assert q in s'.spawners && s'.spawners[q] == HasId(j);
      }
    }
  }

  lemma TicketsKept(s: State, a: Action)
    requires Tickets(s) && Step(s, a).Some?
    ensures Tickets(Step(s, a).value)
  {
    var s' := Step(s, a).value;
    match a
    case TakeId(p) => TakeIdTickets(s, p);
    case PublishTask(p) => PublishTaskTickets(s, p);
    case PublishId(p) =>
      forall j: nat | Held(s.spawners, j) ensures Held(s'.spawners, j) {
        var q :| q in s.spawners && s.spawners[q] == HasId(j);
        assert q in s'.spawners && s'.spawners[q] == HasId(j);
      }
    case _ => assert All(s') == All(s);
  }

  lemma ReachableTickets(acts: seq<Action>)
    requires Exec(Step, INIT, acts).Some?
    ensures Tickets(Exec(Step, INIT, acts).value)
  {
    forall m, a | Tickets(m) && Step(m, a).Some? ensures Tickets(Step(m, a).value) { TicketsKept(m, a); }
    Invariance(Step, Tickets, INIT, acts);
  }

  lemma SameIdSameTask(tasks: seq<Task>, count: nat, i: nat, j: nat)
    requires Ticketed(tasks, count) && count <= ID_LIMIT && i < |tasks| && j < |tasks| && tasks[i].id == tasks[j].id
    ensures i == j
  {
    assert tasks[i].ticket == tasks[j].ticket;
  }

  /** In every run the dequeued id has a task once the add queue is drained, so the branch for
      a task that is no longer available is never taken; and it has only one while the id
      counter has not wrapped. */
  lemma LookupNeverFails(acts: seq<Action>, t: State)
    requires Exec(Step, INIT, acts) == Some(t)
    ensures t.missing == 0
    ensures t.pc.Searching? ==> FindTask(t.tasks, t.pc.id).Some?
    ensures t.pc.Searching? && t.count <= ID_LIMIT ==>
              forall i: nat :: i < |t.tasks| && t.tasks[i].id == t.pc.id ==> i == FindTask(t.tasks, t.pc.id).value
  {
    Reachable(acts);
    ReachableTickets(acts);
    if t.pc.Searching? {
      var j: nat :| j < |t.tasks| && t.tasks[j].id == t.pc.id;
      var found := FindTask(t.tasks, t.pc.id);
      forall i: nat | t.count <= ID_LIMIT && i < |t.tasks| && t.tasks[i].id == t.pc.id ensures i == found.value {
        SameIdSameTask(All(t), t.count, i, found.value);
      }
    }
  }

  lemma WrappedIdsCollide(tasks: seq<Task>, count: nat)
    requires Ticketed(tasks, count) && HasTicket(tasks, 0) && HasTicket(tasks, ID_LIMIT)
    ensures exists i: nat, j: nat :: i < j < |tasks| && tasks[i].id == tasks[j].id
  {
    var i: nat :| i < |tasks| && tasks[i].ticket == 0;
    var j: nat :| j < |tasks| && tasks[j].ticket == ID_LIMIT;
    assert Id(ID_LIMIT) == 0;
    assert tasks[i].id == tasks[j].id;
    assert i < j || j < i;
  }

  /** Between spawns, the ids of the tasks are distinct if and only if the counter has handed
      out no more than 2^64 of them. */
  lemma IdsDistinctIffNoWrap(acts: seq<Action>, t: State)
    requires Exec(Step, INIT, acts) == Some(t) && t.spawners == map[]
    ensures t.count <= ID_LIMIT <==> forall i: nat, j: nat :: i < j < |All(t)| ==> All(t)[i].id != All(t)[j].id
  {
    ReachableTickets(acts);
    if t.count <= ID_LIMIT {
      forall i: nat, j: nat | i < j < |All(t)| ensures All(t)[i].id != All(t)[j].id {
        if All(t)[i].id == All(t)[j].id { SameIdSameTask(All(t), t.count, i, j); }
      }
    } else {
      assert HasTicket(All(t), 0) || Held(t.spawners, 0);
      assert HasTicket(All(t), ID_LIMIT) || Held(t.spawners, ID_LIMIT);
      WrappedIdsCollide(All(t), t.count);
    }
  }

  // ---- Fairness and conservation ----

  ghost function Ids(tickets: seq<nat>): seq<nat> {
    seq(|tickets|, i requires 0 <= i < |tickets| => Id(tickets[i]))
  }

  predicate InFlight(s: State) {
    s.pc.Draining? || s.pc.Searching?
  }

  /** The run queue is first in, first out, and every id taken off it is polled once. */
  ghost predicate InTurn(s: State) {
    && s.taken + s.runQueue == s.enqueued
    && |s.taken| == |s.polled| + (if InFlight(s) then 1 else 0)
    && (InFlight(s) ==> s.pc.id == s.taken[|s.polled|])
    && (s.pc.Polling? ==> s.polled != [] && s.polled[|s.polled| - 1] == s.pc.task)
    && (forall i: nat :: i < |s.polled| ==> s.polled[i].id == s.taken[i])
  }

  /** The ids put on the run queue are those published, once each, and those woken. */
  ghost predicate Accounted(s: State) {
    && multiset(s.enqueued) == multiset(Ids(s.published)) + multiset(s.wakes)
    && (forall i: nat :: i < |s.published| ==> s.published[i] < s.count)
    && (forall i: nat, p :: i < |s.published| && p in s.spawners ==> s.published[i] != s.spawners[p].ticket)
    && (forall i: nat, j: nat :: i < j < |s.published| ==> s.published[i] != s.published[j])
  }

  lemma FindInTurn(s: State)
    requires Inv(s) && InTurn(s) && Step(s, Find).Some?
    ensures InTurn(Step(s, Find).value)
  {
    var i: nat :| i < |s.tasks| && s.tasks[i].id == s.pc.id;
  }

  lemma InTurnKept(s: State, a: Action)
    requires Inv(s) && InTurn(s) && Step(s, a).Some?
    ensures InTurn(Step(s, a).value)
  {
    if a.Find? { FindInTurn(s); }
    if a.Dequeue? { assert s.taken + s.runQueue == (s.taken + [s.runQueue[0]]) + s.runQueue[1..]; }
    if a.Wake? || a.PublishId? {
      var s' := Step(s, a).value;
      assert s'.taken + s'.runQueue == (s.taken + s.runQueue) + [s'.runQueue[|s.runQueue|]];
    }
  }

  lemma PublishIdAccounted(s: State, p: nat)
    requires Holding(All(s), s.spawners, s.count) && Accounted(s) && Step(s, PublishId(p)).Some?
    ensures Accounted(Step(s, PublishId(p)).value)
  {
    var s', k := Step(s, PublishId(p)).value, s.spawners[p].ticket;
    assert Ids(s'.published) == Ids(s.published) + [Id(k)];
    assert multiset(s'.enqueued) == multiset(s.enqueued) + multiset{Id(k)};
  }

  lemma WakeAccounted(s: State, id: nat)
    requires Accounted(s) && Step(s, Wake(id)).Some?
    ensures Accounted(Step(s, Wake(id)).value)
  {
    var s' := Step(s, Wake(id)).value;
    assert multiset(s'.enqueued) == multiset(s.enqueued) + multiset{id};
    assert multiset(s'.wakes) == multiset(s.wakes) + multiset{id};
  }

  lemma AccountedKept(s: State, a: Action)
    requires Holding(All(s), s.spawners, s.count) && Accounted(s) && Step(s, a).Some?
    ensures Accounted(Step(s, a).value)
  {
    var s' := Step(s, a).value;
    match a
    case PublishId(p) => PublishIdAccounted(s, p);
    case Wake(id) => WakeAccounted(s, id);
    case _ => assert s'.enqueued == s.enqueued && s'.published == s.published && s'.wakes == s.wakes;
  }

  ghost predicate Full(s: State) {
    Inv(s) && Tickets(s) && InTurn(s) && Accounted(s)
  }

  lemma FullKept(s: State, acts: seq<Action>)
    requires Full(s) && Exec(Step, s, acts).Some?
    ensures Full(Exec(Step, s, acts).value)
  {
    forall m, a | Full(m) && Step(m, a).Some? ensures Full(Step(m, a).value) {
      InvKept(m, a);
      TicketsKept(m, a);
      InTurnKept(m, a);
      AccountedKept(m, a);
    }
    Invariance(Step, Full, s, acts);
  }

  // What happened in a run, read off its actions.

  function Wakes(acts: seq<Action>, id: nat): nat {
    if acts == [] then 0
    else Wakes(acts[..|acts| - 1], id) + if acts[|acts| - 1] == Wake(id) then 1 else 0
  }

  function TakeIds(acts: seq<Action>): nat {
    if acts == [] then 0
    else TakeIds(acts[..|acts| - 1]) + if acts[|acts| - 1].TakeId? then 1 else 0
  }

  /** The ids taken before spawner p took its last one. */
  function TicketOf(acts: seq<Action>, p: nat): nat {
    if acts == [] then 0
    else if acts[|acts| - 1] == TakeId(p) then TakeIds(acts[..|acts| - 1])
    else TicketOf(acts[..|acts| - 1], p)
  }

  /** The tickets whose id was published, in order. */
  function SpawnedBy(acts: seq<Action>): seq<nat> {
    if acts == [] then []
    else
      var init, a := acts[..|acts| - 1], acts[|acts| - 1];
      SpawnedBy(init) + if a.PublishId? then [TicketOf(init, a.p)] else []
  }

  /** The ids of the tasks that the lookups of a run started to poll, in order. */
  function PolledBy(acts: seq<Action>): seq<nat>
    requires Exec(Step, INIT, acts).Some?
  {
    if acts == [] then []
    else
      var t := Exec(Step, INIT, acts).value;
      PolledBy(acts[..|acts| - 1]) + if acts[|acts| - 1].Find? && t.pc.Polling? then [t.pc.task.id] else []
  }

  ghost function TaskIds(tasks: seq<Task>): seq<nat> {
    seq(|tasks|, i requires 0 <= i < |tasks| => tasks[i].id)
  }

  /** The counter, the spawners and the histories are what the actions say. */
  ghost predicate Recorded(acts: seq<Action>, t: State)
    requires Exec(Step, INIT, acts).Some?
  {
    && t.count == TakeIds(acts)
    && (forall p :: p in t.spawners ==> t.spawners[p].ticket == TicketOf(acts, p))
    && t.published == SpawnedBy(acts)
    && TaskIds(t.polled) == PolledBy(acts)
    && (forall id :: multiset(t.wakes)[id] == Wakes(acts, id))
  }

  lemma {:induction false} HistoriesRecorded(acts: seq<Action>, t: State)
    requires Exec(Step, INIT, acts) == Some(t)
    ensures Recorded(acts, t)
  {
    if acts != [] {
      var init, a := acts[..|acts| - 1], acts[|acts| - 1];
      var m := Exec(Step, INIT, init).value;
      HistoriesRecorded(init, m);
      match a
      case Find => if t.pc.Polling? { assert TaskIds(t.polled) == TaskIds(m.polled) + [t.pc.task.id]; }
      case Wake(id) => assert multiset(t.wakes) == multiset(m.wakes) + multiset{id};
      case _ =>
    }
  }

  lemma {:induction false} DistinctOnce(xs: seq<nat>, x: nat)
    requires forall i: nat, j: nat :: i < j < |xs| ==> xs[i] != xs[j]
    ensures multiset(xs)[x] == if x in xs then 1 else 0
  {
    if xs != [] {
      DistinctOnce(xs[..|xs| - 1], x);
      assert xs == xs[..|xs| - 1] + [xs[|xs| - 1]];
    }
  }

  lemma TakenAreAccounted(s: State, id: nat)
    requires InTurn(s)
    ensures multiset(TaskIds(s.polled))[id] + multiset(s.runQueue)[id] + (if InFlight(s) && s.pc.id == id then 1 else 0)
            == multiset(s.enqueued)[id]
  {
    assert TaskIds(s.polled) == s.taken[..|s.polled|];
    assert s.taken == s.taken[..|s.polled|] + s.taken[|s.polled|..];
    if InFlight(s) { assert s.taken[|s.polled|..] == [s.pc.id]; } else { assert s.taken[|s.polled|..] == []; }
    assert multiset(s.taken + s.runQueue) == multiset(s.taken) + multiset(s.runQueue);
  }

  /** For every id in every run: the polls that took place, plus its occurrences on the run
      queue, plus the one being handled, are the spawns with this id plus the wakes that took
      place; and without wrap there is at most one such spawn. */
  lemma PollsAreSpawnPlusWakes(acts: seq<Action>, t: State, id: nat)
    requires Exec(Step, INIT, acts) == Some(t)
    ensures multiset(PolledBy(acts))[id] + multiset(t.runQueue)[id] + (if InFlight(t) && t.pc.id == id then 1 else 0)
            == multiset(Ids(SpawnedBy(acts)))[id] + Wakes(acts, id)
    ensures TakeIds(acts) <= ID_LIMIT ==> multiset(Ids(SpawnedBy(acts)))[id] == if id in SpawnedBy(acts) then 1 else 0
  {
    FullKept(INIT, acts);
    HistoriesRecorded(acts, t);
    TakenAreAccounted(t, id);
    if t.count <= ID_LIMIT { SpawnedOnce(t, id); }
  }

  lemma SpawnedOnce(t: State, id: nat)
    requires Accounted(t) && t.count <= ID_LIMIT
    ensures multiset(Ids(t.published))[id] == if id in t.published then 1 else 0
  {
    assert Ids(t.published) == t.published;
    DistinctOnce(t.published, id);
  }

  lemma WakersGrow(s: State, a: Action)
    requires Step(s, a).Some? && (a.Find? ==> FindTask(s.tasks, s.pc.id).Some?)
    ensures var s' := Step(s, a).value;
            && s'.wakers == s.wakers + (if a.Find? then {s.pc.id} else {})
            && (a.Find? ==> s'.pc.Polling? && s'.pc.task.id == s.pc.id)
  {}

  /** A task can be woken exactly if it was polled before. */
  lemma {:induction false} WakeableIffPolled(acts: seq<Action>, t: State, id: nat)
    requires Exec(Step, INIT, acts) == Some(t)
    ensures Step(t, Wake(id)).Some? <==> id in PolledBy(acts)
  {
    if acts != [] {
      var init := acts[..|acts| - 1];
      var m := Exec(Step, INIT, init).value;
      WakeableIffPolled(init, m, id);
      LookupNeverFails(init, m);
      WakersGrow(m, acts[|acts| - 1]);
    }
  }

  function Dequeues(acts: seq<Action>): nat {
    if acts == [] then 0
    else Dequeues(acts[..|acts| - 1]) + if acts[|acts| - 1].Dequeue? then 1 else 0
  }

  lemma {:induction false} HistoriesGrow(s: State, acts: seq<Action>)
    requires Exec(Step, s, acts).Some?
    ensures var t := Exec(Step, s, acts).value;
            s.enqueued <= t.enqueued && |t.taken| == |s.taken| + Dequeues(acts)
  {
    if acts != [] { HistoriesGrow(s, acts[..|acts| - 1]); }
  }

  lemma ReachableInTurn(acts: seq<Action>)
    requires Exec(Step, INIT, acts).Some?
    ensures InTurn(Exec(Step, INIT, acts).value)
  {
    FullKept(INIT, acts);
  }

  lemma TakenInOrder(s: State, t: State, k: nat)
    requires InTurn(s) && InTurn(t) && s.enqueued <= t.enqueued && k < |s.runQueue| && |t.taken| > |s.taken| + k
    ensures t.taken[|s.taken| + k] == s.runQueue[k]
    ensures |t.polled| > |s.taken| + k ==> t.polled[|s.taken| + k].id == s.runQueue[k]
  {
    var at := |s.taken| + k;
    assert s.runQueue[k] == (s.taken + s.runQueue)[at] == t.enqueued[at];
    assert t.taken[at] == (t.taken + t.runQueue)[at];
  }

  /** The place, among all polls, of the id at position k of the run queue. */
  ghost function Turn(polled: seq<nat>, s: State, k: nat): nat {
    |polled| + (if InFlight(s) then 1 else 0) + k
  }

  /** From s to t, n ids were taken off the queue, and position k is polled in its turn. */
  ghost predicate InTurnAt(done: seq<nat>, s: State, all: seq<nat>, t: State, n: nat, k: nat)
    requires k < |s.runQueue|
  {
    var at := Turn(done, s, k);
    && Turn(all, t, 0) == Turn(done, s, 0) + n
    && (|all| > at ==> all[at] == s.runQueue[k])
    && (InFlight(t) && |all| == at ==> t.pc.id == s.runQueue[k])
  }

  lemma TurnsPass(s: State, t: State, n: nat, k: nat)
    requires InTurn(s) && InTurn(t) && s.enqueued <= t.enqueued && |t.taken| == |s.taken| + n && k < |s.runQueue|
    ensures InTurnAt(TaskIds(s.polled), s, TaskIds(t.polled), t, n, k)
  {
    if |t.taken| > |s.taken| + k { TakenInOrder(s, t, k); }
  }

  /** The id at position k of the run queue is the one polled in the (k+1)-th iteration of the
      loop from here, whatever spawners and wakers do meanwhile. */
  lemma PolledInTurn(before: seq<Action>, s: State, after: seq<Action>, t: State, k: nat)
    requires Exec(Step, INIT, before) == Some(s) && Exec(Step, s, after) == Some(t) && k < |s.runQueue|
    ensures Exec(Step, INIT, before + after) == Some(t)
    ensures InTurnAt(PolledBy(before), s, PolledBy(before + after), t, Dequeues(after), k)
  {
    ReachableInTurn(before);
    ExecConcat(Step, INIT, before, after);
    ReachableInTurn(before + after);
    HistoriesGrow(s, after);
    TurnsPass(s, t, Dequeues(after), k);
    HistoriesRecorded(before, s);
    HistoriesRecorded(before + after, t);
  }
}
