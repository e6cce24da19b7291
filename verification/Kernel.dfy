/** The kernel object: the spawning handle, the wakers and the run loop, acting on shared
    queues. Every execution is a run of the Executor transition system. */
module Kernel {
  import opened Executor
  import opened Runs

  class Kernel {
    var count: nat
    var spawners: map<nat, Spawner>
    var addQueue: seq<Task>
    var runQueue: seq<nat>
    var tasks: seq<Task>
    var wakers: set<nat>
    ghost var pc: Pc
    ghost var published: seq<nat>
    ghost var wakes: seq<nat>
    ghost var enqueued: seq<nat>
    ghost var taken: seq<nat>
    ghost var polled: seq<Task>
    ghost var missing: nat

    ghost function View(): State
      reads this
    {
      State(count, spawners, addQueue, runQueue, tasks, pc, wakers, published, wakes, enqueued, taken, polled, missing)
    }

    ghost predicate Took(before: State, a: Action)
      reads this
    {
      Step(before, a) == Some(View())
    }

    /** `run` is the history so far, from state `start`. */
    ghost predicate Ran(start: State, run: seq<Action>)
      reads this
    {
      Exec(Step, start, run) == Some(View())
    }

    constructor ()
      ensures View() == INIT
    {
      count, spawners, addQueue, runQueue, tasks, wakers := 0, map[], [], [], [], {};
      pc, published, wakes, enqueued, taken, polled, missing := Waiting, [], [], [], [], [], 0;
    }

    /** Atomically take the next id for spawner p. */
    method TakeId(p: nat)
      requires p !in spawners
      modifies this`count, this`spawners
      ensures Took(old(View()), Action.TakeId(p)) && count == old(count) + 1
    {
      spawners := spawners[p := HasId(count)];
      count := count + 1;
    }

    method PublishTask(p: nat)
      requires p in spawners && spawners[p].HasId?
      modifies this`addQueue, this`spawners
      ensures Took(old(View()), Action.PublishTask(p))
      ensures addQueue == old(addQueue) + [Task(Id(old(spawners[p].ticket)), old(spawners[p].ticket))]
    {
      var k := spawners[p].ticket;
      addQueue := addQueue + [Task(Id(k), k)];
      spawners := spawners[p := TaskSent(k)];
    }

    method PublishId(p: nat)
      requires p in spawners && spawners[p].TaskSent?
      modifies this`runQueue, this`spawners, this`published, this`enqueued
      ensures Took(old(View()), Action.PublishId(p)) && runQueue == old(runQueue) + [Id(old(spawners[p].ticket))]
    {
      var k := spawners[p].ticket;
      runQueue := runQueue + [Id(k)];
      spawners := spawners - {p};
      published, enqueued := published + [k], enqueued + [Id(k)];
    }

    method Wake(id: nat)
      requires id in wakers
      modifies this`runQueue, this`wakes, this`enqueued
      ensures Took(old(View()), Action.Wake(id)) && runQueue == old(runQueue) + [id]
    {
      runQueue := runQueue + [id];
      wakes, enqueued := wakes + [id], enqueued + [id];
    }

    /** A spawner or waker takes a step, if it can. */
    method OtherActs(a: Action, ghost start: State, ghost run: seq<Action>) returns (ghost run': seq<Action>)
      requires Ran(start, run)
      modifies this`count, this`spawners, this`addQueue, this`runQueue, this`published, this`wakes, this`enqueued
      ensures Ran(start, run')
      ensures |addQueue| <= |old(addQueue)| + 1 && |old(runQueue)| <= |runQueue| <= |old(runQueue)| + 1
    {
      run' := run;
      ExecSnoc(Step, start, run, a);
      match a {
        case TakeId(p) => if p !in spawners { TakeId(p); run' := run + [a]; }
        case PublishTask(p) => if p in spawners && spawners[p].HasId? { PublishTask(p); run' := run + [a]; }
        case PublishId(p) => if p in spawners && spawners[p].TaskSent? { PublishId(p); run' := run + [a]; }
        case Wake(id) => if id in wakers { Wake(id); run' := run + [a]; }
        case _ =>
      }
    }

    /** Spawners and wakers take some of their steps between two steps of the loop. */
    method OthersAct(script: seq<Action>, ghost start: State, ghost run: seq<Action>)
      returns (rest: seq<Action>, ghost run': seq<Action>)
      requires Ran(start, run)
      modifies this`count, this`spawners, this`addQueue, this`runQueue, this`published, this`wakes, this`enqueued
      ensures Ran(start, run') && |old(runQueue)| <= |runQueue|
      ensures |rest| + |addQueue| <= |script| + |old(addQueue)| && |rest| + |runQueue| <= |script| + |old(runQueue)|
    {
      rest, run' := script, run;
      var n: nat :| n <= |script|;
      while n > 0
        invariant n <= |rest| && Ran(start, run') && |old(runQueue)| <= |runQueue|
        invariant |rest| + |addQueue| <= |script| + |old(addQueue)| && |rest| + |runQueue| <= |script| + |old(runQueue)|
      {
        run' := OtherActs(rest[0], start, run');
        rest, n := rest[1..], n - 1;
      }
    }

    /** Take the next id off the run queue. */
    method Dequeue() returns (id: nat)
      requires pc.Waiting? && runQueue != []
      modifies this`pc, this`runQueue, this`taken
      ensures Took(old(View()), Action.Dequeue) && pc == Draining(id) && |runQueue| == |old(runQueue)| - 1
    {
      id := runQueue[0];
      runQueue := runQueue[1..];
      taken, pc := taken + [id], Draining(id);
    }

    method DrainNext(ghost start: State, ghost run: seq<Action>)
      requires pc.Draining? && addQueue != [] && Ran(start, run)
      modifies this`tasks, this`addQueue
      ensures Took(old(View()), DrainOne) && Ran(start, run + [DrainOne]) && |addQueue| == |old(addQueue)| - 1
    {
      ExecSnoc(Step, start, run, DrainOne);
      tasks := tasks + [addQueue[0]];
      addQueue := addQueue[1..];
    }

    /** Move the published tasks to the task list until the add queue is empty. */
    method Drain(id: nat, script: seq<Action>, ghost start: State, ghost run: seq<Action>)
      returns (rest: seq<Action>, ghost run': seq<Action>)
      requires pc == Draining(id) && Ran(start, run)
      modifies this`count, this`spawners, this`addQueue, this`runQueue, this`published, this`wakes, this`enqueued, this`tasks, this`pc
      ensures pc == Searching(id) && Ran(start, run')
      ensures |rest| + |runQueue| <= |script| + |old(runQueue)|
    {
      rest, run' := OthersAct(script, start, run);
      while addQueue != []
        invariant pc == Draining(id) && Ran(start, run')
        invariant |rest| + |runQueue| <= |script| + |old(runQueue)|
        decreases |rest| + |addQueue|
      {
        DrainNext(start, run');
        rest, run' := OthersAct(rest, start, run' + [DrainOne]);
      }
      ExecSnoc(Step, start, run', DrainEnd);
      pc := Searching(id);
      run' := run' + [DrainEnd];
    }

    /** Look the task up, first match first, and poll it. */
    method FindAndPoll(id: nat)
      requires pc == Searching(id) && FindTask(tasks, id).Some?
      modifies this`pc, this`wakers, this`polled
      ensures Took(old(View()), Find) && pc.Polling?
    {
      var i: nat := 0;
      while tasks[i].id != id
        invariant i <= FindTask(tasks, id).value
        decreases |tasks| - i
      {
        i := i + 1;
      }
      wakers := wakers + {id};
      polled, pc := polled + [tasks[i]], Polling(tasks[i]);
    }

    /** The second half of a turn: the lookup always succeeds. */
    method LookUpAndPoll(id: nat, script: seq<Action>, ghost run: seq<Action>)
      returns (rest: seq<Action>, ghost run': seq<Action>)
      requires Ran(INIT, run) && pc == Searching(id)
      modifies this
      ensures pc.Waiting? && Ran(INIT, run')
      ensures |rest| + |runQueue| <= |script| + |old(runQueue)|
    {
      LookupNeverFails(run, View());
      ExecSnoc(Step, INIT, run, Find);
      FindAndPoll(id);
      rest, run' := OthersAct(script, INIT, run + [Find]);
      ExecSnoc(Step, INIT, run', PollEnd);
      pc := Waiting;
      run' := run' + [PollEnd];
    }

    /** One turn of the loop, with the other actors in between. */
    method Iterate(script: seq<Action>, ghost run: seq<Action>)
      returns (rest: seq<Action>, ghost run': seq<Action>)
      requires Ran(INIT, run) && pc.Waiting? && runQueue != []
      modifies this
      ensures pc.Waiting? && Ran(INIT, run')
      ensures |rest| + |runQueue| < |script| + |old(runQueue)|
    {
      ExecSnoc(Step, INIT, run, Action.Dequeue);
      var id := Dequeue();
      rest, run' := Drain(id, script, INIT, run + [Action.Dequeue]);
      rest, run' := OthersAct(rest, INIT, run');
      rest, run' := LookUpAndPoll(id, rest, run');
    }

    /** The loop, until no id is left: by then every task was polled once for its spawn and
        once for each time it was woken. */
    method Run(script: seq<Action>) returns (rest: seq<Action>, ghost run: seq<Action>)
      requires View() == INIT
      modifies this
      ensures Exec(Step, INIT, run) == Some(View()) && runQueue == [] && missing == 0
      ensures forall id :: multiset(PolledBy(run))[id] == multiset(Ids(SpawnedBy(run)))[id] + Wakes(run, id)
    {
      rest, run := script, [];
      rest, run := OthersAct(rest, INIT, run);
      while runQueue != []
        invariant pc.Waiting? && Ran(INIT, run)
        decreases |rest| + |runQueue|
      {
        rest, run := Iterate(rest, run);
      }
      LookupNeverFails(run, View());
      forall id ensures multiset(PolledBy(run))[id] == multiset(Ids(SpawnedBy(run)))[id] + Wakes(run, id) {
        PollsAreSpawnPlusWakes(run, View(), id);
      }
    }
  }
}
