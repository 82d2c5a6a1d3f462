/** The startup recovery sweep (django/background_task/recovery.py): rows
    leased by a worker that is no longer running are released and their
    failure state cleared. Whether a worker is running is a parameter: the
    set of live worker names. */
module TaskRecovery {
  import opened Wrappers
  import opened TaskQueue

  /** `reset_task(task, delay_runtime)`. */
  function ResetTask(t: Task, delay: int): (r: Task)
  {
    t.(attempts := 0, failedAt := None, lockedAt := None, lastError := "", lockedBy := None, runAt := t.runAt + delay)
  }

  /** A reset clears exactly the lease and the failure state, moves run_at by
      the delay and keeps every other field (the job, its priority, queue and
      repetition). */
  lemma ResetTaskSpec(t: Task, delay: int)
    ensures var r := ResetTask(t, delay);
      && r.attempts == 0 && r.failedAt.None? && r.lockedAt.None? && r.lastError == "" && r.lockedBy.None?
      && r.runAt - t.runAt == delay
      && r.id == t.id && r.name == t.name && r.params == t.params && r.hash == t.hash
      && r.queue == t.queue && r.priority == t.priority && r.verboseName == t.verboseName
      && r.creator == t.creator && r.repeat == t.repeat && r.repeatUntil == t.repeatUntil
  {
  }

  /** A reset row can be claimed again: it is unlocked at any time, and
      available as soon as its run_at has come. */
  lemma ResetTaskIsClaimable(t: Task, delay: int, queue: Option<string>, now: int, maxRunTime: int)
    requires InQueue(t, queue) && t.runAt + delay <= now
    ensures Available(ResetTask(t, delay), queue, now, maxRunTime)
  {
  }

  /** A row the sweep resets: leased by a worker that is not running. */
  predicate Stale(t: Task, running: set<string>) {
    t.lockedBy.Some? && t.lockedBy.value !in running
  }

  function RecoverRow(t: Task, running: set<string>): Task {
    if Stale(t, running) then ResetTask(t, 0) else t
  }

  /** The table after `start_recovery()`. */
  function Recovered(tasks: seq<Task>, running: set<string>): (r: seq<Task>)
    ensures |r| == |tasks|
    ensures forall i :: 0 <= i < |tasks| ==> r[i] == RecoverRow(tasks[i], running)
  {
    seq(|tasks|, i requires 0 <= i < |tasks| => RecoverRow(tasks[i], running))
  }

  /** Only stale rows change; they are reset with run_at unchanged, while
      unlocked rows and rows of running workers are left exactly as they were. */
  lemma RecoveredTouchesOnlyStale(tasks: seq<Task>, running: set<string>)
    ensures var r := Recovered(tasks, running);
      forall i :: 0 <= i < |tasks| ==>
        if Stale(tasks[i], running)
        then r[i].lockedBy.None? && r[i].lockedAt.None? && r[i].attempts == 0 && r[i].failedAt.None?
             && r[i].lastError == "" && r[i].runAt == tasks[i].runAt
             && r[i].id == tasks[i].id && r[i].name == tasks[i].name && r[i].params == tasks[i].params
             && r[i].priority == tasks[i].priority && r[i].queue == tasks[i].queue
        else r[i] == tasks[i]
  {
  }

  /** After the sweep every row still leased belongs to a running worker. */
  lemma RecoveredLeavesOnlyLiveLeases(tasks: seq<Task>, running: set<string>)
    ensures var r := Recovered(tasks, running);
      forall i :: 0 <= i < |r| && r[i].lockedBy.Some? ==> r[i].lockedBy.value in running
  {
  }

  /** A second sweep with the same set of running workers changes nothing. */
  lemma RecoveredIdempotent(tasks: seq<Task>, running: set<string>)
    ensures Recovered(Recovered(tasks, running), running) == Recovered(tasks, running)
  {
    var r := Recovered(tasks, running);
    assert forall i :: 0 <= i < |r| ==> !Stale(r[i], running);
  }

  lemma RecoveredKeepsWellFormed(st: StoreState, running: set<string>)
    requires WellFormed(st)
    ensures WellFormed(st.(tasks := Recovered(st.tasks, running)))
  {
    var r := Recovered(st.tasks, running);
    assert forall i :: 0 <= i < |r| ==> r[i].id == st.tasks[i].id;
  }

  /** `start_recovery()`: visit the leased rows and reset each one whose
      worker is not running. */
  method StartRecovery(store: TaskStore, running: set<string>)
    requires store.Valid()
    modifies store
    ensures store.Valid()
    ensures store.tasks == Recovered(old(store.tasks), running)
    ensures store.completed == old(store.completed) && store.nextId == old(store.nextId)
  {
    ghost var before := store.tasks;
    var i := 0;
    while i < |store.tasks|
      invariant store.Valid()
      invariant |store.tasks| == |before| && 0 <= i <= |before|
      invariant forall j :: 0 <= j < i ==> store.tasks[j] == RecoverRow(before[j], running)
      invariant forall j :: i <= j < |before| ==> store.tasks[j] == before[j]
      invariant store.completed == old(store.completed) && store.nextId == old(store.nextId)
    {
      var t := store.tasks[i];
      if t.lockedBy.Some? && t.lockedBy.value !in running {
        store.Save(ResetTask(t, 0), i);
      }
      i := i + 1;
    }
  }
}
