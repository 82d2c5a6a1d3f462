/** The database-backed task queue (django/background_task/tasks.py).

    The Task table is a sequence of rows in insertion order, each with a
    unique id; CompletedTask is an append-only sequence of snapshots. The
    operations that change the tables are written once as functions on a
    `StoreState` value and carried out by the methods of `TaskStore`,
    `DBTaskRunner` and `Tasks`, whose postconditions tie the new state to
    those functions. Times are whole seconds and `now` is a parameter. */
module TaskQueue {
  import opened Wrappers
  import opened Schedules
  import TaskSettings
  import Text

  /** A formatted exception, which always has some text. */
  type Trace = s: string | |s| > 0 witness "error"

  type Positive = n: int | n > 0 witness 1

  datatype Task = Task(
    id: nat,
    name: string,
    params: string,
    hash: string,
    queue: Option<string>,
    priority: int,
    runAt: int,
    lockedBy: Option<string>,
    lockedAt: Option<int>,
    attempts: nat,
    lastError: string,
    failedAt: Option<int>,
    verboseName: Option<string>,
    creator: Option<nat>,
    repeat: int,
    repeatUntil: Option<int>)

  /** A copy of a task when it was resolved; failedAt None means success. */
  datatype CompletedTask = CompletedTask(snapshot: Task)

  datatype StoreState = StoreState(tasks: seq<Task>, completed: seq<CompletedTask>, nextId: nat)

  predicate DistinctIds(tasks: seq<Task>) {
    forall i, j :: 0 <= i < j < |tasks| ==> tasks[i].id != tasks[j].id
  }

  /** Row ids are unique and below the next id to hand out. */
  predicate WellFormed(st: StoreState) {
    && DistinctIds(st.tasks)
    && (forall i :: 0 <= i < |st.tasks| ==> st.tasks[i].id < st.nextId)
  }

  // ---------------------------------------------------------------- rows

  /** Position of the row with the given id. */
  function IndexOfId(tasks: seq<Task>, id: nat): (r: Option<nat>)
    ensures r.Some? ==> r.value < |tasks| && tasks[r.value].id == id
    ensures r.None? ==> forall i :: 0 <= i < |tasks| ==> tasks[i].id != id
  {
    if tasks == [] then None
    else if tasks[0].id == id then Some(0)
    else match IndexOfId(tasks[1..], id)
      case None => None
      case Some(k) => Some(k + 1)
  }

  /** The table without the row(s) with the given id (`task.delete()`). */
  function Delete(tasks: seq<Task>, id: nat): (r: seq<Task>)
    ensures forall t :: t in r <==> t in tasks && t.id != id
    ensures |r| <= |tasks|
  {
    if tasks == [] then []
    else (if tasks[0].id == id then [] else [tasks[0]]) + Delete(tasks[1..], id)
  }

  /** The table with the row carrying t's id overwritten by t (`task.save()`). */
  function Replace(tasks: seq<Task>, t: Task): (r: seq<Task>)
    ensures |r| == |tasks|
    ensures forall i :: 0 <= i < |tasks| ==> r[i] == (if tasks[i].id == t.id then t else tasks[i])
  {
    seq(|tasks|, i requires 0 <= i < |tasks| => if tasks[i].id == t.id then t else tasks[i])
  }

  /** With unique ids, saving a row overwrites exactly its position. */
  lemma ReplaceAt(tasks: seq<Task>, i: nat, t: Task)
    requires DistinctIds(tasks) && i < |tasks| && tasks[i].id == t.id
    ensures Replace(tasks, t) == tasks[i := t]
    ensures DistinctIds(tasks[i := t])
  {
    var r := Replace(tasks, t);
    forall j | 0 <= j < |tasks| ensures r[j] == tasks[i := t][j] {
      if j != i {
        assert j < i ==> tasks[j].id != tasks[i].id;
        assert j > i ==> tasks[i].id != tasks[j].id;
      }
    }
  }

  lemma {:induction false} DeleteKeepsDistinct(tasks: seq<Task>, id: nat)
    requires DistinctIds(tasks)
    ensures DistinctIds(Delete(tasks, id))
  {
    if tasks != [] {
      assert DistinctIds(tasks[1..]);
      DeleteKeepsDistinct(tasks[1..], id);
      var rest := Delete(tasks[1..], id);
      if tasks[0].id != id {
        forall k | 0 <= k < |rest| ensures rest[k].id != tasks[0].id {
          assert rest[k] in tasks[1..];
        }
        ConsDistinct(tasks[0], rest);
      } else {
        assert Delete(tasks, id) == [] + rest;
      }
    }
  }

  /** A row whose id no other row has keeps the ids distinct. */
  lemma ConsDistinct(t: Task, rest: seq<Task>)
    requires DistinctIds(rest)
    requires forall k :: 0 <= k < |rest| ==> rest[k].id != t.id
    ensures DistinctIds([t] + rest)
  {
    var r := [t] + rest;
    forall i, j | 0 <= i < j < |r| ensures r[i].id != r[j].id {
      assert r[j] == rest[j - 1];
      if i > 0 {
        assert r[i] == rest[i - 1];
      }
    }
  }

  lemma DeleteKeepsWellFormed(st: StoreState, id: nat)
    requires WellFormed(st)
    ensures WellFormed(st.(tasks := Delete(st.tasks, id)))
  {
    DeleteKeepsDistinct(st.tasks, id);
    var r := Delete(st.tasks, id);
    forall i | 0 <= i < |r| ensures r[i].id < st.nextId {
      assert r[i] in st.tasks;
    }
  }

  // ------------------------------------------------------------- leases

  /** `if queue:` — a queue filter applies only when a non-empty name is given. */
  predicate QueueGiven(queue: Option<string>) { queue.Some? && queue.value != "" }

  predicate InQueue(t: Task, queue: Option<string>) { !QueueGiven(queue) || t.queue == queue }

  /** `Task.objects.unlocked(now)`: no lease, or a lease older than maxRunTime. */
  predicate Unlocked(t: Task, now: int, maxRunTime: int) {
    t.lockedBy.None? || (t.lockedAt.Some? && t.lockedAt.value < now - maxRunTime)
  }

  /** Eligible for `find_available(queue)`. */
  predicate Available(t: Task, queue: Option<string>, now: int, maxRunTime: int) {
    Unlocked(t, now, maxRunTime) && InQueue(t, queue) && t.runAt <= now
  }

  function FilterAvailable(tasks: seq<Task>, queue: Option<string>, now: int, maxRunTime: int): (r: seq<Task>)
    ensures forall t :: t in r <==> t in tasks && Available(t, queue, now, maxRunTime)
    ensures multiset(r) <= multiset(tasks)
  {
    if tasks == [] then []
    else
      var rest := FilterAvailable(tasks[1..], queue, now, maxRunTime);
      assert tasks == [tasks[0]] + tasks[1..];
      if Available(tasks[0], queue, now, maxRunTime) then [tasks[0]] + rest else rest
  }

  /** Candidate order: priority (descending unless configured ascending),
      then the oldest run_at first. */
  predicate StrictlyBefore(a: Task, b: Task, higherFirst: bool) {
    if a.priority != b.priority then (if higherFirst then a.priority > b.priority else a.priority < b.priority)
    else a.runAt < b.runAt
  }

  predicate Ordered(s: seq<Task>, higherFirst: bool) {
    forall i, j :: 0 <= i < j < |s| ==> !StrictlyBefore(s[j], s[i], higherFirst)
  }

  /** Stable insertion of t before every row it does not strictly follow. */
  function Insert(t: Task, s: seq<Task>, higherFirst: bool): (r: seq<Task>)
    ensures multiset(r) == multiset(s) + multiset{t}
  {
    if s == [] then [t]
    else if StrictlyBefore(s[0], t, higherFirst) then
      assert s == [s[0]] + s[1..];
      [s[0]] + Insert(t, s[1..], higherFirst)
    else [t] + s
  }

  function Sort(s: seq<Task>, higherFirst: bool): (r: seq<Task>)
    ensures multiset(r) == multiset(s)
  {
    if s == [] then []
    else
      assert s == [s[0]] + s[1..];
      Insert(s[0], Sort(s[1..], higherFirst), higherFirst)
  }

  lemma {:induction false} InsertOrdered(t: Task, s: seq<Task>, higherFirst: bool)
    requires Ordered(s, higherFirst)
    ensures Ordered(Insert(t, s, higherFirst), higherFirst)
  {
    if s != [] && StrictlyBefore(s[0], t, higherFirst) {
      InsertOrdered(t, s[1..], higherFirst);
      var rest := Insert(t, s[1..], higherFirst);
      forall k | 0 <= k < |rest| ensures !StrictlyBefore(rest[k], s[0], higherFirst) {
        assert rest[k] in multiset(rest);
        assert rest[k] == t || rest[k] in s[1..];
      }
    }
  }

  lemma {:induction false} SortOrdered(s: seq<Task>, higherFirst: bool)
    ensures Ordered(Sort(s, higherFirst), higherFirst)
  {
    if s != [] {
      SortOrdered(s[1..], higherFirst);
      InsertOrdered(s[0], Sort(s[1..], higherFirst), higherFirst);
    }
  }

  /** `Task.objects.find_available(queue)`. */
  function FindAvailable(tasks: seq<Task>, queue: Option<string>, now: int, settings: TaskSettings.ProjectSettings): seq<Task> {
    Sort(FilterAvailable(tasks, queue, now, TaskSettings.MaxRunTime(settings)), TaskSettings.HigherPriorityFirst(settings))
  }

  /** find_available returns exactly the eligible rows, in candidate order. */
  lemma FindAvailableSpec(tasks: seq<Task>, queue: Option<string>, now: int, settings: TaskSettings.ProjectSettings)
    ensures var r := FindAvailable(tasks, queue, now, settings);
      && (forall t :: t in r <==> t in tasks && Available(t, queue, now, TaskSettings.MaxRunTime(settings)))
      && Ordered(r, TaskSettings.HigherPriorityFirst(settings))
  {
    var mrt := TaskSettings.MaxRunTime(settings);
    var f := FilterAvailable(tasks, queue, now, mrt);
    SortOrdered(f, TaskSettings.HigherPriorityFirst(settings));
    var r := Sort(f, TaskSettings.HigherPriorityFirst(settings));
    forall t ensures t in r <==> t in f {
      assert t in r <==> t in multiset(r);
      assert t in f <==> t in multiset(f);
    }
  }

  datatype LockResult = LockResult(claimed: Option<Task>, tasks: seq<Task>)

  function Locked(t: Task, worker: string, now: int): Task {
    t.(lockedBy := Some(worker), lockedAt := Some(now))
  }

  /** `task.lock(worker)`: the conditional update that sets the lease only
      when the row still exists and is unlocked at `now`. */
  function LockRow(tasks: seq<Task>, id: nat, worker: string, now: int, maxRunTime: int): (r: LockResult)
    ensures r.claimed.None? ==> r.tasks == tasks
    ensures r.claimed.Some? ==>
      exists i :: 0 <= i < |tasks| && tasks[i].id == id && Unlocked(tasks[i], now, maxRunTime)
        && r.claimed.value == Locked(tasks[i], worker, now) && r.tasks == tasks[i := r.claimed.value]
  {
    match IndexOfId(tasks, id)
    case None => LockResult(None, tasks)
    case Some(i) =>
      if Unlocked(tasks[i], now, maxRunTime) then
        var l := Locked(tasks[i], worker, now);
        LockResult(Some(l), tasks[i := l])
      else LockResult(None, tasks)
  }

  /** Whoever takes a lease first holds it: a second worker trying the same
      row at the same moment gets nothing (given a non-negative run time). */
  lemma AtMostOneClaim(tasks: seq<Task>, id: nat, w1: string, w2: string, now: int, maxRunTime: int)
    requires maxRunTime >= 0
    requires DistinctIds(tasks)
    requires LockRow(tasks, id, w1, now, maxRunTime).claimed.Some?
    ensures LockRow(LockRow(tasks, id, w1, now, maxRunTime).tasks, id, w2, now, maxRunTime).claimed.None?
  {
    var first := LockRow(tasks, id, w1, now, maxRunTime);
    var i :| 0 <= i < |tasks| && tasks[i].id == id && first.tasks == tasks[i := first.claimed.value];
    var after := first.tasks;
    match IndexOfId(after, id)
    case None =>
    case Some(k) =>
      assert k == i;
  }

  /** A lease older than maxRunTime does not protect the row any more. */
  lemma ExpiredLeaseCanBeClaimed(tasks: seq<Task>, i: nat, worker: string, now: int, maxRunTime: int)
    requires i < |tasks| && tasks[i].lockedBy.Some? && tasks[i].lockedAt.Some?
    requires now - tasks[i].lockedAt.value > maxRunTime
    requires DistinctIds(tasks)
    ensures LockRow(tasks, tasks[i].id, worker, now, maxRunTime).claimed == Some(Locked(tasks[i], worker, now))
  {
    var k := IndexOfId(tasks, tasks[i].id);
    assert k == Some(i);
  }

  /** A row locked by someone else within maxRunTime cannot be claimed. */
  lemma LiveLeaseBlocksClaim(tasks: seq<Task>, i: nat, worker: string, now: int, maxRunTime: int)
    requires i < |tasks| && tasks[i].lockedBy.Some? && tasks[i].lockedAt.Some?
    requires now - tasks[i].lockedAt.value <= maxRunTime
    requires DistinctIds(tasks)
    ensures LockRow(tasks, tasks[i].id, worker, now, maxRunTime).claimed.None?
  {
    var k := IndexOfId(tasks, tasks[i].id);
    assert k == Some(i);
  }

  // ------------------------------------------------------------ claiming

  /** The first (at most) five available rows whose task name is registered. */
  function Candidates(tasks: seq<Task>, registered: set<string>, queue: Option<string>, now: int, settings: TaskSettings.ProjectSettings): (c: seq<Task>)
    ensures |c| <= 5
  {
    var named := RegisteredOnly(FindAvailable(tasks, queue, now, settings), registered);
    if |named| <= 5 then named else named[..5]
  }

  function RegisteredOnly(s: seq<Task>, registered: set<string>): (r: seq<Task>)
    ensures forall t :: t in r <==> t in s && t.name in registered
    ensures |r| <= |s|
  {
    if s == [] then []
    else (if s[0].name in registered then [s[0]] else []) + RegisteredOnly(s[1..], registered)
  }

  /** Try to lock each candidate in turn; the first lock that takes wins. */
  function ClaimFirst(tasks: seq<Task>, candidates: seq<Task>, worker: string, now: int, maxRunTime: int): (r: LockResult)
  {
    if candidates == [] then LockResult(None, tasks)
    else
      var attempt := LockRow(tasks, candidates[0].id, worker, now, maxRunTime);
      if attempt.claimed.Some? then attempt else ClaimFirst(tasks, candidates[1..], worker, now, maxRunTime)
  }

  /** `get_task_to_run`: None when the store is unreachable (OperationalError),
      otherwise the first candidate that could be locked. */
  function GetTaskToRunSpec(tasks: seq<Task>, registered: set<string>, queue: Option<string>, worker: string, now: int,
                            settings: TaskSettings.ProjectSettings, reachable: bool): LockResult
  {
    if !reachable then LockResult(None, tasks)
    else ClaimFirst(tasks, Candidates(tasks, registered, queue, now, settings), worker, now, TaskSettings.MaxRunTime(settings))
  }

  /** Claiming takes a registered, available, unlocked row, changes only its
      lease, and when nothing is claimed the table is unchanged. */
  lemma {:induction false} ClaimFirstSpec(tasks: seq<Task>, candidates: seq<Task>, worker: string, now: int, maxRunTime: int)
    ensures var r := ClaimFirst(tasks, candidates, worker, now, maxRunTime);
      && (r.claimed.None? ==> r.tasks == tasks)
      && (r.claimed.Some? ==>
            exists i, k :: 0 <= i < |tasks| && 0 <= k < |candidates| && tasks[i].id == candidates[k].id
              && Unlocked(tasks[i], now, maxRunTime)
              && r.claimed.value == Locked(tasks[i], worker, now) && r.tasks == tasks[i := r.claimed.value])
  {
    if candidates != [] {
      var attempt := LockRow(tasks, candidates[0].id, worker, now, maxRunTime);
      if attempt.claimed.None? {
        ClaimFirstSpec(tasks, candidates[1..], worker, now, maxRunTime);
        var r := ClaimFirst(tasks, candidates[1..], worker, now, maxRunTime);
        if r.claimed.Some? {
          var i, k :| 0 <= i < |tasks| && 0 <= k < |candidates[1..]| && tasks[i].id == candidates[1..][k].id
              && Unlocked(tasks[i], now, maxRunTime)
              && r.claimed.value == Locked(tasks[i], worker, now) && r.tasks == tasks[i := r.claimed.value];
          assert tasks[i].id == candidates[k + 1].id;
        }
      } else {
        var i :| 0 <= i < |tasks| && tasks[i].id == candidates[0].id && Unlocked(tasks[i], now, maxRunTime)
          && attempt.claimed.value == Locked(tasks[i], worker, now) && attempt.tasks == tasks[i := attempt.claimed.value];
        assert tasks[i].id == candidates[0].id;
      }
    }
  }

  /** In one worker the first candidate is always free: if it is a row of the
      table and its lease allows it, that is the one claimed. */
  lemma ClaimTakesFirstCandidate(tasks: seq<Task>, candidates: seq<Task>, worker: string, now: int, maxRunTime: int)
    requires DistinctIds(tasks)
    requires candidates != [] && candidates[0] in tasks && Unlocked(candidates[0], now, maxRunTime)
    ensures ClaimFirst(tasks, candidates, worker, now, maxRunTime).claimed == Some(Locked(candidates[0], worker, now))
  {
    var i :| 0 <= i < |tasks| && tasks[i] == candidates[0];
    assert IndexOfId(tasks, candidates[0].id) == Some(i);
  }

  /** With DESC ordering, the first claim among available rows prefers the
      highest priority: no available row has a higher one. */
  lemma FirstAvailableHasTopPriority(tasks: seq<Task>, queue: Option<string>, now: int, settings: TaskSettings.ProjectSettings, t: Task)
    requires TaskSettings.HigherPriorityFirst(settings)
    requires FindAvailable(tasks, queue, now, settings) != []
    requires t in tasks && Available(t, queue, now, TaskSettings.MaxRunTime(settings))
    ensures FindAvailable(tasks, queue, now, settings)[0].priority >= t.priority
  {
    FindAvailableSpec(tasks, queue, now, settings);
    var r := FindAvailable(tasks, queue, now, settings);
    var j :| 0 <= j < |r| && r[j] == t;
    if j > 0 {
      assert !StrictlyBefore(r[j], r[0], true);
    }
  }

  // ------------------------------------------------------------- schedule

  /** What `DBTaskRunner.schedule` receives; hash is the digest of (name,
      params), computed by the caller. */
  datatype NewTask = NewTask(
    name: string, params: string, hash: string, runAt: int, priority: int, action: int,
    queue: Option<string>, verboseName: Option<string>, creator: Option<nat>,
    repeat: int, repeatUntil: Option<int>,
    // `remove_existing_tasks`, handed on to `new_task`
    removeExisting: bool)

  function NewRow(req: NewTask, id: nat): Task {
    Task(id, req.name, req.params, req.hash, req.queue, req.priority, req.runAt, None, None, 0, "", None,
         req.verboseName, req.creator, req.repeat, req.repeatUntil)
  }

  /** The rows `unlocked(now).filter(task_hash=hash)` (and the queue, if given). */
  predicate SameJob(t: Task, hash: string, queue: Option<string>, now: int, maxRunTime: int) {
    Unlocked(t, now, maxRunTime) && t.hash == hash && InQueue(t, queue)
  }

  function CountSameJob(tasks: seq<Task>, hash: string, queue: Option<string>, now: int, maxRunTime: int): (n: nat)
    ensures n == 0 <==> forall i :: 0 <= i < |tasks| ==> !SameJob(tasks[i], hash, queue, now, maxRunTime)
  {
    if tasks == [] then 0
    else (if SameJob(tasks[0], hash, queue, now, maxRunTime) then 1 else 0)
         + CountSameJob(tasks[1..], hash, queue, now, maxRunTime)
  }

  /** `existing.update(run_at=run_at, priority=priority)`. */
  function RescheduleSameJob(tasks: seq<Task>, req: NewTask, now: int, maxRunTime: int): (r: seq<Task>)
    ensures |r| == |tasks|
    ensures forall i :: 0 <= i < |tasks| ==>
      r[i] == if SameJob(tasks[i], req.hash, req.queue, now, maxRunTime)
              then tasks[i].(runAt := req.runAt, priority := req.priority) else tasks[i]
  {
    seq(|tasks|, i requires 0 <= i < |tasks| =>
      if SameJob(tasks[i], req.hash, req.queue, now, maxRunTime)
      then tasks[i].(runAt := req.runAt, priority := req.priority) else tasks[i])
  }

  datatype ScheduleOutcome = ScheduleOutcome(state: StoreState, created: Option<Task>)

  function InsertRow(st: StoreState, req: NewTask): ScheduleOutcome {
    var row := NewRow(req, st.nextId);
    ScheduleOutcome(StoreState(st.tasks + [row], st.completed, st.nextId + 1), Some(row))
  }

  function ScheduleSpec(st: StoreState, req: NewTask, now: int, maxRunTime: int): ScheduleOutcome {
    if req.action == SCHEDULE then InsertRow(st, req)
    else
      var existing := CountSameJob(st.tasks, req.hash, req.queue, now, maxRunTime);
      if req.action == RESCHEDULE_EXISTING && existing > 0 then
        ScheduleOutcome(st.(tasks := RescheduleSameJob(st.tasks, req, now, maxRunTime)), None)
      else if req.action == CHECK_EXISTING && existing > 0 then ScheduleOutcome(st, None)
      else InsertRow(st, req)
  }

  /** The dedup rules: SCHEDULE (and any unknown action) always inserts one
      row; RESCHEDULE_EXISTING updates the unlocked rows of the same job and
      inserts nothing when there is one; CHECK_EXISTING leaves everything as it
      is when there is one; otherwise one row is inserted. */
  lemma ScheduleDedup(st: StoreState, req: NewTask, now: int, maxRunTime: int)
    ensures var o := ScheduleSpec(st, req, now, maxRunTime);
      var existing := exists i :: 0 <= i < |st.tasks| && SameJob(st.tasks[i], req.hash, req.queue, now, maxRunTime);
      && o.state.completed == st.completed
      && (o.created.Some? <==>
            (req.action != RESCHEDULE_EXISTING && req.action != CHECK_EXISTING) || !existing || req.action == SCHEDULE)
      && (o.created.Some? ==>
            o.created.value == NewRow(req, st.nextId) && o.state.tasks == st.tasks + [o.created.value]
            && o.state.nextId == st.nextId + 1)
      && (req.action == CHECK_EXISTING && existing ==> o.state == st)
      && (req.action == RESCHEDULE_EXISTING && existing ==>
            o.state.tasks == RescheduleSameJob(st.tasks, req, now, maxRunTime) && o.state.nextId == st.nextId)
  {
  }

  lemma InsertRowKeepsWellFormed(st: StoreState, req: NewTask)
    requires WellFormed(st)
    ensures WellFormed(InsertRow(st, req).state)
  {
  }

  lemma ScheduleKeepsWellFormed(st: StoreState, req: NewTask, now: int, maxRunTime: int)
    requires WellFormed(st)
    ensures WellFormed(ScheduleSpec(st, req, now, maxRunTime).state)
  {
    InsertRowKeepsWellFormed(st, req);
  }

  /** Enqueueing the same job twice as CHECK_EXISTING leaves one row; as
      RESCHEDULE_EXISTING leaves one row carrying the second call's run_at. */
  lemma DedupTwice(req1: NewTask, req2: NewTask, now: int, maxRunTime: int)
    requires req1.hash == req2.hash && req1.queue == req2.queue && req1.action == req2.action
    requires req1.action == CHECK_EXISTING || req1.action == RESCHEDULE_EXISTING
    ensures var st := ScheduleSpec(ScheduleSpec(StoreState([], [], 1), req1, now, maxRunTime).state, req2, now, maxRunTime).state;
      && |st.tasks| == 1
      && (req1.action == RESCHEDULE_EXISTING ==> st.tasks[0].runAt == req2.runAt)
      && (req1.action == CHECK_EXISTING ==> st.tasks[0].runAt == req1.runAt)
  {
    var st1 := ScheduleSpec(StoreState([], [], 1), req1, now, maxRunTime).state;
    assert st1.tasks == [NewRow(req1, 1)];
    assert SameJob(st1.tasks[0], req2.hash, req2.queue, now, maxRunTime);
  }

  // ---------------------------------------------------- running a claimed task

  /** What the handler did: returned normally, or raised (invalid when the
      exception is an InvalidTaskError). */
  datatype Outcome = Succeeded | Failed(trace: Trace, invalid: bool)

  /** A repeating task's next run: one interval after run_at, skipping
      whole intervals until it lies after now. */
  function NextRunAt(runAt: int, repeat: int, now: int): (next: int)
    requires repeat > 0
    decreases now - runAt
  {
    if runAt + repeat > now then runAt + repeat else NextRunAt(runAt + repeat, repeat, now)
  }

  /** The next run lies after now, a whole number (at least one) of intervals
      after run_at, and, for a task that was due, within one interval of now. */
  lemma {:induction false} NextRunAtSpec(runAt: int, repeat: int, now: int)
    requires repeat > 0
    decreases now - runAt
    ensures var next := NextRunAt(runAt, repeat, now);
      && next > now && (runAt <= now ==> next - now <= repeat)
      && next >= runAt + repeat
      && exists k: nat :: k >= 1 && next == runAt + k * repeat
  {
    if runAt + repeat > now {
      assert runAt + repeat == runAt + 1 * repeat;
    } else {
      NextRunAtSpec(runAt + repeat, repeat, now);
      var next := NextRunAt(runAt, repeat, now);
      var k: nat :| k >= 1 && next == runAt + repeat + k * repeat;
      assert next == runAt + (k + 1) * repeat;
    }
  }

  predicate Repeats(t: Task, now: int) {
    t.repeat > 0 && (t.repeatUntil.None? || t.repeatUntil.value > now)
  }

  /** `task.create_repetition()`: a fresh row for the next run, or nothing. */
  function Repetition(t: Task, now: int, id: nat): Option<Task> {
    if Repeats(t, now) then
      Some(Task(id, t.name, t.params, t.hash, t.queue, t.priority, NextRunAt(t.runAt, t.repeat, now),
                None, None, 0, "", None, t.verboseName, t.creator, t.repeat, t.repeatUntil))
    else None
  }

  /** bg_runner on normal return: count the attempt, archive one success,
      insert the repetition (if any) and delete the row. */
  function SucceedSpec(st: StoreState, t: Task, now: int): StoreState {
    var done := t.(attempts := t.attempts + 1);
    var rep := Repetition(done, now, st.nextId);
    StoreState(
      Delete(st.tasks, t.id) + (if rep.Some? then [rep.value] else []),
      st.completed + [CompletedTask(done)],
      if rep.Some? then st.nextId + 1 else st.nextId)
  }

  /** bg_runner on an exception (`task.reschedule`): count the attempt and keep
      the error; terminal when attempts reach maxAttempts or the error is an
      InvalidTaskError, otherwise released and pushed back by `backoff`. */
  function FailSpec(st: StoreState, t: Task, trace: Trace, invalid: bool, now: int, backoff: Positive, maxAttempts: int): StoreState {
    var tried := t.(attempts := t.attempts + 1, lastError := trace);
    if tried.attempts >= maxAttempts || invalid then
      StoreState(Delete(st.tasks, t.id), st.completed + [CompletedTask(tried.(failedAt := Some(now)))], st.nextId)
    else
      st.(tasks := Replace(st.tasks, tried.(runAt := now + backoff, lockedBy := None, lockedAt := None)))
  }

  function RunTaskSpec(st: StoreState, t: Task, outcome: Outcome, now: int, backoff: Positive, maxAttempts: int): StoreState {
    match outcome
    case Succeeded => SucceedSpec(st, t, now)
    case Failed(trace, invalid) => FailSpec(st, t, trace, invalid, now, backoff, maxAttempts)
  }

  /** Success: exactly one CompletedTask (a success, with the attempt
      counted), the row gone, and for a task that does not repeat nothing
      else changes in the table. */
  lemma SucceedOutcome(st: StoreState, t: Task, now: int)
    requires WellFormed(st) && t.failedAt.None? && t.runAt <= now
    requires exists i :: 0 <= i < |st.tasks| && st.tasks[i] == t
    ensures var st' := SucceedSpec(st, t, now);
      && st'.completed == st.completed + [CompletedTask(t.(attempts := t.attempts + 1))]
      && st'.completed[|st.completed|].snapshot.failedAt.None?
      && (forall u :: u in st'.tasks && u.id == t.id ==> false)
      && (!Repeats(t, now) ==> st'.tasks == Delete(st.tasks, t.id))
      && WellFormed(st')
  {
    var i :| 0 <= i < |st.tasks| && st.tasks[i] == t;
    assert t.id < st.nextId;
    SucceedKeepsWellFormed(st, t, now);
  }

  /** Success of a repeating task: one new row at the end of the table with
      the same job, no lease and no attempts, whose run_at is the next
      phase-aligned time after now. */
  lemma SucceedRepeats(st: StoreState, t: Task, now: int)
    requires t.runAt <= now && Repeats(t, now)
    ensures var st' := SucceedSpec(st, t, now);
      && |st'.tasks| == |Delete(st.tasks, t.id)| + 1
      && var n := st'.tasks[|st'.tasks| - 1];
      && n.name == t.name && n.params == t.params && n.hash == t.hash
      && n.verboseName == t.verboseName && n.repeatUntil == t.repeatUntil && n.queue == t.queue
      && n.runAt > now && n.runAt - now <= t.repeat && n.runAt >= t.runAt + t.repeat
      && n.lockedBy.None? && n.attempts == 0
  {
    NextRunAtSpec(t.runAt, t.repeat, now);
  }

  /** Terminal failure (attempts reach maxAttempts, or InvalidTaskError):
      one CompletedTask with failed_at set, the attempt counted and the error
      kept, and the row deleted. */
  lemma FailTerminal(st: StoreState, t: Task, trace: Trace, invalid: bool, now: int, backoff: Positive, maxAttempts: int)
    requires WellFormed(st) && t in st.tasks
    requires t.attempts + 1 >= maxAttempts || invalid
    ensures var st' := FailSpec(st, t, trace, invalid, now, backoff, maxAttempts);
      && WellFormed(st')
      && st'.tasks == Delete(st.tasks, t.id)
      && |st'.completed| == |st.completed| + 1 && st'.completed[..|st.completed|] == st.completed
      && var done := st'.completed[|st.completed|].snapshot;
      && done.failedAt == Some(now) && done.attempts == t.attempts + 1 && done.lastError == trace
      && done.id == t.id && done.name == t.name && done.params == t.params
  {
    RunTaskKeepsWellFormed(st, t, Failed(trace, invalid), now, backoff, maxAttempts);
  }

  /** Retryable failure: the row stays, with the attempt counted, a non-empty
      error, failed_at unset, the lease released and run_at later than both
      its old value and now; every other row and the archive are unchanged. */
  lemma FailRetry(st: StoreState, t: Task, k: nat, trace: Trace, now: int, backoff: Positive, maxAttempts: int)
    requires WellFormed(st) && t.failedAt.None? && t.runAt <= now
    requires 0 <= k < |st.tasks| && st.tasks[k] == t
    requires t.attempts + 1 < maxAttempts
    ensures var st' := FailSpec(st, t, trace, false, now, backoff, maxAttempts);
      && WellFormed(st')
      && st'.completed == st.completed && st'.nextId == st.nextId
      && |st'.tasks| == |st.tasks|
      && (forall j :: 0 <= j < |st.tasks| && j != k ==> st'.tasks[j] == st.tasks[j])
      && var r := st'.tasks[k];
      && r.id == t.id && r.name == t.name && r.params == t.params && r.hash == t.hash && r.priority == t.priority
      && r.attempts == t.attempts + 1 && r.lastError == trace && r.lastError != ""
      && r.failedAt.None? && r.runAt > t.runAt && r.runAt > now
      && r.lockedBy.None? && r.lockedAt.None?
  {
    RunTaskKeepsWellFormed(st, t, Failed(trace, false), now, backoff, maxAttempts);
  }

  /** The retry test: with MAX_ATTEMPTS = 2 a task that always fails survives
      its first failure and is archived as failed after the second. */
  lemma RetryThenGiveUp(st: StoreState, t: Task, trace: Trace, now: int, backoff: Positive)
    requires WellFormed(st) && t.failedAt.None? && t.attempts == 0 && t.runAt <= now
    requires exists i :: 0 <= i < |st.tasks| && st.tasks[i] == t
    ensures FailSpec(st, t, trace, false, now, backoff, 2).completed == st.completed
    ensures var st1 := FailSpec(st, t, trace, false, now, backoff, 2);
      var i :| 0 <= i < |st1.tasks| && st1.tasks[i].id == t.id;
      var st2 := FailSpec(st1, st1.tasks[i], trace, false, now + backoff, backoff, 2);
      |st2.completed| == |st.completed| + 1 && st2.completed[|st.completed|].snapshot.failedAt.Some?
  {
    var k :| 0 <= k < |st.tasks| && st.tasks[k] == t;
    var st1 := FailSpec(st, t, trace, false, now, backoff, 2);
    assert st1.tasks[k].id == t.id;
  }

  // ---------------------------------------------------------------- objects

  /** The Task and CompletedTask tables. */
  class TaskStore {
    var tasks: seq<Task>
    var completed: seq<CompletedTask>
    var nextId: nat

    function State(): StoreState
      reads this
    {
      StoreState(tasks, completed, nextId)
    }

    ghost predicate Valid()
      reads this
    {
      WellFormed(State())
    }

    constructor ()
      ensures Valid() && State() == StoreState([], [], 1)
    {
      tasks, completed, nextId := [], [], 1;
    }

    method SetState(st: StoreState)
      requires WellFormed(st)
      modifies this
      ensures Valid() && State() == st
    {
      tasks, completed, nextId := st.tasks, st.completed, st.nextId;
    }

    /** `task.save()` of a row that is in the table. */
    method Save(t: Task, ghost i: nat)
      requires Valid() && i < |tasks| && tasks[i].id == t.id
      modifies this
      ensures Valid()
      ensures tasks == old(tasks)[i := t]
      ensures completed == old(completed) && nextId == old(nextId)
    {
      ReplaceAt(tasks, i, t);
      tasks := Replace(tasks, t);
    }

    /** `task.lock(worker)` against the current table. */
    method Lock(id: nat, worker: string, now: int, maxRunTime: int) returns (claimed: Option<Task>)
      requires Valid()
      modifies this
      ensures Valid()
      ensures LockResult(claimed, tasks) == LockRow(old(tasks), id, worker, now, maxRunTime)
      ensures completed == old(completed) && nextId == old(nextId)
    {
      var r := LockRow(tasks, id, worker, now, maxRunTime);
      if r.claimed.Some? {
        var i :| 0 <= i < |tasks| && tasks[i].id == id && r.tasks == tasks[i := r.claimed.value];
        assert forall j :: 0 <= j < |r.tasks| ==> r.tasks[j].id == tasks[j].id;
      }
      claimed, tasks := r.claimed, r.tasks;
    }
  }

  /** A registered task: its name, default schedule and queue. */
  datatype TaskProxy = TaskProxy(name: string, schedule: TaskSchedule, queue: Option<string>, removeExistingTasks: bool)

  class DBTaskRunner {
    const workerName: string

    constructor (pid: nat)
      ensures workerName == Text.IntToString(pid)
    {
      workerName := Text.IntToString(pid);
    }

    /** `schedule(...)`: insert, or apply the dedup action. */
    method Schedule(store: TaskStore, req: NewTask, now: int, settings: TaskSettings.ProjectSettings) returns (created: Option<Task>)
      requires store.Valid()
      modifies store
      ensures store.Valid()
      ensures var o := ScheduleSpec(old(store.State()), req, now, TaskSettings.MaxRunTime(settings));
        store.State() == o.state && created == o.created
    {
      var o := ScheduleSpec(store.State(), req, now, TaskSettings.MaxRunTime(settings));
      ScheduleKeepsWellFormed(store.State(), req, now, TaskSettings.MaxRunTime(settings));
      store.SetState(o.state);
      created := o.created;
    }

    /** `get_task_to_run(tasks, queue)`: lock the first of at most five
        registered available candidates. */
    method GetTaskToRun(store: TaskStore, registered: set<string>, queue: Option<string>, now: int,
                        settings: TaskSettings.ProjectSettings, reachable: bool) returns (claimed: Option<Task>)
      requires store.Valid()
      modifies store
      ensures store.Valid()
      ensures var r := GetTaskToRunSpec(old(store.tasks), registered, queue, workerName, now, settings, reachable);
        claimed == r.claimed && store.tasks == r.tasks
      ensures store.completed == old(store.completed) && store.nextId == old(store.nextId)
    {
      if !reachable {
        return None;
      }
      var candidates := Candidates(store.tasks, registered, queue, now, settings);
      claimed := ClaimCandidates(store, candidates, now, TaskSettings.MaxRunTime(settings));
    }

    /** Try to lock each candidate in turn until one lock takes. */
    method ClaimCandidates(store: TaskStore, candidates: seq<Task>, now: int, maxRunTime: int) returns (claimed: Option<Task>)
      requires store.Valid()
      modifies store
      ensures store.Valid()
      ensures LockResult(claimed, store.tasks) == ClaimFirst(old(store.tasks), candidates, workerName, now, maxRunTime)
      ensures store.completed == old(store.completed) && store.nextId == old(store.nextId)
    {
      var k := 0;
      while k < |candidates|
        invariant 0 <= k <= |candidates|
        invariant store.Valid()
        invariant store.tasks == old(store.tasks)
        invariant store.completed == old(store.completed) && store.nextId == old(store.nextId)
        invariant ClaimFirst(old(store.tasks), candidates, workerName, now, maxRunTime)
               == ClaimFirst(old(store.tasks), candidates[k..], workerName, now, maxRunTime)
      {
        assert candidates[k..][1..] == candidates[k + 1..];
        var locked := store.Lock(candidates[k].id, workerName, now, maxRunTime);
        if locked.Some? {
          return locked;
        }
        k := k + 1;
      }
      return None;
    }
  }

  /** The registry of named tasks and the runner. */
  class Tasks {
    var registry: map<string, TaskProxy>
    const runner: DBTaskRunner

    constructor (runner: DBTaskRunner)
      ensures registry == map[] && this.runner == runner
    {
      registry := map[];
      this.runner := runner;
    }

    /** `@tasks.background(name=..., schedule=..., queue=...)`: register a
        proxy under the given name, or under "module.function" without one. */
    method Background(name: Option<string>, moduleName: string, functionName: string, schedule: ScheduleArg,
                      queue: Option<string>, removeExistingTasks: bool) returns (proxy: TaskProxy)
      modifies this
      ensures proxy.name == (if name.Some? && name.value != "" then name.value else moduleName + "." + functionName)
      ensures proxy.schedule == Create(schedule) && proxy.queue == queue
      ensures proxy.removeExistingTasks == removeExistingTasks
      ensures registry == old(registry)[proxy.name := proxy]
    {
      var taskName := if name.Some? && name.value != "" then name.value else moduleName + "." + functionName;
      proxy := TaskProxy(taskName, Create(schedule), queue, removeExistingTasks);
      registry := registry[taskName := proxy];
    }

    /** Calling a proxy (TaskProxy.__call__): resolve the schedule and hand
        the job to the runner. A `queue` or `remove_existing_tasks` keyword
        overrides the proxy's own. */
    method Enqueue(store: TaskStore, proxy: TaskProxy, params: string, hash: string, schedule: ScheduleArg,
                   priority: Option<int>, queue: Option<Option<string>>, verboseName: Option<string>,
                   creator: Option<nat>, repeat: Option<int>, repeatUntil: Option<int>,
                   removeExistingTasks: Option<bool>,
                   now: int, settings: TaskSettings.ProjectSettings) returns (created: Option<Task>)
      requires store.Valid()
      modifies store
      ensures store.Valid()
      ensures var r := ResolveCall(schedule, proxy.schedule, priority, now);
        var req := NewTask(proxy.name, params, hash, r.runAt, r.priority, r.action, queue.GetOr(proxy.queue),
                           verboseName, creator, repeat.GetOr(0), repeatUntil,
                           removeExistingTasks.GetOr(proxy.removeExistingTasks));
        var o := ScheduleSpec(old(store.State()), req, now, TaskSettings.MaxRunTime(settings));
        store.State() == o.state && created == o.created
    {
      var r := ResolveCall(schedule, proxy.schedule, priority, now);
      var req := NewTask(proxy.name, params, hash, r.runAt, r.priority, r.action, queue.GetOr(proxy.queue),
                         verboseName, creator, repeat.GetOr(0), repeatUntil,
                         removeExistingTasks.GetOr(proxy.removeExistingTasks));
      created := runner.Schedule(store, req, now, settings);
    }

    /** `run_next_task(queue)`: claim a task and run it; true iff one was
        claimed. `handler` gives the outcome of running a claimed task. */
    method RunNextTask(store: TaskStore, queue: Option<string>, now: int, settings: TaskSettings.ProjectSettings,
                       reachable: bool, handler: Task -> Outcome, backoff: Positive) returns (ran: bool)
      requires store.Valid()
      modifies store
      ensures store.Valid()
      ensures var c := GetTaskToRunSpec(old(store.tasks), registry.Keys, queue, runner.workerName, now, settings, reachable);
        && ran == c.claimed.Some?
        && (c.claimed.None? ==> store.State() == old(store.State()))
        && (c.claimed.Some? ==>
              store.State() == RunTaskSpec(StoreState(c.tasks, old(store.completed), old(store.nextId)), c.claimed.value,
                                           handler(c.claimed.value), now, backoff, TaskSettings.MaxAttempts(settings)))
    {
      ghost var before := store.tasks;
      var claimed := runner.GetTaskToRun(store, registry.Keys, queue, now, settings, reachable);
      if claimed.None? {
        ClaimTakesAvailableRow(before, registry.Keys, queue, runner.workerName, now, settings, reachable);
        return false;
      }
      var t := claimed.value;
      ClaimedIsInTable(before, registry.Keys, queue, runner.workerName, now, settings, reachable);
      var st := store.State();
      RunTaskKeepsWellFormed(st, t, handler(t), now, backoff, TaskSettings.MaxAttempts(settings));
      store.SetState(RunTaskSpec(st, t, handler(t), now, backoff, TaskSettings.MaxAttempts(settings)));
      ran := true;
    }
  }

  /** What get_task_to_run hands out is a registered row that was available
      at `now`, now leased to this worker; the rest of the table is untouched. */
  lemma ClaimTakesAvailableRow(before: seq<Task>, registered: set<string>, queue: Option<string>, worker: string,
                               now: int, settings: TaskSettings.ProjectSettings, reachable: bool)
    requires DistinctIds(before)
    ensures var c := GetTaskToRunSpec(before, registered, queue, worker, now, settings, reachable);
      && (c.claimed.None? ==> c.tasks == before)
      && (c.claimed.Some? ==>
            exists i :: 0 <= i < |before| && before[i].name in registered
              && Available(before[i], queue, now, TaskSettings.MaxRunTime(settings))
              && c.claimed.value == Locked(before[i], worker, now) && c.tasks == before[i := c.claimed.value])
  {
    if reachable {
      var mrt := TaskSettings.MaxRunTime(settings);
      var cands := Candidates(before, registered, queue, now, settings);
      var c := ClaimFirst(before, cands, worker, now, mrt);
      ClaimFirstSpec(before, cands, worker, now, mrt);
      if c.claimed.Some? {
        var i, k :| 0 <= i < |before| && 0 <= k < |cands| && before[i].id == cands[k].id
          && Unlocked(before[i], now, mrt)
          && c.claimed.value == Locked(before[i], worker, now) && c.tasks == before[i := c.claimed.value];
        CandidateIsAvailable(before, registered, queue, now, settings, k);
        var j :| 0 <= j < |before| && before[j] == cands[k];
        assert j == i;
      }
    }
  }

  /** Every candidate is a registered row of the table that is available. */
  lemma CandidateIsAvailable(before: seq<Task>, registered: set<string>, queue: Option<string>,
                             now: int, settings: TaskSettings.ProjectSettings, k: nat)
    requires k < |Candidates(before, registered, queue, now, settings)|
    ensures var t := Candidates(before, registered, queue, now, settings)[k];
      t in before && t.name in registered && Available(t, queue, now, TaskSettings.MaxRunTime(settings))
  {
    var cands := Candidates(before, registered, queue, now, settings);
    var named := RegisteredOnly(FindAvailable(before, queue, now, settings), registered);
    assert cands[k] in named;
    FindAvailableSpec(before, queue, now, settings);
  }

  lemma ClaimedIsInTable(before: seq<Task>, registered: set<string>, queue: Option<string>, worker: string,
                         now: int, settings: TaskSettings.ProjectSettings, reachable: bool)
    requires DistinctIds(before)
    ensures var c := GetTaskToRunSpec(before, registered, queue, worker, now, settings, reachable);
      c.claimed.Some? ==> c.claimed.value in c.tasks
  {
    ClaimTakesAvailableRow(before, registered, queue, worker, now, settings, reachable);
    var c := GetTaskToRunSpec(before, registered, queue, worker, now, settings, reachable);
    if c.claimed.Some? {
      var i :| 0 <= i < |before| && before[i].name in registered
        && Available(before[i], queue, now, TaskSettings.MaxRunTime(settings))
        && c.claimed.value == Locked(before[i], worker, now) && c.tasks == before[i := c.claimed.value];
      assert c.tasks[i] == c.claimed.value;
    }
  }

  /** Running a row of a well-formed table keeps it well formed. */
  lemma RunTaskKeepsWellFormed(st: StoreState, t: Task, outcome: Outcome, now: int, backoff: Positive, maxAttempts: int)
    requires WellFormed(st) && t in st.tasks
    ensures WellFormed(RunTaskSpec(st, t, outcome, now, backoff, maxAttempts))
  {
    match outcome
    case Succeeded => SucceedKeepsWellFormed(st, t, now);
    case Failed(trace, invalid) => FailKeepsWellFormed(st, t, trace, invalid, now, backoff, maxAttempts);
  }

  lemma SucceedKeepsWellFormed(st: StoreState, t: Task, now: int)
    requires WellFormed(st) && t in st.tasks
    ensures WellFormed(SucceedSpec(st, t, now))
  {
    DeleteKeepsWellFormed(st, t.id);
    assert t.id < st.nextId;
    var rest := Delete(st.tasks, t.id);
    forall j | 0 <= j < |rest| ensures rest[j].id < st.nextId {
      assert rest[j] in st.tasks;
    }
  }

  lemma FailKeepsWellFormed(st: StoreState, t: Task, trace: Trace, invalid: bool, now: int, backoff: Positive, maxAttempts: int)
    requires WellFormed(st) && t in st.tasks
    ensures WellFormed(FailSpec(st, t, trace, invalid, now, backoff, maxAttempts))
  {
    if t.attempts + 1 >= maxAttempts || invalid {
      DeleteKeepsWellFormed(st, t.id);
    } else {
      var tried := t.(attempts := t.attempts + 1, lastError := trace);
      ReplaceKeepsWellFormed(st, tried.(runAt := now + backoff, lockedBy := None, lockedAt := None));
    }
  }

  /** Saving a row keeps the ids of every position. */
  lemma ReplaceKeepsWellFormed(st: StoreState, t: Task)
    requires WellFormed(st)
    ensures WellFormed(st.(tasks := Replace(st.tasks, t)))
  {
    var r := Replace(st.tasks, t);
    assert forall j :: 0 <= j < |r| ==> r[j].id == st.tasks[j].id;
  }
}
