/** Schedule resolution (class TaskSchedule in django/background_task/tasks.py):
    a schedule holds an optional run_at, priority and action; `Create` builds
    one from whatever the caller passed, `Merge` layers a call-time schedule
    over a task's default one, and `RunAt`/`Priority`/`Action` resolve the
    effective values. Times are whole seconds. */
module Schedules {
  import opened Wrappers

  /** The three dedup actions; any other integer behaves like none of them. */
  const SCHEDULE := 0
  const RESCHEDULE_EXISTING := 1
  const CHECK_EXISTING := 2

  /** What may be stored as run_at: an int (seconds from now), a timedelta
      (seconds from now) or a datetime (an absolute time). */
  datatype RunAtValue = Seconds(n: int) | Delta(seconds: int) | Moment(time: int)

  datatype TaskSchedule = TaskSchedule(runAt: Option<RunAtValue>, priority: Option<int>, action: Option<int>)

  const EmptySchedule := TaskSchedule(None, None, None)

  /** The argument a caller passes as `schedule`: nothing, a TaskSchedule, an
      int, a timedelta, a datetime, or a dict whose absent keys read as None. */
  datatype ScheduleArg =
    | NoSchedule
    | GivenSchedule(schedule: TaskSchedule)
    | IntArg(n: int)
    | DeltaArg(seconds: int)
    | DatetimeArg(time: int)
    | DictArg(dictRunAt: Option<RunAtValue>, dictPriority: Option<int>, dictAction: Option<int>)

  /** Python truthiness of a run_at value: 0 and a zero timedelta are false,
      every datetime is true. */
  predicate RunAtTruthy(v: RunAtValue) {
    match v
    case Seconds(n) => n != 0
    case Delta(d) => d != 0
    case Moment(_) => true
  }

  /** `TaskSchedule.create(schedule)`. */
  function Create(arg: ScheduleArg): (s: TaskSchedule)
    ensures arg.GivenSchedule? ==> s == arg.schedule
    ensures arg.IntArg? ==> s == (if arg.n == 0 then EmptySchedule else TaskSchedule(Some(Seconds(arg.n)), None, None))
    ensures arg.DeltaArg? ==> s == (if arg.seconds == 0 then EmptySchedule else TaskSchedule(Some(Delta(arg.seconds)), None, None))
    ensures arg.DatetimeArg? ==> s == TaskSchedule(Some(Moment(arg.time)), None, None)
    ensures arg.DictArg? ==> s == TaskSchedule(arg.dictRunAt, arg.dictPriority, arg.dictAction)
    ensures arg.NoSchedule? ==> s == EmptySchedule
  {
    match arg
    case GivenSchedule(t) => t
    case NoSchedule => EmptySchedule
    case IntArg(n) => if n == 0 then EmptySchedule else TaskSchedule(Some(Seconds(n)), None, None)
    case DeltaArg(d) => if d == 0 then EmptySchedule else TaskSchedule(Some(Delta(d)), None, None)
    case DatetimeArg(t) => TaskSchedule(Some(Moment(t)), None, None)
    case DictArg(r, p, a) => TaskSchedule(r, p, a)
  }

  /** `call.merge(default)`: per field, the call-time value unless it is None. */
  function Merge(call: TaskSchedule, default: TaskSchedule): (s: TaskSchedule)
    ensures s.runAt == (if call.runAt.Some? then call.runAt else default.runAt)
    ensures s.priority == (if call.priority.Some? then call.priority else default.priority)
    ensures s.action == (if call.action.Some? then call.action else default.action)
  {
    TaskSchedule(
      if call.runAt.None? then default.runAt else call.runAt,
      if call.priority.None? then default.priority else call.priority,
      if call.action.None? then default.action else call.action)
  }

  /** The `run_at` property at time `now`. */
  function RunAt(s: TaskSchedule, now: int): (t: int)
    ensures s.runAt.None? ==> t == now
    ensures s.runAt.Some? && s.runAt.value.Seconds? ==> t == now + s.runAt.value.n
    ensures s.runAt.Some? && s.runAt.value.Delta? ==> t == now + s.runAt.value.seconds
    ensures s.runAt.Some? && s.runAt.value.Moment? ==> t == s.runAt.value.time
  {
    if s.runAt.None? || !RunAtTruthy(s.runAt.value) then now
    else match s.runAt.value
      case Seconds(n) => now + n
      case Delta(d) => now + d
      case Moment(m) => m
  }

  /** The `priority` property: 0 unless one is set. */
  function Priority(s: TaskSchedule): (p: int)
    ensures p == (if s.priority.Some? then s.priority.value else 0)
  {
    if s.priority.None? || s.priority.value == 0 then 0 else s.priority.value
  }

  /** The `action` property: SCHEDULE unless one is set. */
  function Action(s: TaskSchedule): (a: int)
    ensures a == (if s.action.Some? then s.action.value else SCHEDULE)
  {
    if s.action.None? || s.action.value == SCHEDULE then SCHEDULE else s.action.value
  }

  /** The values a call to a task proxy resolves (TaskProxy.__call__): the
      call-time schedule merged over the task's default, and a `priority`
      keyword overriding the merged priority. */
  datatype Resolved = Resolved(runAt: int, priority: int, action: int)

  function ResolveCall(callArg: ScheduleArg, default: TaskSchedule, priorityKeyword: Option<int>, now: int): (r: Resolved)
    ensures r.runAt == RunAt(Merge(Create(callArg), default), now)
    ensures priorityKeyword.Some? ==> r.priority == priorityKeyword.value
    ensures priorityKeyword.None? ==> r.priority == Priority(Merge(Create(callArg), default))
    ensures r.action == Action(Merge(Create(callArg), default))
  {
    var s := Merge(Create(callArg), default);
    Resolved(RunAt(s, now), priorityKeyword.GetOr(Priority(s)), Action(s))
  }

  /** A call-time datetime wins over the default's run_at, a default
      priority survives, and an explicit priority 0 overrides the default. */
  lemma CallTimeOverridesDefault(default: TaskSchedule, t: int, now: int)
    ensures RunAt(Merge(Create(DatetimeArg(t)), default), now) == t
    ensures Priority(Merge(Create(DatetimeArg(t)), default)) == Priority(default)
    ensures Priority(Merge(Create(DictArg(None, Some(0), None)), default)) == 0
    ensures Action(Merge(Create(DictArg(None, Some(0), None)), default)) == Action(default)
  {
  }

  /** A falsy delay (None, 0 or a zero timedelta) resolves to now. */
  lemma FalsyDelayIsNow(arg: ScheduleArg, now: int)
    requires arg.NoSchedule? || arg == IntArg(0) || arg == DeltaArg(0)
    ensures RunAt(Create(arg), now) == now
    ensures Priority(Create(arg)) == 0 && Action(Create(arg)) == SCHEDULE
  {
  }
}
