/** The scheduler's configuration (django/background_task/settings.py):
    each option is read from the project settings, with a default when the
    project does not define it. */
module TaskSettings {
  import opened Wrappers

  /** The options a project may define; None means "not defined". */
  datatype ProjectSettings = ProjectSettings(
    maxAttempts: Option<int>,
    maxRunTime: Option<int>,
    runAsync: Option<bool>,
    priorityOrdering: Option<string>)

  const DefaultMaxAttempts := 25
  const DefaultMaxRunTime := 3600

  /** How many times a task is attempted. */
  function MaxAttempts(s: ProjectSettings): (n: int)
    ensures s.maxAttempts.None? ==> n == DefaultMaxAttempts
    ensures s.maxAttempts.Some? ==> n == s.maxAttempts.value
  {
    s.maxAttempts.GetOr(DefaultMaxAttempts)
  }

  /** The long name of the same option; always agrees with MaxAttempts. */
  function BackgroundTaskMaxAttempts(s: ProjectSettings): (n: int)
    ensures n == MaxAttempts(s)
  {
    MaxAttempts(s)
  }

  /** Seconds after which a lease is considered expired. */
  function MaxRunTime(s: ProjectSettings): (n: int)
    ensures s.maxRunTime.None? ==> n == DefaultMaxRunTime
    ensures s.maxRunTime.Some? ==> n == s.maxRunTime.value
  {
    s.maxRunTime.GetOr(DefaultMaxRunTime)
  }

  function BackgroundTaskMaxRunTime(s: ProjectSettings): (n: int)
    ensures n == MaxRunTime(s)
  {
    MaxRunTime(s)
  }

  function BackgroundTaskRunAsync(s: ProjectSettings): (b: bool)
    ensures s.runAsync.None? ==> !b
    ensures s.runAsync.Some? ==> b == s.runAsync.value
  {
    s.runAsync.GetOr(false)
  }

  /** The ordering prefix put before `priority` when ordering tasks: '' sorts
      ascending, '-' descending. Only the exact value 'ASC' selects ''. */
  function PriorityOrderingPrefix(s: ProjectSettings): (prefix: string)
    ensures prefix == "" <==> s.priorityOrdering == Some("ASC")
    ensures prefix == "" || prefix == "-"
  {
    var order := s.priorityOrdering.GetOr("DESC");
    if order == "ASC" then "" else "-"
  }

  /** Whether higher priority values are served first. */
  predicate HigherPriorityFirst(s: ProjectSettings) {
    PriorityOrderingPrefix(s) == "-"
  }

  lemma DescendingByDefault(s: ProjectSettings)
    requires s.priorityOrdering.None? || s.priorityOrdering == Some("DESC")
    ensures HigherPriorityFirst(s)
  {
  }
}
