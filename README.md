# Labelbase core, modelled in Dafny

Labelbase is a Django service that keeps BIP-329 wallet labels and tracks the
outputs they name. It imports labels from wallet exports, checks outputs against
an Electrum server, syncs fiat values, and runs this work as background tasks.
This project models the core of that service in Dafny and proves properties of
the model. There is one module per source file:

- `wrappers.dfy` (`Wrappers`): `Option` and `Result`.
- `text.dfy` (`Text`): character classes, ASCII lower-casing, decimal text of
  integers, and Python's `int()` of a string.
- `rationals.dfy` (`Rationals`): exact decimals as rationals.
- `task_settings.dfy`, `task_schedule.dfy`, `task_queue.dfy` and
  `task_recovery.dfy`: the background-task package. This covers the settings
  defaults and `TaskSchedule` create/merge. It also covers
  `DBTaskRunner.schedule`, `get_task_to_run`, `run_next_task`, the outcome
  handling in `bg_runner`, and the `Tasks.background` registry. The recovery
  sweep ends the list. The task store is a class over a sequence of task
  records. The runner methods loop where the source loops.
- `tx_math.dfy` (`TxMath`): CompactSize varints, input sizes per script type,
  and BIP 141 weight and virtual size. The fee is rounded with Python's
  round-half-even (`TxMath.RoundHalfEven`), as in the source.
- `label_utils.dfy` (`LabelUtils`): `extract_fiat_value`, a search that
  follows the regular expressions, and `hashtag_to_badge`.
- `label_serializer.dfy` (`LabelSerializer`): per-type field filtering of
  label records, and the storage conversions in both directions. Showing a
  stored label first applies the declared fields' own conversions
  (`IntegerField`, `ListField`), then the serializer's overrides.
- `pocket.dfy` (`Pocket`): the Pocket CSV check and grouping.
- `importer.dfy` (`Importer`): the mapping from lines to labels for BIP-329,
  BitBox and BlueWallet exports, and the Pocket UTXO matching.
- `label_models.dfy` (`LabelModels`): network and mempool URL helpers.
- `finance_models.dfy` (`FinanceModels`): spent status, output metrics, and the
  price lookup.
- `electrum.dfy` (`Electrum`): output references, the unspent-matching loop,
  and the `OutputStat` update rule of `checkup_label`.
- `hashtag_tasks.dfy` (`HashtagTasks`): storing a label's hashtags as objects.
- `compact_uuid.dfy` (`CompactUuid`) and `upload_storage.dfy`
  (`UploadStorage`): compact UUIDs and upload paths.
- `fix_and_merge.dfy` (`FixAndMerge`) and `label_views.dfy` (`LabelViews`): the
  views' datatable filter and paging, and the grouping done by fix-and-merge.
  They also cover currency-sync categorisation, missing fields, and filling a
  label from its `OutputStat`.

Time is an integer number of seconds, and the current time is a parameter.
Decimal values are exact rationals.

## Where the code and its description differ

The model follows the code in each case below.

- `reset_task` sets `attempts` to 0 (django/background_task/recovery.py:9).
  `start_recovery` calls it with the default delay 0, so `run_at` is not
  moved forward.
- In django/importer/pocket.py:13-14, the check on `order` rows can never fail.
  The result depends only on the column count and the row kind.
- `output_metrics_dict` divides by the old value (django/finances/models.py:135-137).
  The model raises only when the old value is 0 and the current value is
  not 0. A confirmed output whose tracked value is 0 takes its old value
  from the past price (lines 115-119). An unconfirmed output keeps the old
  value 0; when its current value is also 0, its performance is 0.
- In `checkup_label`, the test `if output:` at django/finances/electrum.py:125
  is always true. Lines 71-74 make `output` an `OutputStat` in every case.
- `_get_missing_fields` reports a field that holds only blanks as missing.
  `_fill_label_from_outputstat` only fills fields that are empty, so it
  never fills such a field (django/labellabor/views.py:1289-1301, 1335-1368).
- The `getattr` price lookup of `HistoricalPrice` is modelled as a table from
  currency to price.
- Height, time, value and fmv of a label are nullable text, as the database
  stores them.

## Model

| member | source | states |
|---|---|---|
| TaskSettings.MaxAttempts | django/background_task/settings.py:15-18 | 25 when the project does not set MAX_ATTEMPTS, otherwise the project's value |
| TaskSettings.BackgroundTaskMaxAttempts | django/background_task/settings.py:20-23 | always equal to MaxAttempts |
| TaskSettings.MaxRunTime | django/background_task/settings.py:25-28 | 3600 when MAX_RUN_TIME is not set, otherwise the project's value |
| TaskSettings.BackgroundTaskMaxRunTime | django/background_task/settings.py:30-33 | always equal to MaxRunTime |
| TaskSettings.BackgroundTaskRunAsync | django/background_task/settings.py:35-38 | False unless the project sets it |
| TaskSettings.PriorityOrderingPrefix | django/background_task/settings.py:45-59 | the prefix is '' exactly when the setting is the text 'ASC', and '-' in every other case, unset included |
| TaskSettings.DescendingByDefault | django/background_task/settings.py:54-58 | unset or 'DESC' serves higher priorities first |
| Schedules.Create | django/background_task/tasks.py:131-147 | a TaskSchedule comes back unchanged; a non-zero int or timedelta, or any datetime, sets only run_at; a dict supplies run_at, priority and action; a falsy argument leaves all three unset |
| Schedules.Merge | django/background_task/tasks.py:149-158 | per field, the call-time value unless it is None, otherwise the default's |
| Schedules.RunAt | django/background_task/tasks.py:160-167 | unset (or falsy) resolves to now, an int n to now + n, a timedelta to now + delta, a datetime to itself |
| Schedules.Priority | django/background_task/tasks.py:169-171 | the priority when one is set, otherwise 0 |
| Schedules.Action | django/background_task/tasks.py:173-175 | the action when one is set, otherwise SCHEDULE |
| Schedules.ResolveCall | django/background_task/tasks.py:262-267 | run_at and action come from the call-time schedule merged over the proxy's default; a priority keyword overrides the merged priority |
| Schedules.CallTimeOverridesDefault | background_task/tests/test_tasks.py:204-225 | a call-time datetime wins over the default run_at, a default priority survives, and an explicit priority 0 overrides the default |
| Schedules.FalsyDelayIsNow | background_task/tests/test_tasks.py:158-176 | None, 0 and a zero timedelta all resolve to now, priority 0 and SCHEDULE |
| TaskQueue.Delete | django/background_task/tasks.py:52 | a row survives exactly when it was in the table and has another id |
| TaskQueue.Replace | django/background_task/recovery.py:15 | saving a row overwrites the rows with its id and no other row |
| TaskQueue.ReplaceAt | django/background_task/recovery.py:15 | with unique ids, saving overwrites exactly the row's position and keeps ids unique |
| TaskQueue.DeleteKeepsDistinct | django/background_task/tasks.py:52 | deleting rows keeps row ids unique |
| TaskQueue.DeleteKeepsWellFormed | django/background_task/tasks.py:52 | deleting rows keeps ids unique and below the next id |
| TaskQueue.FilterAvailable | background_task/tests/test_tasks.py:466-504 | exactly the rows that are unlocked (no lease, or one older than MAX_RUN_TIME), due and in the requested queue |
| TaskQueue.Insert | background_task/tests/test_tasks.py:813-842 | insertion into the candidate order adds exactly one row (as a multiset) |
| TaskQueue.Sort | background_task/tests/test_tasks.py:813-842 | the candidate order is a permutation of its input |
| TaskQueue.InsertOrdered | background_task/tests/test_tasks.py:813-842 | inserting into an ordered list keeps it ordered |
| TaskQueue.SortOrdered | background_task/tests/test_tasks.py:813-842 | rows come out by priority (descending unless configured ascending), then oldest run_at first |
| TaskQueue.FindAvailableSpec | background_task/tests/test_tasks.py:813-842 | find_available returns exactly the available rows, in candidate order |
| TaskQueue.LockRow | background_task/tests/test_tasks.py:324-355 | a lock takes only on an existing unlocked row, then sets only its lease; otherwise the table is unchanged |
| TaskQueue.AtMostOneClaim | background_task/tests/test_tasks.py:335-342 | a second worker locking the same row at the same moment gets nothing |
| TaskQueue.ExpiredLeaseCanBeClaimed | background_task/tests/test_tasks.py:344-355 | a lease older than MAX_RUN_TIME no longer protects the row |
| TaskQueue.LiveLeaseBlocksClaim | background_task/tests/test_tasks.py:335-342 | a lease within MAX_RUN_TIME cannot be taken over |
| TaskQueue.Candidates | django/background_task/tasks.py:226-227 | at most five candidates are tried |
| TaskQueue.RegisteredOnly | django/background_task/tasks.py:226-227 | only rows whose task name is registered are kept, in order |
| TaskQueue.ClaimFirstSpec | django/background_task/tasks.py:228-233 | a claim takes one candidate row that was unlocked and changes only its lease; no claim leaves the table unchanged |
| TaskQueue.ClaimTakesFirstCandidate | django/background_task/tasks.py:228-232 | in one worker the first candidate is the one claimed |
| TaskQueue.FirstAvailableHasTopPriority | background_task/tests/test_tasks.py:813-842 | with DESC ordering no available row has a higher priority than the first candidate |
| TaskQueue.CountSameJob | django/background_task/tasks.py:208-211 | zero exactly when no unlocked row of the same hash (and queue, if given) exists |
| TaskQueue.RescheduleSameJob | django/background_task/tasks.py:212-213 | run_at and priority of exactly the unlocked rows of the same job are updated; other rows are unchanged |
| TaskQueue.ScheduleDedup | django/background_task/tasks.py:197-222 | SCHEDULE always inserts one row; RESCHEDULE_EXISTING updates the same job's unlocked rows and inserts nothing when one exists; CHECK_EXISTING changes nothing when one exists; otherwise one new row is appended |
| TaskQueue.ScheduleKeepsWellFormed | django/background_task/tasks.py:197-222 | scheduling keeps ids unique and below the next id |
| TaskQueue.DedupTwice | background_task/tests/test_tasks.py:250-296 | the same job enqueued twice leaves one row, with the second run_at under RESCHEDULE_EXISTING and the first under CHECK_EXISTING |
| TaskQueue.NextRunAtSpec | background_task/tests/test_tasks.py:706-759 | the next run lies after now, a whole number (at least one) of intervals after run_at, and within one interval of now for a due task |
| TaskQueue.SucceedOutcome | django/background_task/tasks.py:46-53 | success writes exactly one CompletedTask, a success with the attempt counted; the row is gone; a task that does not repeat changes nothing else |
| TaskQueue.SucceedRepeats | django/background_task/tasks.py:51 | a repeating task gets one new row with the same name, params, hash, verbose_name, repeat_until and queue, no lease, no attempts, and the next run after now |
| TaskQueue.FailTerminal | django/background_task/tasks.py:55-60 | at MAX_ATTEMPTS or on InvalidTaskError the row is deleted and archived once, with failed_at set, the attempt counted and the error kept |
| TaskQueue.FailRetry | django/background_task/tasks.py:55-60 | otherwise the row stays, with the attempt counted, a non-empty last_error, failed_at unset, the lease cleared and a run_at later than before and than now; nothing else changes |
| TaskQueue.RetryThenGiveUp | background_task/tests/test_tasks.py:634-640 | with MAX_ATTEMPTS = 2 a task that always fails survives its first failure and is archived as failed after the second |
| TaskQueue.TaskStore.Save | django/background_task/recovery.py:15 | the row at its position is overwritten and nothing else changes |
| TaskQueue.TaskStore.Lock | background_task/tests/test_tasks.py:324-355 | the table and the result are those of LockRow |
| TaskQueue.DBTaskRunner.constructor | django/background_task/tasks.py:194-195 | the worker name is the decimal text of the process id |
| TaskQueue.DBTaskRunner.Schedule | django/background_task/tasks.py:197-222 | the new tables and the created row are those of the dedup rules, which ScheduleDedup states |
| TaskQueue.DBTaskRunner.GetTaskToRun | django/background_task/tasks.py:224-235 | None with the table unchanged when the store is unreachable; otherwise the first of the candidates that locks |
| TaskQueue.DBTaskRunner.ClaimCandidates | django/background_task/tasks.py:228-233 | the loop locks the candidates in turn and stops at the first that takes |
| TaskQueue.Tasks.Background | django/background_task/tasks.py:74-99 | the proxy is registered under the given name, or under "module.function" without one, with the created schedule, its queue and its `remove_existing_tasks` flag |
| TaskQueue.Tasks.Enqueue | django/background_task/tasks.py:262-278 | the resolved run_at, priority and action, the queue keyword or the proxy's queue, and the `remove_existing_tasks` keyword or the proxy's flag, are handed to schedule |
| TaskQueue.Tasks.RunNextTask | django/background_task/tasks.py:241-247 | true exactly when a task was claimed; then the tables are the claim followed by the success or failure transition; otherwise nothing changes |
| TaskQueue.ClaimTakesAvailableRow | django/background_task/tasks.py:224-235 | what is handed out is a registered row that was available at now, now leased to this worker, and no other row changes |
| TaskQueue.CandidateIsAvailable | django/background_task/tasks.py:226-227 | every candidate is a registered, available row of the table |
| TaskQueue.ClaimedIsInTable | django/background_task/tasks.py:230-232 | the claimed row is in the table after the lock |
| TaskQueue.RunTaskKeepsWellFormed | django/background_task/tasks.py:22-62 | running a row keeps ids unique and below the next id |
| TaskQueue.SucceedKeepsWellFormed | django/background_task/tasks.py:46-53 | success keeps the table well formed |
| TaskQueue.FailKeepsWellFormed | django/background_task/tasks.py:55-60 | failure keeps the table well formed |
| TaskRecovery.ResetTaskSpec | django/background_task/recovery.py:8-15 | attempts 0, failed_at, locked_at and locked_by cleared, last_error "", run_at moved by exactly the delay; every other field kept |
| TaskRecovery.ResetTaskIsClaimable | django/background_task/recovery.py:8-15 | a reset row is available again once its run_at has come |
| TaskRecovery.Recovered | django/background_task/recovery.py:18-24 | the sweep maps every row through the stale-row reset, position by position |
| TaskRecovery.RecoveredTouchesOnlyStale | django/background_task/recovery.py:20-23 | only rows leased by a worker that is not running change; they are reset with run_at unchanged; all other rows stay as they were |
| TaskRecovery.RecoveredLeavesOnlyLiveLeases | django/background_task/recovery.py:20-23 | afterwards every leased row belongs to a running worker |
| TaskRecovery.RecoveredIdempotent | django/background_task/recovery.py:20-23 | a second sweep with the same running workers changes nothing |
| TaskRecovery.RecoveredKeepsWellFormed | django/background_task/recovery.py:18-24 | the sweep keeps the row ids |
| TaskRecovery.StartRecovery | django/background_task/recovery.py:18-24 | the loop leaves the table equal to Recovered of the old table; the archive is unchanged |
| TaskQueue.Tasks.constructor | django/background_task/tasks.py:68-70 | no task is registered at first, and the runner is the given one |
| TxMath.VarIntSize | django/finances/tx_math.py:16-24 | 1 byte exactly up to 252, 3 exactly from 253 to 0xffff, 5 exactly from 0x10000 to 0xffffffff, and 9 above |
| TxMath.VarIntSizeMonotone | django/finances/tx_math.py:16-24 | a longer length never needs a shorter CompactSize |
| TxMath.ScriptLengthElementSize | django/finances/tx_math.py:27-37 | an error exactly above 4294967295; otherwise 1 byte below 75, 2 up to 255, 3 up to 65535 and 5 above |
| TxMath.ScriptLengthElementMonotone | django/finances/tx_math.py:27-37 | a longer script never needs a shorter push |
| TxMath.InputSize | django/finances/tx_math.py:40-80 | an error exactly for an unknown script type, or a P2SH redeem script too large to push |
| TxMath.InputSizeTable | django/finances/tx_math.py:46-62 | P2PKH (148, 0), P2SH-P2WPKH (64, 107), P2WPKH (41, 107), P2TR (41, 65); any other name raises |
| TxMath.P2shMonotone | django/finances/tx_math.py:48-54 | a P2SH input has no witness and its base size does not shrink as m or n grows |
| TxMath.P2wshMonotone | django/finances/tx_math.py:63-74 | a P2WSH input has base size 41 and its witness does not shrink as m or n grows |
| TxMath.RoundHalfEven | django/finances/tx_math.py:131-132 | the nearest integer to num/den, ties to the even one (Python's round) |
| TxMath.RoundOfWhole | django/finances/tx_math.py:131-132 | rounding an exact integer gives it back |
| TxMath.CalculateTransactionSize | django/finances/tx_math.py:83-134 | the loop's result is TransactionSize: the first unknown input's error, or the sizes below |
| TxMath.InputTotalsErrorSticks | django/finances/tx_math.py:105-108 | once an input raises, the whole call raises with that error |
| TxMath.WeightIsBip141 | django/finances/tx_math.py:121-132 | weight = 4 * base + witness = 3 * base + total size; txVBytes is weight / 4 rounded, and txBytes is the same number |
| TxMath.MarkerIffSegwit | django/finances/tx_math.py:100-124 | the transaction's weight is four times its base size plus its inputs' witness bytes, plus 2 for the marker and flag exactly when some input is P2SH-P2WPKH, P2WPKH, P2WSH or P2TR |
| TxMath.AddInputNeverDecreasesWeight | django/finances/tx_math.py:93-124 | appending a known input (with non-negative m and n) never lowers the weight |
| TxMath.AddOutputCounts | django/finances/tx_math.py:94 | one more output of a type adds one to the total and to that type's count, and changes no other count |
| TxMath.AddOutputNeverDecreasesWeight | django/finances/tx_math.py:110-124 | one more output never lowers the weight |
| TxMath.OutputSizeGrows | django/finances/tx_math.py:111-117 | one more output never lowers the output bytes |
| TxMath.ExampleTransactions | django/finances/tx_math.py:150-160 | one P2PKH to one P2PKH is weight 768, 192 vbytes; two P2WPKH to two P2WPKH is weight 832, 208 vbytes |
| TxMath.CalculateFee | django/finances/tx_math.py:138-143 | the fee is within half a satoshi of vbytes times the rate, and a fee exactly half-way between two whole fees is the even one |
| TxMath.FeeAtWholeRate | django/finances/tx_math.py:138-143 | with a whole-number rate the fee is exactly vbytes times the rate |
| LabelUtils.CurrenciesAreCodes | labellabor/utils.py:15 | the seven codes are three upper-case letters each |
| LabelUtils.DigitRunEnd | labellabor/utils.py:18 | the run of digits from i ends at the first non-digit (or the end) |
| LabelUtils.DigitRunEndAt | labellabor/utils.py:18 | a run of digits from i that stops before a non-digit or the end is the run `\d+` takes |
| LabelUtils.NumberShapeStartsWithDigit | labellabor/utils.py:18 | text of the number's shape starts with a digit |
| LabelUtils.DottedNumberEnd | labellabor/utils.py:18 | a digit run followed by '.' and a digit extends over the fraction's digits |
| LabelUtils.NumberEnd | labellabor/utils.py:18 | the greedy end of `\d+(?:\.\d+)?` at a digit: the digit run, extended by '.' and a digit run when there is one |
| LabelUtils.NumberEndIsLongest | labellabor/utils.py:18 | no longer text at i has the number's shape than the greedy match |
| LabelUtils.NumberEndUnique | labellabor/utils.py:18 | a number followed by neither a digit nor '.' followed by a digit ends exactly where the greedy match ends |
| LabelUtils.DecimalOf | labellabor/utils.py:23 | the exact value of the matched number is never negative |
| LabelUtils.MatchAt | labellabor/utils.py:18 | a successful match attempt yields text of the number's shape |
| LabelUtils.MatchAtComplete | labellabor/utils.py:18 | the match attempt succeeds at i exactly where the pattern, read as a plain description, matches at i |
| LabelUtils.CodeThenNumberComplete | labellabor/utils.py:18 | `(CODE)\s?(NUMBER)` matches at i exactly when the attempt does, with the greedy number |
| LabelUtils.NumberThenCodeComplete | labellabor/utils.py:26 | `(NUMBER)\s?(CODE)` matches at i exactly when the attempt does |
| LabelUtils.Search | labellabor/utils.py:20 | re.search: the leftmost position from `from` on where the attempt succeeds, and none before it |
| LabelUtils.FirstCurrency | labellabor/utils.py:19-23 | the first currency in the fixed order that the form finds anywhere, with its leftmost match; every earlier currency finds nothing |
| LabelUtils.ExtractFiatValue | labellabor/utils.py:14-41 | (-1, "") or one of the seven codes with a non-negative amount |
| LabelUtils.NothingFound | labellabor/utils.py:19-23 | when a form returns nothing, no currency matches that form at any position |
| LabelUtils.FoundWins | labellabor/utils.py:19-23 | a form's result is the first currency in the fixed order that matches anywhere, at its leftmost match |
| LabelUtils.CodeFormWins | labellabor/utils.py:17-23 | when "CODE number" matches anywhere, its result is returned, whatever "number CODE" would find |
| LabelUtils.NumberFormSecond | labellabor/utils.py:25-39 | only when "CODE number" matches nowhere does "number CODE" decide |
| LabelUtils.NoCurrencyIffMinusOne | labellabor/utils.py:41 | (-1, "") comes back exactly when no code stands next to a number in either form |
| LabelUtils.OneSpaceAtMost | labellabor/utils.py:18-26 | with two whitespace characters between code and number neither pattern matches there |
| LabelUtils.CurrencyOrderExample | labellabor/utils.py:15-23 | "EUR 5, USD 7" gives (7, "USD"): currencies go in the fixed order, not by position in the text |
| LabelUtils.FormOrderExample | labellabor/utils.py:17-39 | "5 USD EUR 7" gives (7, "EUR"): the "CODE number" form wins over an earlier "number CODE" match |
| LabelUtils.HashtagToBadge | labellabor/utils.py:4-9 | the loop's result is every found hashtag replaced in turn by its badge; text without '#' comes back unchanged |
| LabelUtils.PrefixTagMangledExample | labellabor/utils.py:5-8 | on "#a #ab" the code as written gives the badge of "a" followed by "b", not the badge of "ab" |
| LabelUtils.PiecesSource | labellabor/utils.py:5 | the text cut into characters and hashtags gives the text back |
| LabelUtils.PiecesTags | labellabor/utils.py:5 | the hashtags among the pieces are exactly those `#\w+` finds, in order |
| LabelUtils.BadgeEachSpec | labellabor/utils.py:4-9 | the corrected conversion keeps all text and turns each found hashtag into the badge of its own word |
| LabelUtils.BadgeEachNoHash | labellabor/utils.py:4-9 | the corrected conversion returns text without '#' unchanged |
| LabelUtils.BadgeEachExample | labellabor/utils.py:4-9 | the corrected conversion of "#a #ab" gives the two badges "a" and "ab" |
| LabelUtils.UsdSearchExample | labellabor/utils.py:18-20 | in "EUR 5, USD 7" the USD form is found at position 7 with the amount "7" |
| LabelUtils.UsdAbsentExample | labellabor/utils.py:18-20 | in "5 USD EUR 7" "USD" is never followed by a number |
| LabelUtils.EurFoundExample | labellabor/utils.py:18-20 | in "5 USD EUR 7" the EUR form is found at position 6 with the amount "7" |
| LabelUtils.PrefixTagsFound | labellabor/utils.py:5 | the hashtags of "#a #ab" are "#a" and "#ab" |
| LabelUtils.PrefixTagReplaced | labellabor/utils.py:8 | replacing "#a" in "#a #ab" also rewrites the start of "#ab" |
| Text.DigitChar | django/labelbase/serializers.py:97 | the digit character of a value below ten has that value |
| Text.LowerChar | django/uuid_upload_path/storage.py:26 | `str.lower()` on one character: an ASCII capital becomes a small letter, every other character is kept |
| Text.Lower | django/uuid_upload_path/storage.py:26 | lower-casing keeps the length and maps every character on its own |
| Text.NatToString | django/labelbase/serializers.py:97 | `str()` of a natural number is non-empty, all digits, with no leading zero |
| Text.NatToStringValue | django/labelbase/serializers.py:97 | the digits of `str(n)` have the value n |
| Text.IntToString | django/labelbase/serializers.py:97 | `str()` of an integer starts with '-' exactly when it is negative, and is digits otherwise |
| Text.StripLeft | django/labelbase/serializers.py:148 | the suffix of the text left after leading whitespace, which starts with no whitespace |
| Text.StripRight | django/labelbase/serializers.py:148 | the prefix of the text left before trailing whitespace, which ends with no whitespace |
| Text.RemoveUnderscores | django/labelbase/serializers.py:148 | the digits that remain after the '_' separators are removed |
| Text.ParsePyInt | django/labelbase/serializers.py:146-150 | `int()` of a string accepts only text holding a digit |
| Text.RemoveUnderscoresOfDigits | django/labelbase/serializers.py:148 | digits without separators come through unchanged |
| Text.StripOfNumber | django/labelbase/serializers.py:148 | the text of a number has no whitespace to strip |
| Text.IntToStringRoundTrip | django/labelbase/serializers.py:146-150 | `int(str(i)) == i` for every integer |
| Text.WordRunEnd | labellabor/utils.py:5 | the run of `\w` characters from i ends at the first non-word character |
| Text.FindHashtags | labellabor/utils.py:5 | `re.findall(r'#\w+')` finds only hashtags, and nothing in text without '#' |
| Text.ReplaceAll | labellabor/utils.py:8 | `str.replace` changes nothing when the pattern does not occur |
| Text.Split | django/finances/electrum.py:88 | `str.split(sep)` gives at least one part, and no part holds the separator |
| Text.SplitCount | django/importer/tasks.py:55 | the number of parts is one more than the number of separators |
| Text.NoHashNotContained | labellabor/utils.py:8 | a pattern that starts with '#' does not occur in text without '#' |
| Text.SplitHead | django/labelbase/models.py:229 | the first part is the text up to the first separator, or all of it |
| Text.SplitJoin | django/finances/electrum.py:88 | joining the pieces of `split` with the separator gives the text back |
| Text.SplitHeadOfPrefix | django/labelbase/models.py:229 | the first part of "txid:vout" is txid when txid holds no ':' |
| LabelSerializer.Validated | django/labelbase/serializers.py:62-91 | validation only removes keys, never core fields or fields whose value is None; `spendable` keeps a value only on an output label, and xpub, an unknown type or a missing type keeps no additional field with a value |
| LabelSerializer.Validate | django/labelbase/serializers.py:62-91 | the loop over the additional fields gives the validated data |
| LabelSerializer.ValidatedIdempotent | django/labelbase/serializers.py:62-91 | validating validated data changes nothing |
| LabelSerializer.ToStorage | django/labelbase/serializers.py:96-113 | the keys stay; fields other than the integer and JSON ones are kept; an integer or JSON field becomes text exactly when it is not None |
| LabelSerializer.ConvertForStorage | django/labelbase/serializers.py:96-113 | converting one field at a time gives the stored form |
| LabelSerializer.Create | django/labelbase/serializers.py:93-115 | the new label has exactly the submitted fields |
| LabelSerializer.Update | django/labelbase/serializers.py:117-139 | the label gets the submitted fields and keeps every field not submitted |
| LabelSerializer.Iterated | django/labelbase/serializers.py:32-36 | iterating stored text yields its characters, one one-character string per position, in order |
| LabelSerializer.ListItems | django/labelbase/serializers.py:32-36 | the `ListField` gives one item per item it iterates |
| LabelSerializer.ListItemsRaiseAt | django/labelbase/serializers.py:32-36 | one item on which the child field raises makes the whole list raise |
| LabelSerializer.DeclaredFields | django/labelbase/serializers.py:141-143 | `super().to_representation`, one stored field at a time, gives every field's own conversion, or raises when one raises |
| LabelSerializer.Overrides | django/labelbase/serializers.py:145-181 | the overriding conversions, one field at a time, give each field's shown value |
| LabelSerializer.ToRepresentation | django/labelbase/serializers.py:141-183 | when it does not raise, the keys stay and every field other than the integer and JSON ones is shown as stored; the integer fields, `rate`/`fmv` and `heights` are stated by `IntTextShown`, `JsonTextShown` and `HeightsListRejected` |
| LabelSerializer.Represent | django/labelbase/serializers.py:141-183 | `super()` followed by the overrides gives exactly `ToRepresentation`: it raises when that does, and otherwise shows the integer fields, `rate`, `fmv` and `heights` as `IntTextShown`, `JsonTextShown` and `HeightsListRejected` state |
| LabelSerializer.IntTextRaises | django/labelbase/serializers.py:141-149 | stored integer text that `int()` rejects, the empty text included, raises in the `IntegerField` declared at line 25, before the `try` can catch it |
| LabelSerializer.IntTextShown | django/labelbase/serializers.py:141-161 | when showing succeeds, stored integer text is text `int()` accepts, shown as that integer |
| LabelSerializer.HeightsTextRaises | django/labelbase/serializers.py:32-36 | stored `heights` text with a character that is not a digit raises, since the `ListField` iterates it character by character |
| LabelSerializer.HeightsListRejected | django/labelbase/serializers.py:177-182 | when showing succeeds, stored `heights` text is shown as None, except the empty text, shown as an empty list |
| LabelSerializer.JsonTextShown | django/labelbase/serializers.py:165-175 | when showing succeeds, stored `rate` or `fmv` text is shown as the document `json.loads` reads from it, or as None when `json.loads` rejects it |
| LabelSerializer.RaisesOnlyAt | django/labelbase/serializers.py:141-183 | showing raises only at an integer field or `heights` that holds a value |
| LabelSerializer.ConvertedAll | django/labelbase/serializers.py:96-113 | after the six conversions every field is in its stored form |
| LabelSerializer.FieldRoundTrip | django/labelbase/serializers.py:96-183 | one validated field, other than heights read as a list, comes back from storage unchanged |
| LabelSerializer.IntRoundTrip | django/labelbase/serializers.py:96-161 | an integer stored with `str()` is read back by the field's `int()` and kept by the override |
| LabelSerializer.JsonRoundTrip | django/labelbase/serializers.py:105-183 | a JSON document stored with `json.dumps` is kept by its field and read back by `json.loads` |
| LabelSerializer.StorageRoundTrip | django/labelbase/serializers.py:93-183 | for a JSON codec whose decoder inverts its non-empty encoding, validated data without heights comes back unchanged from storage |
| LabelSerializer.StoredHeightsRaise | django/labelbase/serializers.py:32-36 | any validated label with heights, once stored, raises when shown, because the stored JSON text starts with '[' |
| LabelSerializer.StoredHeightsExample | django/labelbase/serializers.py:32-36 | an address label with the heights 800000, stored as the text "[800000]", raises when shown |
| LabelSerializer.ToRepresentationCorrected | django/labelbase/serializers.py:177-182 | with heights read as JSON, stored heights text is shown as the document `json.loads` gives, or as None when it rejects it |
| LabelSerializer.StorageRoundTripCorrected | django/labelbase/serializers.py:93-183 | with heights read as JSON, every validated label comes back unchanged from storage, heights included |
| CompactUuid.SextetChar | django/uuid_upload_path/uuid.py:8 | a 6-bit value maps to a character of the URL-safe base64 alphabet |
| CompactUuid.CharSextet | django/uuid_upload_path/uuid.py:8 | every alphabet character is the character of exactly one 6-bit value |
| CompactUuid.SextetRoundTrip | django/uuid_upload_path/uuid.py:8 | the value of a 6-bit value's character is that value |
| CompactUuid.EncodeUnpadded | django/uuid_upload_path/uuid.py:8 | four alphabet characters per three bytes, with two for a leftover byte and three for two |
| CompactUuid.EncodedLengthShape | django/uuid_upload_path/uuid.py:8 | an unpadded length is never one more than a multiple of four |
| CompactUuid.EncodeOne | django/uuid_upload_path/uuid.py:8 | one leftover byte gives two alphabet characters |
| CompactUuid.EncodeTwo | django/uuid_upload_path/uuid.py:8 | two leftover bytes give three alphabet characters |
| CompactUuid.EncodeGroup | django/uuid_upload_path/uuid.py:8 | three bytes give four alphabet characters |
| CompactUuid.DecodeShort | django/uuid_upload_path/uuid.py:8 | two or three characters give one byte fewer than their count |
| CompactUuid.DecodeGroup | django/uuid_upload_path/uuid.py:8 | four characters give three bytes |
| CompactUuid.Padding | django/uuid_upload_path/uuid.py:8 | the padding is made of '=' only |
| CompactUuid.StripPadding | django/uuid_upload_path/uuid.py:8 | `rstrip("=")` gives a prefix that ends in no '=', with only '=' after it |
| CompactUuid.StripEncoding | django/uuid_upload_path/uuid.py:8 | stripping the padding of the encoding leaves exactly the unpadded characters |
| CompactUuid.Uuid | django/uuid_upload_path/uuid.py:7-8 | the id has 22 characters, all from the alphabet, and no '=' |
| CompactUuid.GroupRoundTrip | django/uuid_upload_path/uuid.py:8 | the bit arithmetic of a group gives its three bytes back |
| CompactUuid.OneCodec | django/uuid_upload_path/uuid.py:8 | decoding the characters of one leftover byte gives that byte |
| CompactUuid.TwoCodec | django/uuid_upload_path/uuid.py:8 | decoding the characters of two leftover bytes gives those bytes |
| CompactUuid.GroupCodec | django/uuid_upload_path/uuid.py:8 | decoding the characters of a group gives its three bytes |
| CompactUuid.RoundTripGroup | django/uuid_upload_path/uuid.py:8 | decoding splits at the first group of three bytes |
| CompactUuid.SplitThree | django/uuid_upload_path/uuid.py:8 | a sequence is its first three bytes followed by the rest |
| CompactUuid.RoundTrip | django/uuid_upload_path/uuid.py:8 | decoding the unpadded characters gives the bytes back |
| CompactUuid.UuidInjective | django/uuid_upload_path/tests.py:32-37 | distinct random bytes give distinct ids |
| UploadStorage.RFind | django/uuid_upload_path/storage.py:13 | the last index holding the character, or -1 when there is none |
| UploadStorage.Splitext | django/uuid_upload_path/storage.py:13 | root and extension rebuild the name; the extension is empty or one dot followed by no dot or '/'; it is empty exactly when no dot in the last component follows a character other than a dot |
| UploadStorage.Join | django/uuid_upload_path/storage.py:14-24 | `posixpath.join`: an absolute second part wins, otherwise '/' is added only when the first part does not end in one |
| UploadStorage.UploadToFactory | django/uuid_upload_path/storage.py:8-15 | the path is the prefix, a '/' where one is missing, the id and the file's extension |
| UploadStorage.StemDiscarded | django/uuid_upload_path/storage.py:13-14 | the stem of the file name has no effect on the path |
| UploadStorage.StoredName | django/uuid_upload_path/storage.py:14 | the path ends with the id and the extension, which hold no '/' |
| UploadStorage.UploadTo | django/uuid_upload_path/storage.py:18-27 | the path is the factory's path under app label and the lower-cased class name |
| UploadStorage.TxtExtension | django/uuid_upload_path/storage.py:13 | the extension of "test.txt" is ".txt" |
| UploadStorage.FactoryExample | django/uuid_upload_path/tests.py:48-52 | "test.txt" under the prefix "test" is stored as "test/<id>.txt" |
| UploadStorage.LowerTestModel | django/uuid_upload_path/tests.py:40-43 | "TestModel" lower-cases to "testmodel" |
| UploadStorage.UploadToExample | django/uuid_upload_path/tests.py:54-58 | "test.txt" of model TestModel in app "test" is stored as "test/testmodel/<id>.txt" |
| UploadStorage.TestModelPrefix | django/uuid_upload_path/storage.py:24-27 | the prefix for TestModel in app "test" is "test/testmodel" |
| Pocket.ValidateCsvFormat | django/importer/pocket.py:5-17 | no verdict without a header row; otherwise the file is accepted exactly when every data row has 11 columns and a known transaction type (the order check never fails) |
| Pocket.IndexOf | django/importer/pocket.py:13 | `list.index`: the first position holding the value |
| Pocket.RecordOf | django/importer/pocket.py:31-43 | the record of a row holds its eleven columns in order, an empty optional column as "" |
| Pocket.DataRecords | django/importer/pocket.py:24-44 | one record per data row, the header skipped |
| Pocket.ExtendGroup | django/importer/pocket.py:44 | appending to the open group keeps a withdrawal only at its head |
| Pocket.CloseGroup | django/importer/pocket.py:28-46 | closing a group keeps every group after the first headed by a withdrawal, and adds its records after the earlier ones |
| Pocket.ProgressStep | django/importer/pocket.py:26-44 | one row of the loop keeps the loop's invariant: the groups so far plus the open group are the records of the rows read |
| Pocket.ParseCsvToJson | django/importer/pocket.py:20-47 | an error exactly when there is no header or a data row is short; otherwise the groups hold all records in order, no group is empty, and a new group starts exactly at each withdrawal |
| Pocket.ValidFileParses | django/importer/pocket.py:5-47 | a file that validates parses without error |
| LabelModels.IsMainnet | django/labelbase/models.py:93-95 | a labelbase is on mainnet when its network is mainnet |
| LabelModels.IsTestnet | django/labelbase/models.py:97-99 | a labelbase is on testnet when its network is testnet |
| LabelModels.NetworksExclusive | django/labelbase/models.py:93-99 | no labelbase is on both networks |
| LabelModels.MempoolApiBase | django/labelbase/models.py:101-107 | the API base is the explorer base followed by "/api/" |
| LabelModels.ApiBaseOnMainnet | django/labelbase/models.py:101-107 | the API sits directly under the endpoint exactly on mainnet |
| LabelModels.TxidOf | django/labelbase/models.py:229 | `ref.split(":")[0]`: the longest prefix of the reference without ':' |
| LabelModels.MempoolUrl | django/labelbase/models.py:216-232 | base + "/address/" + ref for addr, base + "/tx/" + ref for tx, base + "/tx/" + the txid for output, and "" exactly for other types |
| LabelModels.OutputLinksToItsTx | django/labelbase/models.py:228-229 | an output label links to the page of its transaction |
| LabelModels.XpubLabel | django/labelbase/models.py:115-120 | none exactly when no label is an xpub; otherwise the id of the first xpub label |
| FinanceModels.GetSpentStatus | django/finances/models.py:79-85 | unconfirmed exactly when the block time is 0; spent exactly when confirmed and spent; unspent otherwise |
| FinanceModels.GetCurrencyPrice | django/finances/models.py:255-270 | a price exactly for the configured currencies, the record's price in that currency; an error otherwise |
| FinanceModels.MetricsCurrency | django/finances/models.py:100-101 | an empty currency becomes USD, any other is kept |
| FinanceModels.OldValue | django/finances/models.py:98-120 | the tracked value unless the output is confirmed and the tracked value is not positive; then the value at the past price, or an error for an unknown currency |
| FinanceModels.OutputMetrics | django/finances/models.py:87-154 | `{}` exactly when a confirmed output has no past price; the output's own fields are copied; tracked only when confirmed with a positive tracked value; the current value at the current price; performance 0 for a zero current value, otherwise the percentage change, with an error when the old value is 0 |
| FinanceModels.PercentChange | django/finances/models.py:139 | the performance times the old value is the change times 100 |
| HashtagTasks.TagName | django/hashtags/tasks.py:11 | the name of a hashtag is its word characters, without the '#' |
| HashtagTasks.TagNames | django/hashtags/tasks.py:9-11 | the name of every found hashtag, in order |
| HashtagTasks.InsertAllAppend | django/hashtags/tasks.py:8-20 | saving two lists of names in turn is saving their concatenation |
| HashtagTasks.InsertAllKeeps | django/hashtags/tasks.py:12-20 | existing hashtags stay, in front and unchanged |
| HashtagTasks.InsertAllAddsOnlyNames | django/hashtags/tasks.py:18-20 | every added hashtag belongs to the labelbase and carries one of the names |
| HashtagTasks.InsertAllCovers | django/hashtags/tasks.py:10-20 | afterwards the labelbase has a hashtag of every name |
| HashtagTasks.InsertAllUnique | django/hashtags/tasks.py:12-18 | the task adds no duplicate name to a labelbase |
| HashtagTasks.RunResult | django/hashtags/tasks.py:7-20 | after the task the labelbase has exactly its old hashtags plus one per new name found in its labels, with no duplicate |
| HashtagTasks.NamesAreWords | django/hashtags/tasks.py:9-11 | every saved name is a non-empty run of word characters |
| HashtagTasks.HashtagStore.constructor | django/hashtags/tasks.py:12 | the store starts with the given hashtags |
| HashtagTasks.HashtagStore.SaveIfMissing | django/hashtags/tasks.py:12-20 | the search loop adds the name exactly when the labelbase lacks it |
| HashtagTasks.HashtagStore.SaveTags | django/hashtags/tasks.py:10-20 | the tags of one label saved in turn |
| HashtagTasks.HashtagStore.StoreHashtagsAsObjects | django/hashtags/tasks.py:7-20 | the hashtags of every label of the labelbase saved in turn |
| Importer.LineCount | django/importer/tasks.py:12-28 | the lines read before the first value of EOLSTOP, which stops the loop |
| Importer.NextLine | django/importer/tasks.py:26-28 | a line read that does not stop the loop is the next line of the file |
| Importer.BinaryReadsToEnd | django/importer/tasks.py:12-28 | in binary mode a non-empty line never stops the loop, so every line is read |
| Importer.Candidate | django/importer/tasks.py:58-63 | the label data of a line: type, ref, label and the upload's labelbase |
| Importer.ValidOnes | django/importer/tasks.py:64-67 | only candidates that pass validation are saved, as validated |
| Importer.Bip329Step | django/importer/tasks.py:26-37 | a line raises exactly when it is not a JSON object; what it saves belongs to the upload's labelbase |
| Importer.Bip329Aborted | django/importer/tasks.py:169-170 | once a line has raised, the later lines change nothing |
| Importer.Bip329Outcome | django/importer/tasks.py:24-37 | the import completes exactly when every line parses, and every saved label belongs to the upload's labelbase, whatever labelbase the line named |
| Importer.ImportBip329 | django/importer/tasks.py:24-37 | the read loop saves what the line-by-line run saves, counts each saved label, and completes as it does |
| Importer.BitboxCandidates | django/importer/tasks.py:53-62 | a tx and an addr label for a line, none exactly when the line does not decode or has no transaction column |
| Importer.BitboxStep | django/importer/tasks.py:53-79 | as written, a line goes on exactly when it decodes, has seven columns and both labels are valid; any other failure reaches the handler, which raises |
| Importer.BitboxAborted | django/importer/tasks.py:169-170 | once a line has raised, the later lines change nothing |
| Importer.ImportBitbox | django/importer/tasks.py:48-79 | the read loop as written saves and completes as the line-by-line run does |
| Importer.BitboxLine | django/importer/tasks.py:53-79 | the body of the loop for one line, as written |
| Importer.BitboxSkipping | django/importer/tasks.py:48-79 | the intended import saves the valid labels of every line and skips the lines that fail; every label belongs to the upload's labelbase |
| Importer.BitboxWrittenIsPrefix | django/importer/tasks.py:48-79 | what the import as written saves is a prefix of what the intended import saves, and all of it when no line fails |
| Importer.PrefixAfter | django/importer/tasks.py:48-79 | a prefix of the new labels after the same earlier labels is a prefix of the whole |
| Importer.PrefixBefore | django/importer/tasks.py:48-79 | a prefix of the earlier labels stays a prefix when labels are added |
| Importer.BitboxStepIsPrefix | django/importer/tasks.py:53-79 | for one line, what the handler as written saves is a prefix of what the intended handler saves |
| Importer.ImportBitboxSkipping | django/importer/tasks.py:48-79 | the intended read loop saves what the intended import saves |
| Importer.BitboxLineSkipping | django/importer/tasks.py:53-67 | the intended body of the loop saves the valid labels of the line, or none |
| Importer.BitboxShortLineExample | django/importer/tasks.py:60-79 | a line without a transaction column, then a good line: as written nothing is saved and the import aborts; the intended import saves both labels of the good line |
| Importer.BluewalletCandidate | django/importer/tasks.py:137-145 | a tx label in the upload's labelbase, none exactly when the line does not decode or has no second column |
| Importer.BluewalletSaved | django/importer/tasks.py:137-163 | at most one label per line, each in the upload's labelbase |
| Importer.BluewalletSavedNext | django/importer/tasks.py:137-156 | each further line adds its valid label, if any |
| Importer.ImportBluewallet | django/importer/tasks.py:128-163 | the header line is skipped; a line that fails is ignored; the valid labels of the other lines are saved |
| Importer.Matching | django/importer/tasks.py:94-96 | the refs `txid:i` of exactly the outputs that pay the sold amount |
| Importer.PotentialUtxos | django/importer/tasks.py:92-96 | no outputs gives no refs; otherwise the matching refs, or an error when the amount is not a decimal |
| Importer.PocketCandidate | django/importer/tasks.py:97-112 | no label without a matching output; an output label for exactly one match; a tx label with a warning tag for several; always in the upload's labelbase |
| Importer.PocketStep | django/importer/tasks.py:87-117 | a group raises exactly when it has fewer than three records, an amount is not a decimal or the lookup fails; it saves at most one label, in the upload's labelbase |
| Importer.PocketAborted | django/importer/tasks.py:169-170 | once a group has raised, the later groups change nothing |
| Importer.PocketIntoLabelbase | django/importer/tasks.py:113 | every label a Pocket import saves belongs to the upload's labelbase |
| Importer.PocketGroup | django/importer/tasks.py:88-117 | the body of the loop for one group |
| Importer.ImportPocketGroups | django/importer/tasks.py:87-117 | the loop over the groups saves and completes as the group-by-group run does |
| Importer.ImportPocket | django/importer/tasks.py:81-126 | no header raises; a file that fails validation imports nothing; a valid file imports its groups, which hold its records in order, each starting at a withdrawal |
| Importer.ProcessUploadedData | django/importer/tasks.py:15-170 | per import type, the run of that branch as written (BitBox included, so a short line ends the import and keeps the upload); the count equals the labels saved, all in the upload's labelbase; a missing upload or an exception leaves the upload in place, otherwise it is deleted |
| Electrum.IsValidOutputRef | django/finances/electrum.py:56-63 | a reference is valid exactly when it is present and holds ':' |
| Electrum.ValidRefSplits | django/finances/electrum.py:56-63 | a valid reference is exactly one that `split(":")` cuts into two or more parts |
| Electrum.ServerOf | django/finances/electrum.py:78-84 | the profile's host and ports, with electrum.emzy.de and s50002 for empty ones |
| Electrum.FirstUtxo | django/finances/electrum.py:115-124 | the first entry that is the output, confirmed and with a positive value, or none when no entry is |
| Electrum.ScanOf | django/finances/electrum.py:111-124 | a vout that is not an integer raises exactly when an entry has the same hash; a found output has a positive value and height |
| Electrum.FindUnspent | django/finances/electrum.py:111-124 | the loop over the unspent list gives the outcome `ScanOf` states: a raise exactly when the vout is not an integer and some entry has the same hash, otherwise the first matching entry |
| Electrum.ScanUnspent | django/finances/electrum.py:111-124 | with the vout already converted (or known to raise), the loop with its break returns the value and height of the first entry with the same hash and position and a positive height and value, or the flag unset when there is none |
| Electrum.Updated | django/finances/electrum.py:125-138 | the spent flag is always set; height and time change only to known values; the unspent entry's value wins over the transaction's |
| Electrum.LastStat | django/finances/electrum.py:71 | `.filter(...).last()`: the last row of the output and network, or none |
| Electrum.StatFor | django/finances/electrum.py:71-74 | the label's OutputStat is always one of its output and network |
| Electrum.SavedStatIsFound | django/finances/electrum.py:71-139 | after a save, the row saved is the one found for the label |
| Electrum.Interact | django/finances/electrum.py:13-37 | nothing back exactly when there is no transaction; an exception exactly when the index is not an integer or is outside the outputs (negative indices counting from the end); otherwise that output's address and value with the block time |
| Electrum.CheckupOutcome | django/finances/electrum.py:77-139 | skipped exactly when the guard fails; aborted when `interact` raises; no save exactly when no transaction comes back; a saved stat carries the label's output, the network and a known spent flag, and it is unspent exactly when the unspent list holds `txid:vout` confirmed and with a positive value |
| Electrum.CheckupFrame | django/finances/electrum.py:65-139 | a check-up changes only the label's own OutputStat, replacing it or adding it |
| Electrum.SpentIsFinal | django/finances/electrum.py:77 | once saved as spent, the next check-up of the label does nothing |
| Electrum.OutputStatTable.constructor | django/finances/electrum.py:71 | the table starts with the given rows |
| Electrum.OutputStatTable.CheckupLabel | django/finances/electrum.py:65-145 | `checkup_label` updates the table in place as the check-up function states, aborting where `interact` raises |
| Electrum.SaveStatFrame | django/finances/electrum.py:71-139 | saving replaces only the output's last row, or adds one |
| LabelViews.Matching | django/labellabor/views.py:139-141 | the matching rows are among the rows |
| LabelViews.FilterQueryset | django/labellabor/views.py:135-143 | with an empty or missing search every row, otherwise the rows whose lower-cased address contains the lower-cased search, in order |
| LabelViews.MatchingMembers | django/labellabor/views.py:139-141 | a row is kept exactly when it is one of the rows and its address contains the query |
| LabelViews.MatchingIdempotent | django/labellabor/views.py:135-143 | searching the result again with the same query changes nothing |
| LabelViews.SliceIndex | django/labellabor/views.py:153 | a slice bound: a negative one counts from the end, and both are clamped to the rows |
| LabelViews.PySlice | django/labellabor/views.py:153 | a slice is never longer than the rows |
| LabelViews.PagingOfNumbers | django/labellabor/views.py:150-153 | parameters that are the text of integers give the slice from start to start + length |
| LabelViews.PageOfNumbers | django/labellabor/views.py:153 | parsed parameters give the slice from start to start + length |
| LabelViews.DefaultPage | django/labellabor/views.py:151-153 | without parameters the page is the first ten rows |
| LabelViews.PageWindow | django/labellabor/views.py:153 | a non-negative start and length give at most length rows from start, and none past the end |
| LabelViews.ConsecutivePages | django/labellabor/views.py:153 | two consecutive pages of one length make the page twice as long |
| LabelViews.NegativeStartWindow | django/labellabor/views.py:151-153 | a negative start with an end that is not negative gives an empty page when the rows are at least `length` long |
| LabelViews.IndexOf | django/labellabor/views.py:797 | the first index of the character, or the length |
| LabelViews.ExponentMark | django/labellabor/views.py:797 | the first index of 'e' or 'E', or the length |
| LabelViews.Mantissa | django/labellabor/views.py:797 | the number of digits after the dot is less than the mantissa's length |
| LabelViews.DecimalOfInt | django/labellabor/views.py:801 | `Decimal(str(n))` is n for every integer |
| LabelViews.NegativeDecimal | django/labellabor/views.py:801 | a minus sign before digits negates their value |
| LabelViews.DigitsDecimal | django/labellabor/views.py:801 | text of digits is the finite decimal of their value |
| LabelViews.DigitsNoE | django/labellabor/views.py:801 | text of digits has no exponent and is its own mantissa |
| LabelViews.Close | django/labellabor/views.py:808 | a finite fmv within 0.01 of the amount; an infinity is never close; a NaN raises |
| LabelViews.Lookup | django/labellabor/views.py:790-794 | `fmv_data[currency]` is present exactly when a member has the key, and is the value of its last member |
| LabelViews.NotObjectLookup | django/labellabor/views.py:790-794 | a document that is not an object never matches: an absent key gives False, and a found one raises |
| LabelViews.NonStringDecimal | django/labellabor/views.py:800-801 | `Decimal(str(v))` succeeds exactly for an integer, and has its value |
| LabelViews.MatchCorrection | django/labellabor/views.py:795-799 | the corrected match agrees with the code as written wherever the latter answers; where the latter raises on a string that is not a number, the corrected one answers False |
| LabelViews.MatchMeaning | django/labellabor/views.py:786-808 | on an object, an absent currency does not match, and the currency matches exactly when its fmv value is a finite number within 0.01 of the amount |
| LabelViews.UnparsableFmv | django/labellabor/views.py:795-799 | a string fmv value that `Decimal` rejects makes the code as written raise and the corrected one answer False |
| LabelViews.NoDigitsNotFinite | django/labellabor/views.py:797 | text without a digit is not a finite decimal |
| LabelViews.AbcNotDecimal | django/labellabor/views.py:797 | `Decimal("abc")` raises |
| LabelViews.AbcStripped | django/labellabor/views.py:797 | "abc" has no whitespace to strip |
| LabelViews.LettersNotDecimal | django/labellabor/views.py:797 | text of letters that start no special value is not a decimal |
| LabelViews.ParseFmv | django/labellabor/views.py:777-784 | a document exactly when the text is not blank, parses, and is not JSON null |
| LabelViews.CategoryOf | django/labellabor/views.py:752-766 | only a label with both a text currency and an fmv can make the view raise |
| LabelViews.CategoryMeaning | django/labellabor/views.py:752-766 | text only, fmv only or uncategorized by which of the two a label has; with both, synced, a conflict or a raise exactly as `_currencies_match` as written answers or raises |
| LabelViews.SyncWithLists | django/labellabor/views.py:751-766 | each list holds exactly the positions of the output and input labels of its category |
| LabelViews.SyncWithFails | django/labellabor/views.py:751-766 | categorizing fails exactly when one output or input label raises |
| LabelViews.SyncLists | django/labellabor/views.py:740-766 | each list of the view holds exactly the output and input labels of its category, categorised with `_currencies_match` as written |
| LabelViews.SyncFails | django/labellabor/views.py:740-766 | the view raises exactly when one output or input label raises, `_currencies_match` as written included |
| LabelViews.UnparsableFmvFailsView | django/labellabor/views.py:763-799 | one output or input label with a text amount and a string fmv value for its currency that `Decimal` rejects makes the whole view raise |
| LabelViews.SyncDisjoint | django/labellabor/views.py:758-766 | no label is in two lists, and a label with neither a text currency nor an fmv is in none |
| LabelViews.CurrencySync | django/labellabor/views.py:735-775 | the loop builds the four lists the categorization as written states, or raises where it does |
| LabelViews.CategorizeLabel | django/labellabor/views.py:752-766 | the body of the loop for one label gives its category, calling `_currencies_match` as written |
| LabelViews.SyncStep | django/labellabor/views.py:751-766 | one more label leaves the lists as they were or adds its position to the list of its category |
| LabelViews.SyncFailsAt | django/labellabor/views.py:763 | a label that raises makes the view raise |
| LabelViews.Name | django/labellabor/views.py:1294 | the three applicable fields are named height, time and value |
| LabelViews.OutputLabel.constructor | django/labellabor/views.py:1289-1301 | a label with the given fields |
| LabelViews.OutputLabel.MissingFields | django/labellabor/views.py:1289-1301 | the loop lists the applicable fields that are missing, in order |
| LabelViews.OutputLabel.FillFromOutputStat | django/labellabor/views.py:1335-1368 | without an OutputStat nothing changes and the answer is False; otherwise each empty field is filled from a nonzero value of the row; True exactly when a field was filled |
| LabelViews.KeepStep | django/labellabor/views.py:1296-1299 | one more field is appended exactly when it is selected |
| LabelViews.KeepMembers | django/labellabor/views.py:1296-1299 | a field is listed exactly when it is one of the fields and selected |
| LabelViews.KeepOrdered | django/labellabor/views.py:1296-1299 | the listed fields keep their order |
| LabelViews.MissingFieldsMeaning | django/labellabor/views.py:1289-1301 | a field is reported exactly when it is None, empty or blank; nothing is reported exactly when all three are present; the order is height, time, value |
| LabelViews.MissingFieldsListed | django/labellabor/views.py:1296-1299 | each field is reported exactly when it is missing |
| LabelViews.ApplicableOrdered | django/labellabor/views.py:1294 | the applicable fields are in the order height, time, value |
| LabelViews.FillField | django/labellabor/views.py:1349-1363 | a non-empty field or a zero value leaves the field as it was; an empty field with a nonzero value gets its rendering |
| LabelViews.FillMeaning | django/labellabor/views.py:1349-1363 | the fill never clears a field; a filled field with a non-blank rendering is no longer missing; a blank but non-empty field stays missing |
| LabelViews.FilledNumberNotMissing | django/labellabor/views.py:1349-1362 | a height or value filled from a nonzero number is no longer missing |
| LabelViews.FirstStat | django/labellabor/views.py:1337-1344 | the first row of the label's output and network, or none when there is no such row |
| FixAndMerge.KeyPositions | django/labellabor/views.py:668-681 | the positions of exactly the records with the key, in increasing order |
| FixAndMerge.NoPositions | django/labellabor/views.py:668-681 | no record with the key, no positions |
| FixAndMerge.GroupMap | django/labellabor/views.py:668-681 | no group in the dictionary is empty |
| FixAndMerge.KeyOrder | django/labellabor/views.py:668-681 | the keys of the dictionary in insertion order: every key of a record once |
| FixAndMerge.GroupStep | django/labellabor/views.py:668-681 | one more record is appended to its key's group, and a new key goes last |
| FixAndMerge.GroupMapKeys | django/labellabor/views.py:658-681 | the dictionary has exactly the keys in order, and each group holds exactly the positions of its key |
| FixAndMerge.GroupSize | django/labellabor/views.py:685-696 | a group has more than one record exactly when two records share its key |
| FixAndMerge.Duplicated | django/labellabor/views.py:684-696 | exactly the keys whose group has more than one record |
| FixAndMerge.DuplicatedNoRepeats | django/labellabor/views.py:684-696 | no duplicated key is listed twice |
| FixAndMerge.Positions | django/labellabor/views.py:663-666 | the positions of exactly the records that satisfy the test |
| FixAndMerge.AppendNewContents | django/labellabor/views.py:698-700 | appending the records not yet listed keeps them distinct and lists both |
| FixAndMerge.IdenticalRecordsContents | django/labellabor/views.py:695-700 | a record is listed exactly when a duplicated group holds it, and none twice |
| FixAndMerge.DuplicatesExactly | django/labellabor/views.py:683-696 | the duplicated keys are exactly those that two records share, none twice |
| FixAndMerge.AllIdenticalExactly | django/labellabor/views.py:695-700 | the identical records are exactly those with a twin equal in all five fields, none twice |
| FixAndMerge.InGroupOf | django/labellabor/views.py:695-700 | a record is in the group of one of the keys exactly when its five fields are one of them |
| FixAndMerge.DuplicatedTwin | django/labellabor/views.py:695-696 | a record's five fields are a duplicated key exactly when it has a twin |
| FixAndMerge.TwinOf | django/labellabor/views.py:661-696 | two records with a record's five fields exist exactly when it has a twin |
| FixAndMerge.AddToGroup | django/labellabor/views.py:668-681 | one record added to a dictionary of lists gives the grouping of one more record |
| FixAndMerge.PositionsStep | django/labellabor/views.py:663-666 | one more record is appended exactly when it satisfies the test |
| FixAndMerge.ClassifyLabel | django/labellabor/views.py:663-666 | an empty label goes to the empty list, otherwise one longer than 255 characters to the over-long list |
| FixAndMerge.GroupRecords | django/labellabor/views.py:658-681 | the loop builds the three groupings in insertion order and the two label lists |
| FixAndMerge.DuplicateKeys | django/labellabor/views.py:684-693 | the loop lists the duplicated keys |
| FixAndMerge.AppendMissing | django/labellabor/views.py:698-700 | the loop appends the records not yet listed |
| FixAndMerge.IdenticalGroups | django/labellabor/views.py:695-708 | the loop lists the duplicated five-field keys and the records of their groups |
| FixAndMerge.FixAndMergeReport | django/labellabor/views.py:636-714 | the report holds the duplicated keys of each grouping, the empty and over-long labels, the records with an identical twin, and as many fix suggestions as empty labels |
| FixAndMerge.EmptyNotTooLong | django/labellabor/views.py:663-666 | no label is both empty and over-long |

## Left out

- Network I/O is not performed. Replies from the Electrum server, the mempool
  API and the price APIs are parameters of the operations that use them.
- The randomness of `uuid4` is not modelled. Its 16 bytes are a parameter of
  `CompactUuid.Uuid`.
- Lower-casing and the `\w` character class cover ASCII only. Unicode case
  folding and Unicode word characters are not modelled.
- ExtractFiatValue (LabelUtils.ExtractFiatValue): `\d` is an ASCII digit
  here. Python's `\d` also matches other Unicode decimal digits, which
  `Decimal` accepts, so text such as "USD" followed by an Arabic-Indic five
  gives (5, "USD") in the source and (-1, "") in the model.
- DigitRunEnd (LabelUtils.DigitRunEnd): the run covers ASCII digits only,
  for the same reason.
- ParsePyInt (Text.ParsePyInt): only ASCII digits and ASCII and Unicode
  blanks are recognised. Python's `int()` also accepts other Unicode decimal
  digits, so `int()` of an Arabic-Indic five is 5 while `ParsePyInt` gives
  None. This reaches the serializer's integer fields, the `int(tx_pos)` of
  the Electrum scan and the datatable paging.
- LabelSerializer.FieldShown: the `CharField` conversion of `time` and
  `keypath` is `str()` of the stored value. Stored values are text here, so
  it gives them back unchanged; `str()` of other Python objects is not
  modelled.
- StorageRoundTrip (LabelSerializer.StorageRoundTrip): holds only for labels
  without heights, because stored heights cannot be shown at all (see
  Findings); the round trip with heights is proved for the corrected reading.
- JSON parsing and dumping are parameters: `loads` and `dumps` functions given
  by the caller.
- LabelViews.DecimalText: covers signs, digits, a decimal point, exponents,
  infinities and NaNs in ASCII. The underscores and non-ASCII digits that
  Python's `Decimal()` also accepts are not modelled.
- Rationals: Decimal arithmetic is exact here. The 28-digit context precision
  of Python's `decimal` module is not modelled.
- `utcfromtimestamp` and `strftime` are not modelled. They are a parameter
  `isoTime` that turns a block time into text.
- The filter that limits `OutputStat` rows to the requesting user is not
  modelled. The rows given are the user's own.
- Django object identity is modelled by positions in a list, and
  `save()`/`delete()` by rewriting that list.
- Templates, flash messages, redirects and HTTP responses are not modelled.
- `_fill_all_from_outputstat` is not modelled. Only the single-label fill
  `_fill_label_from_outputstat` is.
- The ordering of the datatable view (`ordering`, `prepare_results`) is not
  modelled. Only filtering and paging are.
- django/background_task/models.py is not part of this model. `lock`,
  `find_available`, `reschedule` and `create_repetition` follow the behaviour
  that background_task/tests/test_tasks.py describes. The retry backoff is a
  positive parameter rather than a formula.
- Tasks.Enqueue (TaskQueue.Tasks.Enqueue): the `remove_existing_tasks` flag
  reaches the request handed to `schedule`, but what `new_task` does with it
  is in django/background_task/models.py, which is not part of this model.
  Scheduling inserts or deduplicates as if the flag were false.
- Whether the process holding a lock is alive is a set of running worker ids,
  given as a parameter.
- Task hashes of name and parameters are values given by the caller.
- The value of a transaction output arrives in satoshis. The float
  multiplication of a BTC amount by 100000000 in `interact` is not modelled.
- The Samourai import is modelled only as the flag it sets on completion.
- Logging, `print` and warnings are not modelled.
- Threads, the asynchronous runner and concurrent workers are not modelled.
  Each operation runs alone on the store.
- JSON documents hold null, booleans, integers, strings, arrays and objects.
  Floating-point JSON numbers are not modelled.

## Findings

| source | as written | input that shows it | evidently intended | confidence | as-written member | corrected member |
|---|---|---|---|---|---|---|
| labellabor/utils.py:5-8 | each hashtag is replaced by `str.replace` across the whole text, so a tag that is a prefix of another tag rewrites the start of the longer one | `"#a #ab"` | every hashtag becomes the badge of its own word | high, not executed | LabelUtils.PrefixTagMangledExample | LabelUtils.BadgeEachSpec |
| django/importer/tasks.py:68-79 | the handler for a short BitBox line uses the undefined `messages` and `request`, so the NameError aborts the whole import through the outer handler and the upload is not deleted | a line with six or fewer comma-separated columns before a well-formed line | report the line and skip it, then import the rest | high, not executed | Importer.BitboxShortLineExample | Importer.ImportBitboxSkipping |
| django/labellabor/views.py:795-799 | `Decimal()` of text that is not a number raises `InvalidOperation`, which `except (ValueError, TypeError)` does not catch | fmv `{"USD": "abc"}` with the label text "USD 5" | the pair counts as a conflict | high, not executed | LabelViews.UnparsableFmv | LabelViews.MatchCorrection |
| django/labelbase/serializers.py:32-36 | `heights` is declared as a `ListField` of `IntegerField`s, but `create` and `update` store it as `json.dumps` text; `super().to_representation` iterates that text character by character and `int('[')` raises before the `json.loads` at lines 177-182 is reached, so no label with heights can be shown | heights [800000], stored as the text "[800000]" | heights are read back as JSON, like `rate` and `fmv` | high, not executed | LabelSerializer.StoredHeightsExample | LabelSerializer.StorageRoundTripCorrected |
