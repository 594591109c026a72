# Insights engine of insightcore-agent, in Dafny

This project models the insights engine of `insights_generator.py`. The engine
reads a log of task events (timestamp, task type, action) and produces one
insights record:

- the overall completion rate;
- the best time-of-day window and its completion rate;
- the three most often completed task types;
- the weekly productivity score;
- a short, rule-based list of suggestions.

It writes the record twice: as a JSON object and as flat `metric, value, details` CSV rows.

Modules, one per stage of `generate_insights`:

- `Windows` (windows.dfy): the `WINDOWS` table and `hour_to_window`, a search over the table that falls back to `night_20_24`. Also the sorted order in which `groupby('window')` lists its keys.
- `Events` (events.dfy): events, parsed rows, and the fail-fast timestamp check. An event's hour is `None` when its timestamp does not parse.
- `Completion` (completion.dfy): the completed and skipped counts, the exact completion rate, the per-window rates (`window_stats`) and the best window as `idxmax` picks it.
- `TaskRanking` (top_tasks.dfy): `value_counts().head(3)` over the task types of completed events. It is a ranking by completed count, with ties kept in order of first appearance.
- `Rewards` (rewards.dfy): the reward loop and the score.
- `Suggestions` (suggestions.dfy): the three suggestion rules, written both as the source's conditional appends and as an ordered rule table.
- `Report` (report.dfy): the insights record, the CSV rows built by the `enumerate` loop, and a decoder that reads the record back from the rows.
- `InsightsGenerator` (insights_generator.dfy): the whole run. It also holds the empty-log case and a worked example.

Pure computations are functions. The source's loops and appends are methods with
loops or sequential appends:

- the reward loop: `Rewards.WeeklyScore`;
- the suggestion appends: `Suggestions.BuildSuggestions`;
- the report-row loop: `Report.BuildRows`;
- the run itself: `InsightsGenerator.GenerateInsights`.

Each method is proved against a specification function, and the properties of
that function are proved as lemmas.

## Model

| member | source | states |
|---|---|---|
| `Windows.FirstMatch` | insights_generator.py:13-15 | The search finds nothing exactly when no range holds the hour. Otherwise it returns the name of a range that holds the hour, and no earlier range holds it. |
| `Windows.HourToWindow` | insights_generator.py:12-16 | `hour_to_window`: the first matching range of `WINDOWS`, otherwise `night_20_24`. Its properties are stated by `Windows.FirstMatch` and the `HourToWindow…` lemmas below. |
| `Windows.HourToWindowTotal` | insights_generator.py:12-16 | Every integer hour is classified as one of the five labels of `WINDOWS`. |
| `Windows.HourToWindowInRange` | insights_generator.py:4-15 | If `start <= hour < end` for an entry of `WINDOWS`, the hour is classified as that entry's window. |
| `Windows.HourToWindowDefault` | insights_generator.py:12-16 | An hour that matches no range (0-3, negative, 24 or more) falls through to `night_20_24`. |
| `Windows.HourToWindowClosedForm` | insights_generator.py:4-16 | The classifier in closed form: [4,8) early morning, [8,12) morning, [12,16) afternoon, [16,20) evening, every other integer night. |
| `Windows.RangesDisjoint` | insights_generator.py:4-10 | No hour lies in two ranges of `WINDOWS`, so the first match is the only match. |
| `Windows.SortedWindowsOrdered` | insights_generator.py:36-39 | The key order used for tie-breaking lists the window labels in strictly increasing lexicographic order, as pandas sorts group keys. |
| `Windows.SortPosition` | insights_generator.py:36-39 | Every window has exactly one position in the sorted key order. |
| `Windows.SortPositionIsLabelOrder` | insights_generator.py:36-39 | One window comes before another in the key order exactly when its label is lexicographically smaller. |
| `Events.Row.Window` | insights_generator.py:34-35 | The derived `window` column: `hour_to_window` of the row's hour. Its properties are stated by `Windows.FirstMatch` and the `HourToWindow…` lemmas. |
| `Events.ParseTimestamps` | insights_generator.py:22-25 | The run fails exactly when some timestamp is unparseable. Otherwise every event becomes a row with the same hour, task type and action, in the same order. |
| `Completion.Count` | insights_generator.py:29-30 | The count of an action is at most the number of rows, and it is positive exactly when some row has that action. |
| `Completion.TotalTasks` | insights_generator.py:28 | The `isin(['completed', 'skipped'])` filter. It keeps only completed and skipped rows, and those rows come from the input. `Completion.TotalTasksCounts` states what it keeps. |
| `Completion.TotalTasksCounts` | insights_generator.py:28-30 | Filtering on `isin(['completed', 'skipped'])` changes neither count. It keeps no other action, and it keeps exactly completed + skipped rows. |
| `Completion.OtherEventsIgnored` | insights_generator.py:28-30 | Adding an event whose action is neither completed nor skipped changes neither count. |
| `Completion.Rate` | insights_generator.py:31 | The rate lies in [0,1]. It is 0 when completed + skipped is 0, and otherwise rate × (completed + skipped) = completed. It is 0 exactly when nothing was completed, and 1 exactly when something was completed and nothing was skipped. |
| `Completion.CompletionRate` | insights_generator.py:28-31 | `completion_rate` before rounding: the rate of the filtered counts. `Completion.CompletionRateSpec` states its properties. |
| `Completion.CompletionRateSpec` | insights_generator.py:28-31 | `completion_rate` is the rate of the completed and skipped counts over all events, so it is in [0,1] and 0 when there are no such events. |
| `Completion.InWindow` | insights_generator.py:34-36 | The group of a window contains exactly the rows whose hour falls in that window. `Completion.InWindowAppend` and `Completion.InWindowOne` pin down its repeats and order. |
| `Completion.InWindowOne` | insights_generator.py:34-36 | A single row is in the group of its own window, and in no other group. |
| `Completion.InWindowAppend` | insights_generator.py:34-36 | The group of a concatenation is the concatenation of the groups. So the group keeps every row of its window, repeats included, in input order, and its counts are that window's counts. |
| `Completion.InWindowAll` | insights_generator.py:34-36 | When every row falls in one window, that window's group is the whole frame. |
| `Completion.WindowRate` | insights_generator.py:36-38 | The lambda `(x == 'completed').mean()` over a window's completed and skipped rows, as `Completion.Rate` of that group's counts. `Completion.WindowStats` and `Completion.BestWindowMaximal` state its use. |
| `Completion.WindowStats` | insights_generator.py:34-38 | `window_stats` has an entry exactly for the windows that have completed or skipped events. Each entry is that window's completed fraction. |
| `Completion.IdxMax` | insights_generator.py:39 | `idxmax` returns None exactly when no key is present. Otherwise its key's value is maximal, and every earlier key in the order has a strictly smaller value. |
| `Completion.BestWindow` | insights_generator.py:39 | `best_window`: `idxmax` over the window statistics in sorted key order. Its properties are stated by `Completion.BestWindowNoneIff`, `Completion.BestWindowExists` and `Completion.BestWindowMaximal`. |
| `Completion.BestWindowRate` | insights_generator.py:40 | `best_window_rate` is present exactly when `best_window` is, and it is that window's rate. |
| `Completion.BestWindowNoneIff` | insights_generator.py:36-39 | `best_window` is None exactly when no event is completed or skipped. |
| `Completion.BestWindowExists` | insights_generator.py:36-39 | If some event is completed or skipped, there is a best window. |
| `Completion.BestWindowMaximal` | insights_generator.py:36-39 | A window with completed or skipped events guarantees a best window. The best window has completed or skipped events, and no window with such events has a higher rate. A window that comes before it in the key order has a strictly lower rate, because ties go to the first key. With `Windows.SortPositionIsLabelOrder`, that means the first label in lexicographic order. |
| `TaskRanking.CompletedTypes` | insights_generator.py:43 | A task type is in the column exactly when some completed event has it, and the column is no longer than the log. `TaskRanking.CompletedTypesAppend` and `TaskRanking.CompletedTypesOne` pin down its repeats and order. |
| `TaskRanking.CompletedTypesOne` | insights_generator.py:43 | A single row contributes its task type when it is completed, and nothing otherwise. |
| `TaskRanking.CompletedTypesAppend` | insights_generator.py:43 | The column of a concatenation is the concatenation of the columns. So it has one entry per completed event, repeats included, in event order, and `TaskRanking.Occurrences` on it is the `value_counts` count. |
| `TaskRanking.Occurrences` | insights_generator.py:43 | The count of a task type is at most the length of the column, and positive exactly when the type occurs. `TaskRanking.OccurrencesCount` pins its value. |
| `TaskRanking.OccurrencesCount` | insights_generator.py:43 | The count is exactly the number of times the task type occurs in the column, its multiplicity. On the completed column this is the count `value_counts` reports. |
| `TaskRanking.OutranksTotal` | insights_generator.py:43 | The ranking orders any two different task types one way or the other. |
| `TaskRanking.OutranksTransitive` | insights_generator.py:43 | The ranking is transitive, so it is a strict total order on the completed task types. |
| `TaskRanking.Distinct` | insights_generator.py:43 | The distinct values of the task-type column: each value once, and nothing else. |
| `TaskRanking.Leader` | insights_generator.py:43 | The selected type outranks every other remaining candidate. |
| `TaskRanking.Rank` | insights_generator.py:43 | The ranking is a duplicate-free rearrangement of the candidates, and each entry outranks every later one. |
| `TaskRanking.ValueCounts` | insights_generator.py:43 | `value_counts().index` lists each distinct completed task type exactly once, in ranking order. |
| `TaskRanking.TopTasks` | insights_generator.py:43 | `.head(3).index.tolist()`: the first three entries of `TaskRanking.ValueCounts`. `TaskRanking.TopTasksContents`, `TaskRanking.TopTasksOrdered` and `TaskRanking.TopTasksLeftOut` state its properties. |
| `TaskRanking.TopTasksContents` | insights_generator.py:43 | `top_tasks` has at most 3 entries and no duplicates, and every entry is the task type of some completed event. It has fewer than 3 entries only when it already holds every completed task type. |
| `TaskRanking.TopTasksOrdered` | insights_generator.py:43 | Along `top_tasks`, completed counts never increase, and equal counts keep the order of first appearance. |
| `TaskRanking.TopTasksLeftOut` | insights_generator.py:43 | A completed task type left out is outranked by every kept one, so its count is no greater than the last kept one's. |
| `Rewards.Reward` | insights_generator.py:48-53 | The reward is in {-1, 0, 1}. It is 1 exactly for completed events and -1 exactly for skipped events. |
| `Rewards.Sum` | insights_generator.py:55 | `df['reward'].sum()`. `Rewards.SumOfRewards` states its value. |
| `Rewards.SumOfRewards` | insights_generator.py:54-55 | A reward column with one reward per event sums to completed − skipped. |
| `Rewards.WeeklyScore` | insights_generator.py:46-55 | The loop appends exactly one reward per event, in order. The score is completed − skipped over the whole input; other actions add 0. |
| `Suggestions.ReplaceChar` | insights_generator.py:60 | `replace('_', ' ')` keeps the length and changes exactly the underscores. |
| `Suggestions.FocusTip` | insights_generator.py:59-60 | The best-window message is never the study message or the relax message. `Suggestions.FocusTipInjective` shows that it names its window. |
| `Suggestions.FocusTipInjective` | insights_generator.py:59-60 | Different windows give different best-window messages: the window label, with underscores turned into spaces, can be read back from the message. |
| `Suggestions.HasTaskType` | insights_generator.py:62-66 | `t in df['task_type'].values`: some event has task type `t`. |
| `Suggestions.AnySkipped` | insights_generator.py:62-66 | `(df.loc[df['task_type'] == t, 'action'] == 'skipped').any()`: some event of type `t` was skipped. |
| `Suggestions.SkippedImpliesPresent` | insights_generator.py:62-66 | The two-part test "type occurs and one of its events was skipped" holds exactly when some event of that type was skipped. |
| `Suggestions.RuleTable` | insights_generator.py:58-66 | The three rules in order, with the message each appends: a best window exists (line 59), a study event was skipped (line 62), a relax event was skipped (line 65). `Suggestions.SuggestionsShape`, `Suggestions.StudyTipIff`, `Suggestions.RelaxTipIff` and `Suggestions.SuggestionsSpec` state what they produce. |
| `Suggestions.Fired` | insights_generator.py:58-66 | The rule list yields at most one message per rule. A message is in the output exactly when a rule that holds carries it. |
| `Suggestions.BuildSuggestions` | insights_generator.py:58-66 | The conditional appends produce exactly the messages of the rules that hold, in rule order. |
| `Suggestions.SuggestionsShape` | insights_generator.py:58-66 | The suggestions are the best-window message if there is a best window, then the study message if a study event was skipped, then the relax message if a relax event was skipped. |
| `Suggestions.SuggestionsSpec` | insights_generator.py:58-66 | There are at most 3 suggestions. The first one names the best window when there is one, and no message names a window otherwise. |
| `Suggestions.StudyTipIff` | insights_generator.py:62-63 | The study message appears exactly when some "study" event was skipped. |
| `Suggestions.RelaxTipIff` | insights_generator.py:65-66 | The relax message appears exactly when some "relax" event was skipped. |
| `Suggestions.StudyBeforeRelax` | insights_generator.py:62-66 | When both messages appear, the study message comes before the relax message. |
| `Suggestions.NoStudyNoStudyTip` | insights_generator.py:62-63 | A log with no "study" events never gets the study message. |
| `Report.Join` | insights_generator.py:80 | `join` of the top tasks with the pipe character. `Report.SplitJoin` and `Report.JoinAmbiguous` state what can be read back from it. |
| `Report.SplitJoin` | insights_generator.py:80 | Splitting the joined `top_task_types` text on the separator gives the list back, when the list is non-empty and no piece contains the separator. |
| `Report.JoinAmbiguous` | insights_generator.py:80 | The joined cell is ambiguous: a task type holding the pipe separator and the two task types on either side of it give the same text, and so do one empty task type and none. |
| `Report.Decimal` | insights_generator.py:83-84 | The suggestion number is written as a non-empty string of decimal digits. Those digits spell the number, with no leading zero. |
| `Report.DecimalInjective` | insights_generator.py:83-84 | Different numbers are written differently, so no two suggestion rows share a name. |
| `Report.MetricRows` | insights_generator.py:77-82 | The four metric rows of the report: the completion rate with its counts, the best window with its rate, the joined top tasks, and the score. `Report.ReportRoundTrip` reads them back. |
| `Report.EncodeRows` | insights_generator.py:68-84 | The whole CSV report: the four metric rows, then the numbered suggestion rows. `Report.BuildRows` builds it, and `Report.ReportRoundTrip` reads it back. |
| `Report.BuildRows` | insights_generator.py:77-84 | The loop builds the four metric rows, then one row per suggestion, named `suggestion1`, `suggestion2`, and so on, in order. |
| `Report.DecodeSuggestionRows` | insights_generator.py:83-84 | The numbered suggestion rows decode back to the suggestion list. |
| `Report.ReportRoundTrip` | insights_generator.py:68-84 | Every field of the JSON insights record is recovered from its CSV rows, provided no top task type is empty or contains the separator (the pipe character). |
| `InsightsGenerator.InsightsOf` | insights_generator.py:68-75 | The `insights` dictionary of a run over the parsed rows, each field by its own definition. `InsightsGenerator.Analyze` builds it, and the lemmas of each field state its properties. |
| `InsightsGenerator.RowsOf` | insights_generator.py:77-84 | The `rows` list of a run over the parsed rows: the CSV encoding of that run's insights, counts and best-window rate. `InsightsGenerator.GenerateInsights` returns it, and `Report.ReportRoundTrip` reads it back. |
| `InsightsGenerator.SplittableTopTasks` | insights_generator.py:43 | If no event's task type is empty or contains the separator (the pipe character), no top task does either. |
| `InsightsGenerator.Statistics` | insights_generator.py:27-43 | The counts, the completion rate, the best window and its rate, and the top tasks, computed step by step, equal their definitions over the parsed rows. The counts on the filtered frame equal the counts over all rows. |
| `InsightsGenerator.Analyze` | insights_generator.py:27-66 | The statistics, the reward loop and the suggestion appends together give exactly the insights record of the parsed rows. |
| `InsightsGenerator.GenerateInsights` | insights_generator.py:18-93 | The run fails, and produces no insights and no rows, exactly when some timestamp is unparseable. Otherwise it returns the insights of the parsed rows and the CSV rows of those same insights. Those rows decode back to the JSON record whenever task types are non-empty and free of the separator. |
| `InsightsGenerator.EmptyLog` | insights_generator.py:27-66 | An empty log gives rate 0, no best window, no top tasks, score 0 and no suggestions. |
| `InsightsGenerator.ExerciseLogInsights` | insights_generator.py:27-55 | Three completed and one skipped "exercise" event at 09:00 give rate 0.75, best window morning with rate 0.75, top tasks ["exercise"] and score 2. |

## Left out

- data_logger.py is not part of this model. `append_event` is a single CSV append with no logic, and its `__main__` block is sample I/O.
- CSV reading and writing, and the JSON dump (insights_generator.py:19, 86, 89-90), are file I/O. The model returns the insights record and the list of CSV rows instead.
- Timestamp parsing and UTC normalisation by `pd.to_datetime` is a library call. Only its outcome is modelled: each event carries the parsed UTC hour, or `None` when parsing failed.
- `round(…, 2)` on the completion rates is left out. Rates are exact rationals (`real`), so a comparison of two window rates never suffers float rounding.
- The text of the `details` column is left out. It is kept as a structured value with the same content: the completed and skipped counts, the best-window rate, empty, and "sum of rewards".
- The `print` calls and the `__main__` entry point are left out.
- The in-place DataFrame columns `timestamp`, `hour`, `window` and `reward` are modelled as values derived from each row, not as a mutable table. The reward column is the sequence that `Rewards.WeeklyScore` builds.
- The action column is reduced to completed, skipped and anything else, which is all the engine distinguishes.
- Missing task-type cells (pandas NaN, which `value_counts` drops) are not modelled. Every event carries a string task type.
- `TaskRanking.ValueCounts`: ties in `value_counts` are assumed to be ranked by first appearance among completed events. pandas sorts the counts with quicksort by default, which is not stable, so the real program may order tied task types differently. The model fixes the first-appearance order for ties.
- `Report.ReportRoundTrip`: the round trip is promised only for top task types that are non-empty and free of the pipe separator. `Report.JoinAmbiguous` shows that the `top_task_types` cell loses the difference otherwise.
