/**
 * `generate_insights`: validate the timestamps, then compute every
 * insight from the same parsed rows and emit both report views.
 */
module InsightsGenerator {
  import opened Wrappers
  import opened Windows
  import opened Events
  import opened Completion
  import opened TaskRanking
  import opened Rewards
  import opened Suggestions
  import opened Report

  /** The insights of a run over the parsed `rows`, each field by its own definition. */
  function InsightsOf(rows: seq<Row>): Insights {
    Insights(
      CompletionRate(rows),
      BestWindow(rows),
      TopTasks(rows),
      Count(rows, Completed) - Count(rows, Skipped),
      Fired(RuleTable(BestWindow(rows), rows)))
  }

  /** The CSV rows of a run over the parsed `rows`. */
  function RowsOf(rows: seq<Row>): seq<MetricRow> {
    EncodeRows(InsightsOf(rows), Count(rows, Completed), Count(rows, Skipped), BestWindowRate(rows))
  }

  /** What a successful run returns: the insights and the CSV rows built from them. */
  datatype Output = Output(insights: Insights, rows: seq<MetricRow>)

  predicate SplittableTaskTypes(events: seq<Event>) {
    forall i :: 0 <= i < |events| ==> events[i].taskType != "" && '|' !in events[i].taskType
  }

  /**
   * A run fails, producing nothing, exactly when some timestamp is
   * unparseable; otherwise it returns the insights of the parsed rows and
   * the CSV rows of those same insights, which decode back to them.
   */
  method GenerateInsights(events: seq<Event>) returns (r: Result<Output, InsightsError>)
    ensures r.Failure? <==> exists i :: 0 <= i < |events| && events[i].hour.None?
    ensures r.Success? ==> ParseTimestamps(events).Success?
    ensures r.Success? ==> r.value.insights == InsightsOf(ParseTimestamps(events).value)
    ensures r.Success? ==> r.value.rows == RowsOf(ParseTimestamps(events).value)
    ensures r.Success? && SplittableTaskTypes(events) ==> DecodeRows(r.value.rows) == Some(r.value.insights)
  {
    var parsed := ParseTimestamps(events);
    if parsed.Failure? {
      return Failure(parsed.error);
    }
    var rows := parsed.value;

    var insights, completed, skipped, bestRate := Analyze(rows);
    var report := BuildRows(insights, completed, skipped, bestRate);
    r := Success(Output(insights, report));
    if SplittableTaskTypes(events) {
      SplittableTopTasks(events, rows);
      ReportRoundTrip(insights, completed, skipped, bestRate);
    }
  }

  /**
   * The statistics of a run, in source order: the completion counts and
   * rate, the window statistics and best window, and the top tasks.
   */
  method Statistics(rows: seq<Row>)
    returns (completed: nat, skipped: nat, completionRate: real, best: Option<Window>, bestRate: Option<real>, top: seq<string>)
    ensures completed == Count(rows, Completed) && skipped == Count(rows, Skipped)
    ensures completionRate == CompletionRate(rows)
    ensures best == BestWindow(rows) && bestRate == BestWindowRate(rows)
    ensures top == TopTasks(rows)
  {
    var total := TotalTasks(rows);
    completed := Count(total, Completed);
    skipped := Count(total, Skipped);
    completionRate := Rate(completed, skipped);

    var stats := WindowStats(rows);
    best := IdxMax(SORTED_WINDOWS, stats);
    bestRate := if best.Some? then Some(stats[best.value]) else None;

    top := TopTasks(rows);
    TotalTasksCounts(rows);
  }

  /** The analysis steps of a run: the statistics, the reward loop and the suggestions. */
  method Analyze(rows: seq<Row>) returns (insights: Insights, completed: nat, skipped: nat, bestRate: Option<real>)
    ensures insights == InsightsOf(rows)
    ensures completed == Count(rows, Completed) && skipped == Count(rows, Skipped)
    ensures bestRate == BestWindowRate(rows)
  {
    var completionRate, best, top;
    completed, skipped, completionRate, best, bestRate, top := Statistics(rows);
    var rewards, score := WeeklyScore(rows);
    var suggestions := BuildSuggestions(best, rows);
    insights := Insights(completionRate, best, top, score, suggestions);
  }

  /** Top task types are task types of events, so they inherit being non-empty and `|`-free. */
  lemma SplittableTopTasks(events: seq<Event>, rows: seq<Row>)
    requires SplittableTaskTypes(events)
    requires |rows| == |events| && forall i :: 0 <= i < |events| ==> rows[i].taskType == events[i].taskType
    ensures forall t :: t in TopTasks(rows) ==> t != "" && '|' !in t
  {
    TopTasksContents(rows);
    forall t | t in TopTasks(rows) ensures t != "" && '|' !in t {
      var i :| 0 <= i < |rows| && rows[i].action == Completed && rows[i].taskType == t;
      assert events[i].taskType == t;
    }
  }

  lemma EmptyLogRate(rows: seq<Row>)
    requires |rows| == 0
    ensures CompletionRate(rows) == 0.0
  {
    CompletionRateSpec(rows);
  }

  lemma EmptyLogTopTasks(rows: seq<Row>)
    requires |rows| == 0
    ensures TopTasks(rows) == []
  {
    var ts := CompletedTypes(rows);
    assert Distinct(ts) == [];
    assert |ValueCounts(ts)| == 0;
  }

  lemma EmptyLogSuggestions(rows: seq<Row>)
    requires |rows| == 0
    ensures BestWindow(rows) == None
    ensures Fired(RuleTable(BestWindow(rows), rows)) == []
  {
    BestWindowNoneIff(rows);
    SuggestionsShape(None, rows);
  }

  /** An empty log: rate 0, no best window, no top tasks, score 0, no suggestions. */
  lemma EmptyLog(rows: seq<Row>)
    requires |rows| == 0
    ensures InsightsOf(rows) == Insights(0.0, None, [], 0, [])
  {
    var ins := InsightsOf(rows);
    assert ins.overallCompletionRate == 0.0 by { EmptyLogRate(rows); }
    assert ins.topTasks == [] by { EmptyLogTopTasks(rows); }
    assert ins.bestTimeWindow == None && ins.suggestions == [] by { EmptyLogSuggestions(rows); }
    assert ins.weeklyProductivityScore == 0;
  }

  /** Three completed and one skipped "exercise" event, all at 09:00 UTC. */
  function ExerciseLog(): seq<Row> {
    [Row(9, "exercise", Completed), Row(9, "exercise", Completed),
     Row(9, "exercise", Completed), Row(9, "exercise", Skipped)]
  }

  lemma ExerciseLogCounts()
    ensures Count(ExerciseLog(), Completed) == 3 && Count(ExerciseLog(), Skipped) == 1
  {
    var rows := ExerciseLog();
    assert rows[1..][1..][1..][1..] == [];
  }

  lemma ExerciseLogAllMorning()
    ensures forall i :: 0 <= i < |ExerciseLog()| ==> ExerciseLog()[i].Window() == Morning
  {
    HourToWindowClosedForm(9);
    forall i | 0 <= i < |ExerciseLog()| ensures ExerciseLog()[i].Window() == Morning {
      assert ExerciseLog()[i].hour == 9;
    }
  }

  lemma ExerciseLogWindows(w: Window)
    ensures Qualifying(ExerciseLog(), w) > 0 <==> w == Morning
  {
    var rows := ExerciseLog();
    ExerciseLogAllMorning();
    if w == Morning {
      assert rows[0] in InWindow(rows, w);
      InWindowWitness(rows, 0, Completed);
    } else {
      InWindowNone(rows, w);
    }
  }

  lemma ExerciseLogBestWindow()
    ensures BestWindow(ExerciseLog()) == Some(Morning)
  {
    var stats := WindowStats(ExerciseLog());
    ExerciseLogWindows(Morning);
    assert Morning in stats && SORTED_WINDOWS[3] == Morning;
    forall w | w in stats ensures w == Morning {
      ExerciseLogWindows(w);
    }
    var best := IdxMax(SORTED_WINDOWS, stats);
    assert best.Some? && best.value in stats;
  }

  lemma ExerciseLogBestRate()
    ensures BestWindowRate(ExerciseLog()) == Some(0.75)
  {
    var rows := ExerciseLog();
    ExerciseLogBestWindow();
    ExerciseLogAllMorning();
    InWindowAll(rows, Morning);
    ExerciseLogCounts();
    assert WindowRate(rows, Morning) == Rate(3, 1);
    assert Rate(3, 1) * 4.0 == 3.0;
  }

  lemma ExerciseLogTopTasks()
    ensures TopTasks(ExerciseLog()) == ["exercise"]
  {
    var rows := ExerciseLog();
    var ts := CompletedTypes(rows);
    assert ts == ["exercise", "exercise", "exercise"] by {
      assert rows[1..][1..][1..][1..] == [];
    }
    assert Distinct(ts) == ["exercise"] by {
      assert ts[1..] == ["exercise", "exercise"] && ts[1..][1..] == ["exercise"];
      assert ["exercise"][1..] == [];
      assert Distinct(["exercise"]) == ["exercise"];
      assert Distinct(["exercise", "exercise"]) == ["exercise"];
    }
    var vc := ValueCounts(ts);
    assert |vc| == 1 && vc[0] in ["exercise"];
    assert vc == ["exercise"];
  }

  /**
   * Three completed and one skipped "exercise" event at 09:00: rate 3/4,
   * best window morning with rate 3/4, top tasks ["exercise"], score 2.
   */
  lemma ExerciseLogInsights()
    ensures InsightsOf(ExerciseLog()).overallCompletionRate == 0.75
    ensures InsightsOf(ExerciseLog()).bestTimeWindow == Some(Morning)
    ensures InsightsOf(ExerciseLog()).topTasks == ["exercise"]
    ensures InsightsOf(ExerciseLog()).weeklyProductivityScore == 2
    ensures BestWindowRate(ExerciseLog()) == Some(0.75)
  {
    ExerciseLogBestRate();
    ExerciseLogCounts();
    CompletionRateSpec(ExerciseLog());
    assert Rate(3, 1) * 4.0 == 3.0;
    ExerciseLogBestWindow();
    ExerciseLogTopTasks();
  }
}
