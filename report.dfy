/**
 * The two views of one run: the insights record dumped as JSON, and the
 * flat `metric, value, details` rows written as CSV. Decoding the rows
 * gives back the record, so the two views cannot disagree.
 */
module Report {
  import opened Wrappers
  import opened Windows

  /** The `insights` dictionary, field for field; rates are exact, not rounded. */
  datatype Insights = Insights(
    overallCompletionRate: real,
    bestTimeWindow: Option<Window>,
    topTasks: seq<string>,
    weeklyProductivityScore: int,
    suggestions: seq<string>)

  /** A cell of the `value` column. */
  datatype Value = Number(x: real) | Integer(n: int) | Text(s: string) | Null

  /** What the `details` column reports, before it is formatted as text. */
  datatype Details = Counts(completed: nat, skipped: nat) | BestRate(rate: Option<real>) | NoDetails | SumOfRewards

  /** One row of the CSV report. */
  datatype MetricRow = MetricRow(metric: string, value: Value, details: Details)

  /** `sep.join(xs)`. */
  function Join(xs: seq<string>, sep: char): string {
    if xs == [] then ""
    else if |xs| == 1 then xs[0]
    else xs[0] + [sep] + Join(xs[1..], sep)
  }

  /** `s.split(sep)`: the pieces between separators; always at least one piece. */
  function Split(s: string, sep: char): (parts: seq<string>)
    ensures |parts| >= 1
  {
    if s == [] then [""]
    else
      var rest := Split(s[1..], sep);
      if s[0] == sep then [""] + rest else [[s[0]] + rest[0]] + rest[1..]
  }

  lemma {:induction false} SplitPiece(x: string, sep: char)
    requires sep !in x
    ensures Split(x, sep) == [x]
  {
    if x != [] {
      SplitPiece(x[1..], sep);
      assert [x[0]] + x[1..] == x;
    }
  }

  lemma {:induction false} SplitFirst(x: string, y: string, sep: char)
    requires sep !in x
    ensures Split(x + [sep] + y, sep) == [x] + Split(y, sep)
  {
    if x == [] {
      assert x + [sep] + y == [sep] + y;
      assert ([sep] + y)[1..] == y;
    } else {
      assert (x + [sep] + y)[1..] == x[1..] + [sep] + y;
      SplitFirst(x[1..], y, sep);
      assert [x[0]] + x[1..] == x;
    }
  }

  /** Splitting a joined list gives the list back when no piece contains the separator. */
  lemma {:induction false} SplitJoin(xs: seq<string>, sep: char)
    requires xs != []
    requires forall x :: x in xs ==> sep !in x
    ensures Split(Join(xs, sep), sep) == xs
  {
    if |xs| == 1 {
      SplitPiece(xs[0], sep);
    } else {
      SplitJoin(xs[1..], sep);
      SplitFirst(xs[0], Join(xs[1..], sep), sep);
    }
  }

  lemma {:induction false} JoinNonEmpty(xs: seq<string>, sep: char)
    requires xs != [] && xs[0] != ""
    ensures Join(xs, sep) != ""
  {
  }

  function DigitChar(d: nat): (c: char)
    requires d < 10
    ensures '0' <= c <= '9'
  {
    ('0' as int + d) as char
  }

  predicate AllDigits(s: string) {
    forall i :: 0 <= i < |s| ==> '0' <= s[i] <= '9'
  }

  /** The number a string of decimal digits spells, most significant digit first. */
  function DigitsValue(s: string): nat
    requires AllDigits(s)
  {
    if s == [] then 0 else 10 * DigitsValue(s[..|s| - 1]) + (s[|s| - 1] as int - '0' as int)
  }

  /** The decimal text of `n`, as an f-string prints it: the digits that spell `n`, with no leading zero. */
  function Decimal(n: nat): (s: string)
    ensures |s| > 0 && AllDigits(s)
    ensures DigitsValue(s) == n
    ensures n > 0 ==> s[0] != '0'
  {
    if n < 10 then
      var s := [DigitChar(n)];
      assert s[..0] == [];
      s
    else
      var p := Decimal(n / 10);
      var s := p + [DigitChar(n % 10)];
      assert s[..|s| - 1] == p;
      s
  }

  /** Different numbers are written differently, so suggestion rows never share a name. */
  lemma DecimalInjective(m: nat, n: nat)
    requires Decimal(m) == Decimal(n)
    ensures m == n
  {
  }

  /** The rows `suggestion<first>`, `suggestion<first + 1>`, ... for the suggestions in order. */
  function SuggestionRows(suggestions: seq<string>, first: nat): seq<MetricRow> {
    seq(|suggestions|, i requires 0 <= i < |suggestions| =>
      MetricRow("suggestion" + Decimal(first + i), Text(suggestions[i]), NoDetails))
  }

  /** The four metric rows. */
  function MetricRows(ins: Insights, completed: nat, skipped: nat, bestRate: Option<real>): seq<MetricRow> {
    [ MetricRow("overall_completion_rate", Number(ins.overallCompletionRate), Counts(completed, skipped)),
      MetricRow("best_time_window",
                if ins.bestTimeWindow.Some? then Text(ins.bestTimeWindow.value.Label()) else Null,
                BestRate(bestRate)),
      MetricRow("top_task_types", Text(Join(ins.topTasks, '|')), NoDetails),
      MetricRow("weekly_productivity_score", Integer(ins.weeklyProductivityScore), SumOfRewards) ]
  }

  /** The whole CSV report: the metric rows, then one row per suggestion numbered from 1. */
  function EncodeRows(ins: Insights, completed: nat, skipped: nat, bestRate: Option<real>): seq<MetricRow> {
    MetricRows(ins, completed, skipped, bestRate) + SuggestionRows(ins.suggestions, 1)
  }

  /** Building `rows`: the metric rows, then the `enumerate(suggestions, start=1)` loop. */
  method BuildRows(ins: Insights, completed: nat, skipped: nat, bestRate: Option<real>) returns (rows: seq<MetricRow>)
    ensures rows == EncodeRows(ins, completed, skipped, bestRate)
  {
    rows := MetricRows(ins, completed, skipped, bestRate);
    var i := 0;
    while i < |ins.suggestions|
      invariant 0 <= i <= |ins.suggestions|
      invariant rows == MetricRows(ins, completed, skipped, bestRate) + SuggestionRows(ins.suggestions[..i], 1)
    {
      rows := rows + [MetricRow("suggestion" + Decimal(i + 1), Text(ins.suggestions[i]), NoDetails)];
      i := i + 1;
    }
    assert ins.suggestions[..i] == ins.suggestions;
  }

  /** The window whose label is `l`, if any. */
  function FromLabel(l: string): (w: Option<Window>)
    ensures w.Some? ==> w.value.Label() == l
  {
    if l == EarlyMorning.Label() then Some(EarlyMorning)
    else if l == Morning.Label() then Some(Morning)
    else if l == Afternoon.Label() then Some(Afternoon)
    else if l == Evening.Label() then Some(Evening)
    else if l == Night.Label() then Some(Night)
    else None
  }

  lemma FromLabelLabel(w: Window)
    ensures FromLabel(w.Label()) == Some(w)
  {
  }

  /** Reads the suggestion rows back, checking their numbering from `k`. */
  function DecodeSuggestions(rows: seq<MetricRow>, k: nat): Option<seq<string>>
    decreases |rows|
  {
    if rows == [] then Some([])
    else if rows[0].metric != "suggestion" + Decimal(k) || !rows[0].value.Text? then None
    else
      match DecodeSuggestions(rows[1..], k + 1)
      case None => None
      case Some(rest) => Some([rows[0].value.s] + rest)
  }

  lemma {:induction false} DecodeSuggestionRows(suggestions: seq<string>, k: nat)
    ensures DecodeSuggestions(SuggestionRows(suggestions, k), k) == Some(suggestions)
  {
    if suggestions != [] {
      assert SuggestionRows(suggestions, k)[1..] == SuggestionRows(suggestions[1..], k + 1);
      DecodeSuggestionRows(suggestions[1..], k + 1);
      assert [suggestions[0]] + suggestions[1..] == suggestions;
    }
  }

  /**
   * The top-task cell cannot tell a task type containing the separator from
   * two task types, nor an empty task type from no task at all.
   */
  lemma JoinAmbiguous()
    ensures Join(["a|b"], '|') == Join(["a", "b"], '|')
    ensures Split(Join(["a|b"], '|'), '|') != ["a|b"]
    ensures Join([""], '|') == Join([], '|')
  {
    assert ["a", "b"][1..] == ["b"];
    assert Join(["a", "b"], '|') == "a" + "|" + "b";
    SplitFirst("a", "b", '|');
    SplitPiece("b", '|');
    assert Split("a|b", '|') == ["a", "b"];
  }

  /** Reads an insights record back from the CSV rows, or None when they are not in report form. */
  function DecodeRows(rows: seq<MetricRow>): Option<Insights> {
    if |rows| < 4
       || rows[0].metric != "overall_completion_rate" || !rows[0].value.Number?
       || rows[1].metric != "best_time_window" || !(rows[1].value.Null? || rows[1].value.Text?)
       || rows[2].metric != "top_task_types" || !rows[2].value.Text?
       || rows[3].metric != "weekly_productivity_score" || !rows[3].value.Integer?
    then None
    else
      var best := if rows[1].value.Null? then None else FromLabel(rows[1].value.s);
      if rows[1].value.Text? && best.None? then None
      else
        var top := if rows[2].value.s == "" then [] else Split(rows[2].value.s, '|');
        match DecodeSuggestions(rows[4..], 1)
        case None => None
        case Some(suggestions) =>
          Some(Insights(rows[0].value.x, best, top, rows[3].value.n, suggestions))
  }

  /**
   * Every field of the insights record is recovered from its CSV rows,
   * provided no top task type is empty or contains the `|` separator.
   */
  lemma ReportRoundTrip(ins: Insights, completed: nat, skipped: nat, bestRate: Option<real>)
    requires forall t :: t in ins.topTasks ==> t != "" && '|' !in t
    ensures DecodeRows(EncodeRows(ins, completed, skipped, bestRate)) == Some(ins)
  {
    var rows := EncodeRows(ins, completed, skipped, bestRate);
    assert rows[4..] == SuggestionRows(ins.suggestions, 1);
    DecodeSuggestionRows(ins.suggestions, 1);
    if ins.bestTimeWindow.Some? {
      FromLabelLabel(ins.bestTimeWindow.value);
    }
    if ins.topTasks != [] {
      assert ins.topTasks[0] in ins.topTasks;
      JoinNonEmpty(ins.topTasks, '|');
      SplitJoin(ins.topTasks, '|');
    }
  }
}
