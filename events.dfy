/**
 * Events as `generate_insights` reads them, and the fail-fast timestamp
 * check that runs before any aggregation.
 */
module Events {
  import opened Wrappers
  import opened Windows

  /** The `action` column; every value other than completed and skipped is Other. */
  datatype Action = Completed | Skipped | Other

  /**
   * One row of the input log. `hour` is the UTC hour of the parsed
   * timestamp, or None when the timestamp could not be parsed.
   */
  datatype Event = Event(hour: Option<int>, taskType: string, action: Action)

  /** A row after timestamp parsing, with its derived `hour` column. */
  datatype Row = Row(hour: int, taskType: string, action: Action) {
    /** The derived `window` column. */
    function Window(): Window {
      HourToWindow(hour)
    }
  }

  /** The one error the run raises itself. */
  datatype InsightsError = UnparseableTimestamp

  /**
   * Timestamp parsing with `errors='coerce'` followed by the null check:
   * the run fails when any timestamp is unparseable, and otherwise every
   * event becomes a row carrying its hour.
   */
  function ParseTimestamps(events: seq<Event>): (r: Result<seq<Row>, InsightsError>)
    ensures r.Failure? <==> exists i :: 0 <= i < |events| && events[i].hour.None?
    ensures r.Success? ==> |r.value| == |events|
    ensures r.Success? ==> forall i :: 0 <= i < |events| ==>
              r.value[i] == Row(events[i].hour.value, events[i].taskType, events[i].action)
  {
    if events == [] then Success([])
    else
      var rest := ParseTimestamps(events[1..]);
      assert forall i :: 1 <= i < |events| ==> events[i] == events[1..][i - 1];
      match events[0].hour
      case None => Failure(UnparseableTimestamp)
      case Some(h) =>
        if rest.Failure? then Failure(UnparseableTimestamp)
        else Success([Row(h, events[0].taskType, events[0].action)] + rest.value)
  }
}
