/**
 * Completion statistics of `generate_insights`: the completed and skipped
 * counts, the overall completion rate, the per-window completion rates of
 * `groupby('window')` and the best window chosen by `idxmax`.
 */
module Completion {
  import opened Wrappers
  import opened Windows
  import opened Events

  /** Number of rows whose action is `a`. */
  function Count(rows: seq<Row>, a: Action): (n: nat)
    ensures n <= |rows|
    ensures n > 0 <==> exists i :: 0 <= i < |rows| && rows[i].action == a
  {
    if rows == [] then 0
    else
      assert forall i :: 1 <= i < |rows| ==> rows[i] == rows[1..][i - 1];
      (if rows[0].action == a then 1 else 0) + Count(rows[1..], a)
  }

  lemma {:induction false} CountAppend(xs: seq<Row>, ys: seq<Row>, a: Action)
    ensures Count(xs + ys, a) == Count(xs, a) + Count(ys, a)
  {
    if xs != [] {
      assert (xs + ys)[1..] == xs[1..] + ys;
      CountAppend(xs[1..], ys, a);
    } else {
      assert xs + ys == ys;
    }
  }

  predicate Qualifies(r: Row) {
    r.action == Completed || r.action == Skipped
  }

  /** `df[df['action'].isin(['completed', 'skipped'])]`, in the original order. */
  function TotalTasks(rows: seq<Row>): (t: seq<Row>)
    ensures |t| <= |rows|
    ensures forall i :: 0 <= i < |t| ==> Qualifies(t[i]) && t[i] in rows
  {
    if rows == [] then []
    else if Qualifies(rows[0]) then [rows[0]] + TotalTasks(rows[1..])
    else TotalTasks(rows[1..])
  }

  /**
   * Filtering on the two counted actions changes neither count, and the
   * filtered frame holds exactly the completed and skipped rows.
   */
  lemma {:induction false} TotalTasksCounts(rows: seq<Row>)
    ensures Count(TotalTasks(rows), Completed) == Count(rows, Completed)
    ensures Count(TotalTasks(rows), Skipped) == Count(rows, Skipped)
    ensures Count(TotalTasks(rows), Other) == 0
    ensures |TotalTasks(rows)| == Count(rows, Completed) + Count(rows, Skipped)
  {
    if rows != [] {
      TotalTasksCounts(rows[1..]);
      if Qualifies(rows[0]) {
        CountAppend([rows[0]], TotalTasks(rows[1..]), Completed);
        CountAppend([rows[0]], TotalTasks(rows[1..]), Skipped);
        CountAppend([rows[0]], TotalTasks(rows[1..]), Other);
      }
    }
  }

  /** Appending an event whose action is neither completed nor skipped changes neither count. */
  lemma OtherEventsIgnored(rows: seq<Row>, r: Row)
    requires r.action == Other
    ensures Count(TotalTasks(rows + [r]), Completed) == Count(TotalTasks(rows), Completed)
    ensures Count(TotalTasks(rows + [r]), Skipped) == Count(TotalTasks(rows), Skipped)
  {
    TotalTasksCounts(rows + [r]);
    TotalTasksCounts(rows);
    CountAppend(rows, [r], Completed);
    CountAppend(rows, [r], Skipped);
  }

  /**
   * The exact completion rate `completed / (completed + skipped)`, and 0
   * when there is nothing to divide by.
   */
  function Rate(completed: nat, skipped: nat): (r: real)
    ensures 0.0 <= r <= 1.0
    ensures completed + skipped == 0 ==> r == 0.0
    ensures completed + skipped > 0 ==> r * (completed + skipped) as real == completed as real
    ensures r == 0.0 <==> completed == 0
    ensures r == 1.0 <==> completed > 0 && skipped == 0
  {
    if completed + skipped > 0 then
      var d := (completed + skipped) as real;
      var q := completed as real / d;
      assert q * d == completed as real;
      assert q <= 1.0;
      assert q == 1.0 ==> skipped == 0 by {
        if q == 1.0 { assert q * d == d; }
      }
      q
    else 0.0
  }

  /** `completion_rate` over all events, before rounding. */
  function CompletionRate(rows: seq<Row>): real {
    var t := TotalTasks(rows);
    Rate(Count(t, Completed), Count(t, Skipped))
  }

  /** The completion rate only ever looks at completed and skipped events. */
  lemma CompletionRateSpec(rows: seq<Row>)
    ensures 0.0 <= CompletionRate(rows) <= 1.0
    ensures Count(rows, Completed) + Count(rows, Skipped) == 0 ==> CompletionRate(rows) == 0.0
    ensures CompletionRate(rows) == Rate(Count(rows, Completed), Count(rows, Skipped))
  {
    TotalTasksCounts(rows);
  }

  /** The rows whose derived window is `w`. */
  function InWindow(rows: seq<Row>, w: Window): (t: seq<Row>)
    ensures |t| <= |rows|
    ensures forall x :: x in t <==> x in rows && x.Window() == w
  {
    if rows == [] then []
    else if rows[0].Window() == w then [rows[0]] + InWindow(rows[1..], w)
    else InWindow(rows[1..], w)
  }

  /** A single row is in the group of its own window and of no other. */
  lemma InWindowOne(r: Row, w: Window)
    ensures InWindow([r], w) == if r.Window() == w then [r] else []
  {
    assert [r][1..] == [];
  }

  /** The group of a concatenation is the concatenation of the groups: every row of the window, repeats kept, in order. */
  lemma {:induction false} InWindowAppend(xs: seq<Row>, ys: seq<Row>, w: Window)
    ensures InWindow(xs + ys, w) == InWindow(xs, w) + InWindow(ys, w)
  {
    if xs == [] {
      assert xs + ys == ys;
    } else {
      assert (xs + ys)[1..] == xs[1..] + ys;
      InWindowAppend(xs[1..], ys, w);
    }
  }

  /** When every row falls in window `w`, the group of `w` is the whole frame. */
  lemma {:induction false} InWindowAll(rows: seq<Row>, w: Window)
    requires forall i :: 0 <= i < |rows| ==> rows[i].Window() == w
    ensures InWindow(rows, w) == rows
  {
    if rows != [] {
      var tail := rows[1..];
      assert InWindow(tail, w) == tail by {
        forall i | 0 <= i < |tail| ensures tail[i].Window() == w {
          assert tail[i] == rows[i + 1];
        }
        InWindowAll(tail, w);
      }
      assert InWindow([rows[0]], w) == [rows[0]] by {
        InWindowOne(rows[0], w);
      }
      assert [rows[0]] + tail == rows;
      InWindowAppend([rows[0]], tail, w);
    }
  }

  lemma {:induction false} InWindowCount(rows: seq<Row>, w: Window, a: Action)
    ensures Count(InWindow(rows, w), a) <= Count(rows, a)
  {
    if rows != [] {
      InWindowCount(rows[1..], w, a);
      if rows[0].Window() == w {
        CountAppend([rows[0]], InWindow(rows[1..], w), a);
      }
    }
  }

  /** A window that no row falls in has no rows. */
  lemma {:induction false} InWindowNone(rows: seq<Row>, w: Window)
    requires forall i :: 0 <= i < |rows| ==> rows[i].Window() != w
    ensures InWindow(rows, w) == []
  {
    if rows != [] {
      assert forall i :: 1 <= i < |rows| ==> rows[1..][i - 1] == rows[i];
      InWindowNone(rows[1..], w);
    }
  }

  /** A row with action `a` in window `w` makes the window's count of `a` positive. */
  lemma InWindowWitness(rows: seq<Row>, i: int, a: Action)
    requires 0 <= i < |rows| && rows[i].action == a
    ensures Count(InWindow(rows, rows[i].Window()), a) > 0
  {
    var t := InWindow(rows, rows[i].Window());
    assert rows[i] in t;
    var k :| 0 <= k < |t| && t[k] == rows[i];
  }

  /** Completed and skipped events in window `w`. */
  function Qualifying(rows: seq<Row>, w: Window): nat {
    var t := InWindow(rows, w);
    Count(t, Completed) + Count(t, Skipped)
  }

  /** The completed fraction of the qualifying events in window `w`. */
  function WindowRate(rows: seq<Row>, w: Window): real {
    var t := InWindow(rows, w);
    Rate(Count(t, Completed), Count(t, Skipped))
  }

  /**
   * `window_stats`: one entry per window that has completed or skipped
   * events (windows without any are absent, not zero), holding its rate.
   */
  function WindowStats(rows: seq<Row>): (stats: map<Window, real>)
    ensures forall w :: w in stats <==> Qualifying(rows, w) > 0
    ensures forall w :: w in stats ==> stats[w] == WindowRate(rows, w)
  {
    AllWindowsSorted();
    map w | w in SORTED_WINDOWS && Qualifying(rows, w) > 0 :: WindowRate(rows, w)
  }

  /**
   * `idxmax` over the keys of `stats` taken in the order `order`: the first
   * key whose value is maximal, or None when no key of `order` is in `stats`.
   */
  function IdxMax(order: seq<Window>, stats: map<Window, real>): (r: Option<Window>)
    ensures r.None? <==> forall i :: 0 <= i < |order| ==> order[i] !in stats
    ensures r.Some? ==> r.value in stats
    ensures r.Some? ==> forall i :: 0 <= i < |order| && order[i] in stats ==> stats[order[i]] <= stats[r.value]
    ensures r.Some? ==> exists k :: (0 <= k < |order| && order[k] == r.value &&
              forall i :: 0 <= i < k && order[i] in stats ==> stats[order[i]] < stats[r.value])
  {
    if order == [] then None
    else
      var rest := IdxMax(order[1..], stats);
      assert forall i :: 1 <= i < |order| ==> order[i] == order[1..][i - 1];
      if order[0] in stats && (rest.None? || stats[order[0]] >= stats[rest.value]) then
        Some(order[0])
      else
        if rest.Some? then
          var k :| 0 <= k < |order[1..]| && order[1..][k] == rest.value &&
                   forall i :: 0 <= i < k && order[1..][i] in stats ==> stats[order[1..][i]] < stats[rest.value];
          assert order[k + 1] == rest.value;
          rest
        else rest
  }

  /** `best_window`. */
  function BestWindow(rows: seq<Row>): Option<Window> {
    IdxMax(SORTED_WINDOWS, WindowStats(rows))
  }

  /** `best_window_rate`, before rounding. */
  function BestWindowRate(rows: seq<Row>): (r: Option<real>)
    ensures r.Some? <==> BestWindow(rows).Some?
    ensures r.Some? ==> r.value == WindowRate(rows, BestWindow(rows).value)
  {
    match BestWindow(rows)
    case None => None
    case Some(w) => Some(WindowStats(rows)[w])
  }

  /** There is no best window exactly when no event is completed or skipped. */
  lemma BestWindowNoneIff(rows: seq<Row>)
    ensures BestWindow(rows).None? <==> Count(rows, Completed) + Count(rows, Skipped) == 0
  {
    if Count(rows, Completed) + Count(rows, Skipped) > 0 {
      BestWindowExists(rows);
    } else if BestWindow(rows).Some? {
      var w := BestWindow(rows).value;
      InWindowCount(rows, w, Completed);
      InWindowCount(rows, w, Skipped);
    }
  }

  lemma BestWindowExists(rows: seq<Row>)
    requires Count(rows, Completed) + Count(rows, Skipped) > 0
    ensures BestWindow(rows).Some?
  {
    var stats := WindowStats(rows);
    var a := if Count(rows, Completed) > 0 then Completed else Skipped;
    var i :| 0 <= i < |rows| && rows[i].action == a;
    var w := rows[i].Window();
    InWindowWitness(rows, i, a);
    assert w in stats;
    assert SORTED_WINDOWS[SortPosition(w)] == w;
  }

  /**
   * The best window has completed or skipped events, its rate is maximal
   * among all windows that have some, and every window that sorts before
   * it has a strictly smaller rate.
   */
  lemma BestWindowMaximal(rows: seq<Row>, v: Window)
    requires Qualifying(rows, v) > 0
    ensures BestWindow(rows).Some?
    ensures Qualifying(rows, BestWindow(rows).value) > 0
    ensures WindowRate(rows, v) <= WindowRate(rows, BestWindow(rows).value)
    ensures SortPosition(v) < SortPosition(BestWindow(rows).value) ==>
              WindowRate(rows, v) < WindowRate(rows, BestWindow(rows).value)
  {
    assert BestWindow(rows).Some? by {
      InWindowCount(rows, v, Completed);
      InWindowCount(rows, v, Skipped);
      BestWindowExists(rows);
    }
    var w := BestWindow(rows).value;
    var stats := WindowStats(rows);
    var iv := SortPosition(v);
    var k :| 0 <= k < |SORTED_WINDOWS| && SORTED_WINDOWS[k] == w &&
             forall i :: 0 <= i < k && SORTED_WINDOWS[i] in stats ==> stats[SORTED_WINDOWS[i]] < stats[w];
    assert k == SortPosition(w);
    assert SORTED_WINDOWS[iv] in stats;
  }
}
