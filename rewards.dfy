/**
 * The reward loop of `generate_insights` and `weekly_productivity_score`,
 * the sum of the `reward` column over every event.
 */
module Rewards {
  import opened Events
  import opened Completion

  /** The reward the loop appends for one event. */
  function Reward(a: Action): (r: int)
    ensures -1 <= r <= 1
    ensures r == 1 <==> a == Completed
    ensures r == -1 <==> a == Skipped
  {
    match a
    case Completed => 1
    case Skipped => -1
    case Other => 0
  }

  function Sum(xs: seq<int>): int {
    if xs == [] then 0 else xs[0] + Sum(xs[1..])
  }

  lemma {:induction false} SumAppend(xs: seq<int>, x: int)
    ensures Sum(xs + [x]) == Sum(xs) + x
  {
    if xs == [] {
      assert xs + [x] == [x];
    } else {
      assert (xs + [x])[1..] == xs[1..] + [x];
      SumAppend(xs[1..], x);
    }
  }

  /**
   * Any reward column, one reward per event, sums to the number of
   * completed events minus the number of skipped events.
   */
  lemma {:induction false} SumOfRewards(rows: seq<Row>, rewards: seq<int>)
    requires |rewards| == |rows|
    requires forall k :: 0 <= k < |rows| ==> rewards[k] == Reward(rows[k].action)
    ensures Sum(rewards) == Count(rows, Completed) - Count(rows, Skipped)
  {
    if rows != [] {
      SumOfRewards(rows[1..], rewards[1..]);
    }
  }

  /**
   * The `for _, row in df.iterrows()` loop building `rewards`, then
   * `df['reward'].sum()`.
   */
  method WeeklyScore(rows: seq<Row>) returns (rewards: seq<int>, score: int)
    ensures |rewards| == |rows|
    ensures forall k :: 0 <= k < |rows| ==> rewards[k] == Reward(rows[k].action)
    ensures score == Count(rows, Completed) - Count(rows, Skipped)
  {
    rewards := [];
    var i := 0;
    while i < |rows|
      invariant 0 <= i <= |rows|
      invariant |rewards| == i
      invariant forall k :: 0 <= k < i ==> rewards[k] == Reward(rows[k].action)
    {
      if rows[i].action == Completed {
        rewards := rewards + [1];
      } else if rows[i].action == Skipped {
        rewards := rewards + [-1];
      } else {
        rewards := rewards + [0];
      }
      i := i + 1;
    }
    score := Sum(rewards);
    SumOfRewards(rows, rewards);
  }
}
