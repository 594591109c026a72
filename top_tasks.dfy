/**
 * `df[df['action'] == 'completed']['task_type'].value_counts().head(3)`:
 * the task types of completed events ranked by how often they were
 * completed, most often first, ties in order of first appearance.
 */
module TaskRanking {
  import opened Events

  /** The `task_type` column of the completed events, in event order. */
  function CompletedTypes(rows: seq<Row>): (ts: seq<string>)
    ensures |ts| <= |rows|
    ensures forall t :: t in ts <==> exists i :: 0 <= i < |rows| && rows[i].action == Completed && rows[i].taskType == t
  {
    if rows == [] then []
    else
      assert forall i :: 1 <= i < |rows| ==> rows[i] == rows[1..][i - 1];
      (if rows[0].action == Completed then [rows[0].taskType] else []) + CompletedTypes(rows[1..])
  }

  /** A single row contributes its task type exactly when it is completed. */
  lemma CompletedTypesOne(r: Row)
    ensures CompletedTypes([r]) == if r.action == Completed then [r.taskType] else []
  {
    assert [r][1..] == [];
  }

  /** The column of a concatenation is the concatenation of the columns: one entry per completed event, repeats kept. */
  lemma {:induction false} CompletedTypesAppend(xs: seq<Row>, ys: seq<Row>)
    ensures CompletedTypes(xs + ys) == CompletedTypes(xs) + CompletedTypes(ys)
  {
    if xs == [] {
      assert xs + ys == ys;
    } else {
      var zs := xs + ys;
      var head := if xs[0].action == Completed then [xs[0].taskType] else [];
      assert zs[0] == xs[0] && zs[1..] == xs[1..] + ys;
      assert CompletedTypes(zs) == head + CompletedTypes(zs[1..]);
      assert CompletedTypes(xs) == head + CompletedTypes(xs[1..]);
      CompletedTypesAppend(xs[1..], ys);
      assert head + (CompletedTypes(xs[1..]) + CompletedTypes(ys)) == (head + CompletedTypes(xs[1..])) + CompletedTypes(ys);
    }
  }

  /** How many times `t` occurs in `ts`: the count `value_counts` reports for `t`. */
  function Occurrences(ts: seq<string>, t: string): (n: nat)
    ensures n <= |ts|
    ensures n > 0 <==> t in ts
  {
    if ts == [] then 0
    else (if ts[0] == t then 1 else 0) + Occurrences(ts[1..], t)
  }

  /** `Occurrences` is the number of times `t` occurs in `ts`, the count `value_counts` reports. */
  lemma {:induction false} OccurrencesCount(ts: seq<string>, t: string)
    ensures Occurrences(ts, t) == multiset(ts)[t]
  {
    if ts != [] {
      assert ts == [ts[0]] + ts[1..];
      OccurrencesCount(ts[1..], t);
    }
  }

  /** The position of the first occurrence of `t`. */
  function FirstIndex(ts: seq<string>, t: string): (k: nat)
    requires t in ts
    ensures k < |ts| && ts[k] == t
    ensures forall j :: 0 <= j < k ==> ts[j] != t
  {
    if ts[0] == t then 0 else 1 + FirstIndex(ts[1..], t)
  }

  /**
   * The ranking of `value_counts`: `a` comes before `b` when it was
   * completed more often, or as often and appeared first.
   */
  predicate Outranks(ts: seq<string>, a: string, b: string)
    requires a in ts && b in ts
  {
    Occurrences(ts, a) > Occurrences(ts, b)
    || (Occurrences(ts, a) == Occurrences(ts, b) && FirstIndex(ts, a) < FirstIndex(ts, b))
  }

  /** Two different task types are always ranked one way or the other. */
  lemma OutranksTotal(ts: seq<string>, a: string, b: string)
    requires a in ts && b in ts && a != b
    ensures Outranks(ts, a, b) || Outranks(ts, b, a)
  {
    assert FirstIndex(ts, a) != FirstIndex(ts, b);
  }

  lemma OutranksTransitive(ts: seq<string>, a: string, b: string, c: string)
    requires a in ts && b in ts && c in ts
    requires Outranks(ts, a, b) && Outranks(ts, b, c)
    ensures Outranks(ts, a, c)
  {
  }

  predicate NoDuplicates(s: seq<string>) {
    forall i, j :: 0 <= i < j < |s| ==> s[i] != s[j]
  }

  /** The distinct values of `ts`. */
  function Distinct(ts: seq<string>): (d: seq<string>)
    ensures NoDuplicates(d)
    ensures forall t :: t in d <==> t in ts
  {
    if ts == [] then []
    else
      var rest := Distinct(ts[1..]);
      if ts[0] in rest then rest else [ts[0]] + rest
  }

  /** The element of `rem` that outranks all others. */
  function Leader(ts: seq<string>, rem: seq<string>): (m: string)
    requires rem != [] && forall x :: x in rem ==> x in ts
    ensures m in rem
    ensures forall x :: x in rem && x != m ==> Outranks(ts, m, x)
  {
    if |rem| == 1 then rem[0]
    else
      var m := Leader(ts, rem[1..]);
      if rem[0] == m || Outranks(ts, rem[0], m) then
        assert forall x :: x in rem[1..] && x != m ==> Outranks(ts, m, x);
        forall x | x in rem && x != rem[0] ensures Outranks(ts, rem[0], x) {
          if rem[0] != m && x != m { OutranksTransitive(ts, rem[0], m, x); }
        }
        rem[0]
      else
        OutranksTotal(ts, rem[0], m);
        m
  }

  /** `rem` without `m`. */
  function Remove(rem: seq<string>, m: string): (r: seq<string>)
    ensures forall x :: x in r <==> x in rem && x != m
    ensures NoDuplicates(rem) ==> NoDuplicates(r)
    ensures m in rem && NoDuplicates(rem) ==> |r| == |rem| - 1
    ensures m !in rem ==> |r| == |rem|
  {
    if rem == [] then []
    else if rem[0] == m then Remove(rem[1..], m)
    else
      var r := Remove(rem[1..], m);
      assert NoDuplicates(rem) ==> rem[0] !in rem[1..];
      [rem[0]] + r
  }

  /** The candidates `rem` in ranking order, each time taking the leader of what is left. */
  function Rank(ts: seq<string>, rem: seq<string>): (r: seq<string>)
    requires NoDuplicates(rem) && forall x :: x in rem ==> x in ts
    ensures |r| == |rem|
    ensures NoDuplicates(r)
    ensures forall x :: x in r <==> x in rem
    ensures forall i, j :: 0 <= i < j < |r| ==> Outranks(ts, r[i], r[j])
    decreases |rem|
  {
    if rem == [] then []
    else
      var m := Leader(ts, rem);
      [m] + Rank(ts, Remove(rem, m))
  }

  /** `value_counts().index`: every distinct completed task type, in ranking order. */
  function ValueCounts(ts: seq<string>): (r: seq<string>)
    ensures NoDuplicates(r)
    ensures forall x :: x in r <==> x in ts
    ensures forall i, j :: 0 <= i < j < |r| ==> Outranks(ts, r[i], r[j])
  {
    Rank(ts, Distinct(ts))
  }

  /** `top_tasks`: the first three entries of the ranking. */
  function TopTasks(rows: seq<Row>): seq<string> {
    var vc := ValueCounts(CompletedTypes(rows));
    if |vc| <= 3 then vc else vc[..3]
  }

  /**
   * `top_tasks` holds at most three distinct task types, each of them the
   * task type of some completed event, and it is only shorter than three
   * when there are fewer distinct completed task types.
   */
  lemma TopTasksContents(rows: seq<Row>)
    ensures |TopTasks(rows)| <= 3
    ensures NoDuplicates(TopTasks(rows))
    ensures forall t :: t in TopTasks(rows) ==>
              exists i :: 0 <= i < |rows| && rows[i].action == Completed && rows[i].taskType == t
    ensures |TopTasks(rows)| < 3 ==> forall t :: t in CompletedTypes(rows) ==> t in TopTasks(rows)
  {
    var vc := ValueCounts(CompletedTypes(rows));
    var top := TopTasks(rows);
    assert forall i :: 0 <= i < |top| ==> top[i] == vc[i];
  }

  /**
   * `top_tasks` is in ranking order: completed counts never increase along
   * it, and equal counts keep the order of first appearance.
   */
  lemma TopTasksOrdered(rows: seq<Row>, i: int, j: int)
    requires 0 <= i < j < |TopTasks(rows)|
    ensures Outranks(CompletedTypes(rows), TopTasks(rows)[i], TopTasks(rows)[j])
    ensures Occurrences(CompletedTypes(rows), TopTasks(rows)[i]) >= Occurrences(CompletedTypes(rows), TopTasks(rows)[j])
  {
    var vc := ValueCounts(CompletedTypes(rows));
    assert TopTasks(rows)[i] == vc[i] && TopTasks(rows)[j] == vc[j];
  }

  /**
   * A completed task type left out of `top_tasks` is outranked by every
   * kept one, so its completed count is no greater than the last kept one's.
   */
  lemma TopTasksLeftOut(rows: seq<Row>, t: string, i: int)
    requires t in CompletedTypes(rows) && t !in TopTasks(rows)
    requires 0 <= i < |TopTasks(rows)|
    ensures Outranks(CompletedTypes(rows), TopTasks(rows)[i], t)
    ensures Occurrences(CompletedTypes(rows), t) <= Occurrences(CompletedTypes(rows), TopTasks(rows)[i])
  {
    var ts := CompletedTypes(rows);
    var vc := ValueCounts(ts);
    var top := TopTasks(rows);
    assert top[i] == vc[i];
    var j :| 0 <= j < |vc| && vc[j] == t;
    assert forall k :: 0 <= k < |top| ==> top[k] == vc[k];
    assert j >= |top|;
  }
}
