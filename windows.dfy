/**
 * The time-of-day windows of insights_generator.py and the classifier
 * `hour_to_window`, which searches the WINDOWS table for the first range
 * holding the hour and falls back to the night window.
 */
module Windows {
  import opened Wrappers

  /** The five window labels. */
  datatype Window = EarlyMorning | Morning | Afternoon | Evening | Night {

    /** The label string the source stores in the `window` column. */
    function Label(): (s: string)
      ensures |s| > 0 && s[0] != '_'
    {
      match this
      case EarlyMorning => "early_morning_04_08"
      case Morning => "morning_08_12"
      case Afternoon => "afternoon_12_16"
      case Evening => "evening_16_20"
      case Night => "night_20_24"
    }
  }

  /** One entry `(name, start, end)` of the WINDOWS table: the right-open range [start, end). */
  datatype Range = Range(name: Window, start: int, end: int) {
    predicate Holds(hour: int) {
      start <= hour < end
    }
  }

  const WINDOWS: seq<Range> := [
    Range(EarlyMorning, 4, 8),
    Range(Morning, 8, 12),
    Range(Afternoon, 12, 16),
    Range(Evening, 16, 20),
    Range(Night, 20, 24)
  ]

  /** The window labels of the WINDOWS table. */
  function Labels(): (ls: seq<string>)
    ensures |ls| == |WINDOWS|
  {
    seq(|WINDOWS|, i requires 0 <= i < |WINDOWS| => WINDOWS[i].name.Label())
  }

  /**
   * The `for name, start, end in WINDOWS` search: the name of the first
   * range of `table` that holds `hour`, or None when no range does.
   */
  function FirstMatch(table: seq<Range>, hour: int): (r: Option<Window>)
    ensures r.None? <==> forall i :: 0 <= i < |table| ==> !table[i].Holds(hour)
    ensures r.Some? ==> exists i :: 0 <= i < |table| && table[i].Holds(hour) && table[i].name == r.value
                                    && forall j :: 0 <= j < i ==> !table[j].Holds(hour)
  {
    if table == [] then None
    else if table[0].Holds(hour) then Some(table[0].name)
    else
      var r := FirstMatch(table[1..], hour);
      if r.Some? then
        assert forall i :: 1 <= i < |table| ==> table[i] == table[1..][i - 1];
        r
      else r
  }

  /** `hour_to_window`: total over every integer hour; unmatched hours go to the night window. */
  function HourToWindow(hour: int): (w: Window)
  {
    match FirstMatch(WINDOWS, hour)
    case Some(name) => name
    case None => Night
  }

  /** No hour lies in two ranges of the WINDOWS table. */
  lemma RangesDisjoint(hour: int, i: int, j: int)
    requires 0 <= i < |WINDOWS| && 0 <= j < |WINDOWS|
    requires WINDOWS[i].Holds(hour) && WINDOWS[j].Holds(hour)
    ensures i == j
  {
  }

  /** Every hour is classified as one of the labels of the WINDOWS table. */
  lemma HourToWindowTotal(hour: int)
    ensures HourToWindow(hour).Label() in Labels()
  {
    var w := HourToWindow(hour);
    var k := match w
      case EarlyMorning => 0
      case Morning => 1
      case Afternoon => 2
      case Evening => 3
      case Night => 4;
    assert Labels()[k] == w.Label();
  }

  /** An hour inside a listed range is classified as that range's window. */
  lemma HourToWindowInRange(hour: int, i: int)
    requires 0 <= i < |WINDOWS| && WINDOWS[i].Holds(hour)
    ensures HourToWindow(hour) == WINDOWS[i].name
  {
    var r := FirstMatch(WINDOWS, hour);
    var j :| 0 <= j < |WINDOWS| && WINDOWS[j].Holds(hour) && WINDOWS[j].name == r.value;
    RangesDisjoint(hour, i, j);
  }

  /** An hour outside every listed range (0-3, negative, 24 and above) falls through to night. */
  lemma HourToWindowDefault(hour: int)
    requires forall i :: 0 <= i < |WINDOWS| ==> !WINDOWS[i].Holds(hour)
    ensures HourToWindow(hour) == Night
  {
  }

  /** The classifier as a closed-form table over the hour. */
  lemma HourToWindowClosedForm(hour: int)
    ensures HourToWindow(hour) ==
      if 4 <= hour < 8 then EarlyMorning
      else if 8 <= hour < 12 then Morning
      else if 12 <= hour < 16 then Afternoon
      else if 16 <= hour < 20 then Evening
      else Night
  {
    if 4 <= hour < 8 { HourToWindowInRange(hour, 0); }
    else if 8 <= hour < 12 { HourToWindowInRange(hour, 1); }
    else if 12 <= hour < 16 { HourToWindowInRange(hour, 2); }
    else if 16 <= hour < 20 { HourToWindowInRange(hour, 3); }
    else if 20 <= hour < 24 { HourToWindowInRange(hour, 4); }
  }

  /** Strict lexicographic order on strings, the order in which pandas sorts group keys. */
  predicate LexLess(a: string, b: string) {
    if a == [] then b != []
    else if b == [] then false
    else a[0] < b[0] || (a[0] == b[0] && LexLess(a[1..], b[1..]))
  }

  lemma {:induction false} LexLessIrreflexive(a: string)
    ensures !LexLess(a, a)
  {
    if a != [] { LexLessIrreflexive(a[1..]); }
  }

  lemma {:induction false} LexLessAsymmetric(a: string, b: string)
    requires LexLess(a, b)
    ensures !LexLess(b, a)
  {
    if a != [] && b != [] && a[0] == b[0] { LexLessAsymmetric(a[1..], b[1..]); }
  }

  /** The group keys of `groupby('window')` in sorted order. */
  const SORTED_WINDOWS: seq<Window> := [Afternoon, EarlyMorning, Evening, Morning, Night]

  /** The position of `w` among the sorted group keys. */
  function SortPosition(w: Window): (k: nat)
    ensures k < |SORTED_WINDOWS| && SORTED_WINDOWS[k] == w
    ensures forall i :: 0 <= i < |SORTED_WINDOWS| && SORTED_WINDOWS[i] == w ==> i == k
  {
    match w
    case Afternoon => 0
    case EarlyMorning => 1
    case Evening => 2
    case Morning => 3
    case Night => 4
  }

  lemma AllWindowsSorted()
    ensures forall w: Window :: w in SORTED_WINDOWS
  {
    forall w: Window ensures w in SORTED_WINDOWS {
      assert SORTED_WINDOWS[SortPosition(w)] == w;
    }
  }

  /** The sorted group keys are in strictly increasing lexicographic order of their labels. */
  lemma SortedWindowsOrdered()
    ensures forall i, j :: 0 <= i < j < |SORTED_WINDOWS| ==>
              LexLess(SORTED_WINDOWS[i].Label(), SORTED_WINDOWS[j].Label())
  {
    assert LexLess("afternoon_12_16", "early_morning_04_08");
    assert LexLess("early_morning_04_08", "evening_16_20");
    assert LexLess("evening_16_20", "morning_08_12");
    assert LexLess("morning_08_12", "night_20_24");
    assert LexLess("afternoon_12_16", "evening_16_20");
    assert LexLess("afternoon_12_16", "morning_08_12");
    assert LexLess("afternoon_12_16", "night_20_24");
    assert LexLess("early_morning_04_08", "morning_08_12");
    assert LexLess("early_morning_04_08", "night_20_24");
    assert LexLess("evening_16_20", "night_20_24");
  }

  /** One window sorts before another exactly when its label is lexicographically smaller. */
  lemma SortPositionIsLabelOrder(a: Window, b: Window)
    ensures LexLess(a.Label(), b.Label()) <==> SortPosition(a) < SortPosition(b)
  {
    SortedWindowsOrdered();
    if SortPosition(a) > SortPosition(b) {
      LexLessAsymmetric(b.Label(), a.Label());
    } else if SortPosition(a) == SortPosition(b) {
      LexLessIrreflexive(a.Label());
    }
  }
}
