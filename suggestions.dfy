/**
 * The rule-based suggestion list of `generate_insights`: up to three
 * fixed rules, each appending at most one message, in rule order.
 */
module Suggestions {
  import opened Wrappers
  import opened Windows
  import opened Events

  const STUDY_TIP: string := "Study tasks are often skipped. " + "Try breaking them into smaller chunks."
  const RELAX_TIP: string := "Relaxation is often skipped; " + "consider shorter breaks earlier in the day."

  /** `s.replace(from, to)` for single characters. */
  function ReplaceChar(s: string, from: char, to: char): (r: string)
    ensures |r| == |s|
    ensures forall i :: 0 <= i < |s| ==> r[i] == (if s[i] == from then to else s[i])
  {
    if s == [] then []
    else [if s[0] == from then to else s[0]] + ReplaceChar(s[1..], from, to)
  }

  const FOCUS_PREFIX: string := "You complete more tasks in the "
  const FOCUS_SUFFIX: string := ". Schedule focus work then."

  /** The message naming the best window with its underscores turned into spaces. */
  function FocusTip(w: Window): (msg: string)
    ensures msg != STUDY_TIP && msg != RELAX_TIP
  {
    var msg := FOCUS_PREFIX + ReplaceChar(w.Label(), '_', ' ') + FOCUS_SUFFIX;
    assert msg[0] == 'Y' && STUDY_TIP[0] == 'S' && RELAX_TIP[0] == 'R';
    msg
  }

  lemma CancelAffixes(p: string, x: string, y: string, q: string)
    requires p + x + q == p + y + q
    ensures x == y
  {
    assert |x| == |y|;
    assert x == (p + x + q)[|p|..|p| + |x|];
    assert y == (p + y + q)[|p|..|p| + |y|];
  }

  /** The length and first letter of a label tell the windows apart. */
  lemma LabelKey(a: Window, b: Window)
    requires |a.Label()| == |b.Label()| && a.Label()[0] == b.Label()[0]
    ensures a == b
  {
  }

  /** The best-window message names its window: different windows give different messages. */
  lemma FocusTipInjective(a: Window, b: Window)
    requires FocusTip(a) == FocusTip(b)
    ensures a == b
  {
    var x := ReplaceChar(a.Label(), '_', ' ');
    var y := ReplaceChar(b.Label(), '_', ' ');
    CancelAffixes(FOCUS_PREFIX, x, y, FOCUS_SUFFIX);
    assert x[0] == a.Label()[0] && y[0] == b.Label()[0];
    LabelKey(a, b);
  }

  /** `t in df['task_type'].values`. */
  predicate HasTaskType(rows: seq<Row>, t: string) {
    exists i :: 0 <= i < |rows| && rows[i].taskType == t
  }

  /** `(df.loc[df['task_type'] == t, 'action'] == 'skipped').any()`. */
  predicate AnySkipped(rows: seq<Row>, t: string) {
    exists i :: 0 <= i < |rows| && rows[i].taskType == t && rows[i].action == Skipped
  }

  /** The study and relax rules test `t in values` first, which a skipped event of type `t` already implies. */
  lemma SkippedImpliesPresent(rows: seq<Row>, t: string)
    ensures HasTaskType(rows, t) && AnySkipped(rows, t) <==> AnySkipped(rows, t)
  {
    if AnySkipped(rows, t) {
      var i :| 0 <= i < |rows| && rows[i].taskType == t && rows[i].action == Skipped;
      assert HasTaskType(rows, t);
    }
  }

  /** One rule: whether its condition holds, and the message it appends when it does. */
  datatype Rule = Rule(holds: bool, message: string)

  /**
   * The three rules in evaluation order: a best window exists; some study
   * event was skipped; some relax event was skipped.
   */
  function RuleTable(best: Option<Window>, rows: seq<Row>): seq<Rule> {
    [ Rule(best.Some?, if best.Some? then FocusTip(best.value) else ""),
      Rule(AnySkipped(rows, "study"), STUDY_TIP),
      Rule(AnySkipped(rows, "relax"), RELAX_TIP) ]
  }

  /** The messages of the rules that hold, in rule order. */
  function Fired(rules: seq<Rule>): (msgs: seq<string>)
    ensures |msgs| <= |rules|
    ensures forall m :: m in msgs <==> exists i :: 0 <= i < |rules| && rules[i].holds && rules[i].message == m
  {
    if rules == [] then []
    else
      assert forall i :: 1 <= i < |rules| ==> rules[i] == rules[1..][i - 1];
      (if rules[0].holds then [rules[0].message] else []) + Fired(rules[1..])
  }

  lemma FiredOfThree(a: Rule, b: Rule, c: Rule)
    ensures Fired([a, b, c]) ==
      (if a.holds then [a.message] else []) + (if b.holds then [b.message] else []) + (if c.holds then [c.message] else [])
  {
    assert [a, b, c][1..] == [b, c];
    assert [b, c][1..] == [c];
    assert [c][1..] == [];
    assert Fired([c]) == (if c.holds then [c.message] else []);
    assert Fired([b, c]) == (if b.holds then [b.message] else []) + Fired([c]);
  }

  /**
   * The conditional `suggestions.append` calls. The study and relax rules
   * test that the task type occurs and that one of its events was skipped.
   */
  method BuildSuggestions(best: Option<Window>, rows: seq<Row>) returns (suggestions: seq<string>)
    ensures suggestions == Fired(RuleTable(best, rows))
  {
    suggestions := [];
    if best.Some? {
      suggestions := suggestions + [FocusTip(best.value)];
    }
    if HasTaskType(rows, "study") && AnySkipped(rows, "study") {
      suggestions := suggestions + [STUDY_TIP];
    }
    if HasTaskType(rows, "relax") && AnySkipped(rows, "relax") {
      suggestions := suggestions + [RELAX_TIP];
    }
    SkippedImpliesPresent(rows, "study");
    SkippedImpliesPresent(rows, "relax");
    SuggestionsShape(best, rows);
  }

  /** The suggestion list spelled out: each rule's message, when its condition holds, in rule order. */
  lemma SuggestionsShape(best: Option<Window>, rows: seq<Row>)
    ensures Fired(RuleTable(best, rows)) ==
      (if best.Some? then [FocusTip(best.value)] else [])
      + (if AnySkipped(rows, "study") then [STUDY_TIP] else [])
      + (if AnySkipped(rows, "relax") then [RELAX_TIP] else [])
  {
    var rules := RuleTable(best, rows);
    FiredOfThree(rules[0], rules[1], rules[2]);
  }

  /**
   * At most three suggestions, and the first one names the best window
   * exactly when there is one.
   */
  lemma SuggestionsSpec(best: Option<Window>, rows: seq<Row>)
    ensures |Fired(RuleTable(best, rows))| <= 3
    ensures best.Some? ==> |Fired(RuleTable(best, rows))| > 0 && Fired(RuleTable(best, rows))[0] == FocusTip(best.value)
    ensures best.None? ==> forall w :: FocusTip(w) !in Fired(RuleTable(best, rows))
  {
    SuggestionsShape(best, rows);
  }

  /** The study message appears exactly when some "study" event was skipped. */
  lemma StudyTipIff(best: Option<Window>, rows: seq<Row>)
    ensures STUDY_TIP in Fired(RuleTable(best, rows)) <==> AnySkipped(rows, "study")
  {
    SuggestionsShape(best, rows);
    assert STUDY_TIP != RELAX_TIP;
  }

  /** The relax message appears exactly when some "relax" event was skipped. */
  lemma RelaxTipIff(best: Option<Window>, rows: seq<Row>)
    ensures RELAX_TIP in Fired(RuleTable(best, rows)) <==> AnySkipped(rows, "relax")
  {
    SuggestionsShape(best, rows);
    assert STUDY_TIP != RELAX_TIP;
  }

  /** When both fire, the study message comes before the relax message. */
  lemma StudyBeforeRelax(best: Option<Window>, rows: seq<Row>)
    requires AnySkipped(rows, "study") && AnySkipped(rows, "relax")
    ensures exists i, j :: 0 <= i < j < |Fired(RuleTable(best, rows))| &&
              Fired(RuleTable(best, rows))[i] == STUDY_TIP && Fired(RuleTable(best, rows))[j] == RELAX_TIP
  {
    SuggestionsShape(best, rows);
    var s := Fired(RuleTable(best, rows));
    var k := if best.Some? then 1 else 0;
    assert s[k] == STUDY_TIP && s[k + 1] == RELAX_TIP;
  }

  /** A log without any "study" event never gets the study message. */
  lemma NoStudyNoStudyTip(best: Option<Window>, rows: seq<Row>)
    requires !HasTaskType(rows, "study")
    ensures STUDY_TIP !in Fired(RuleTable(best, rows))
  {
    StudyTipIff(best, rows);
    SkippedImpliesPresent(rows, "study");
  }
}
