/** The script end to end: load the case feed, build and fill the state-by-week
    table, attach codes, total by state and write the year-over-year report. */
module Pipeline {
  import opened Types
  import opened Calendar
  import opened Location
  import opened Joins
  import opened Grid
  import opened Comparison

  /** What the script writes: the case table (the CSV) and the report (the JSON list). */
  datatype Report = Report(table: seq<(MergedRow, Option<StateCode>)>, json: seq<JsonObject>)

  datatype RunError = LoadFailed(load: LoadError) | JsonFailed(json: JsonError)

  /** The script's result for a feed, the day it runs, a state-code table and a
      prior-year table. */
  function DailyMeasles(rows: seq<SourceRow>, today: Day, codes: seq<StateCode>,
                        baseline: seq<BaselineRow>): Result<Report, RunError>
  {
    match LoadRecords(rows)
    case Failure(e) => Failure(LoadFailed(e))
    case Success(records) =>
      var table := CaseTable(records, AllWeeks(Start2025, today), codes);
      match MakeJsonList(Compare(baseline, Summary(Lefts(table))))
      case Failure(e) => Failure(JsonFailed(e))
      case Success(json) => Success(Report(table, json))
  }

  /** Lines 35-43: the grid merged with the records, filled in place, codes attached. */
  method BuildCaseTable(records: seq<CaseRecord>, weeks: seq<Day>, codes: seq<StateCode>)
    returns (table: seq<(MergedRow, Option<StateCode>)>)
    ensures table == CaseTable(records, weeks, codes)
  {
    var merged := Merge(Product(Unique(StateNames(codes)), weeks), records);
    var frame := new MergedRow[|merged|](i requires 0 <= i < |merged| => merged[i]);
    assert frame[..] == merged;
    FillMissing(frame);
    table := AttachCodes(frame[..], codes);
  }

  /** Lines 46-48: the per-state totals of the case table, summed step by step. */
  method SummarizeTable(complete: seq<MergedRow>) returns (summary: seq<SummaryRow>)
    ensures summary == Summary(complete)
  {
    var totals := GroupTotals(complete);
    summary := SummaryFrom(Unique(StatesOf(complete)), totals);
  }

  /** Lines 13-97 in the script's own order, with the fixed tables and the run day
      given; the fill of lines 40-42 and the group sum of line 46 work step by step. */
  method Run(rows: seq<SourceRow>, today: Day) returns (out: Result<Report, RunError>)
    ensures out == DailyMeasles(rows, today, StateCodes, Baseline2024)
  {
    var loaded := LoadRecords(rows);
    if loaded.Failure? {
      return Failure(LoadFailed(loaded.error));
    }
    var table := BuildCaseTable(loaded.value, AllWeeks(Start2025, today), StateCodes);
    var summary := SummarizeTable(Lefts(table));
    var json := MakeJsonList(Compare(Baseline2024, summary));
    if json.Failure? {
      return Failure(JsonFailed(json.error));
    }
    return Success(Report(table, json.value));
  }

  /** Every name of the fixed state-code table is upper case. */
  lemma StateCodesUpper()
    ensures forall s :: s in Unique(StateNames(StateCodes)) ==> NoLower(s)
  {
    assert StateNames(StateCodes) == ["ALABAMA", "ALASKA", "ARIZONA", "NEW YORK CITY"];
  }

  /** With the fixed state-code table, the case table holds the completed grid rows
      one-for-one, and every row's state comes from the code table. */
  lemma TableIsCompleteGrid(records: seq<CaseRecord>, weeks: seq<Day>)
    ensures var states := Unique(StateNames(StateCodes));
      && Lefts(CaseTable(records, weeks, StateCodes)) == CompleteGrid(states, weeks, records)
      && forall r :: r in CompleteGrid(states, weeks, records) ==> NoLower(r.state)
  {
    var states := Unique(StateNames(StateCodes));
    var filled := CompleteGrid(states, weeks, records);
    StateCodesDistinct();
    CodesOneToOne(filled, StateCodes);
    GridBounded(states, weeks, records);
    StateCodesUpper();
  }

  /** Every row of the fixed prior-year table has a count. */
  lemma BaselineCounted()
    ensures forall i :: 0 <= i < |Baseline2024| ==> Baseline2024[i].prior.Some?
  {
  }

  /** With the fixed state-code table, the summary has one row per state name. */
  lemma SummaryDistinct(records: seq<CaseRecord>, weeks: seq<Day>)
    ensures Distinct(SummaryNames(Summary(Lefts(CaseTable(records, weeks, StateCodes)))))
  {
    var complete := Lefts(CaseTable(records, weeks, StateCodes));
    TableIsCompleteGrid(records, weeks);
    forall i | 0 <= i < |complete| ensures NoLower(complete[i].state) {
      assert complete[i] in complete;
    }
    SummaryNamesDistinct(complete);
  }

  /** With the fixed tables, writing the report never raises. */
  lemma ReportNeverRaises(records: seq<CaseRecord>, weeks: seq<Day>)
    ensures MakeJsonList(Compare(Baseline2024, Summary(Lefts(CaseTable(records, weeks, StateCodes))))).Success?
  {
    SummaryDistinct(records, weeks);
    BaselineCounted();
    ReportWritable(Baseline2024, Summary(Lefts(CaseTable(records, weeks, StateCodes))));
  }

  /** With the prior-year table as the script writes it, the placeholder row's missing
      count reaches `int` on line 89: every run raises, whatever the feed holds. */
  lemma PlaceholderAlwaysRaises(rows: seq<SourceRow>, today: Day)
    ensures DailyMeasles(rows, today, StateCodes, Baseline2024AsWritten).Failure?
  {
    if LoadRecords(rows).Success? {
      var records := LoadRecords(rows).value;
      var weeks := AllWeeks(Start2025, today);
      SummaryDistinct(records, weeks);
      PlaceholderUncounted();
      ReportWritable(Baseline2024AsWritten, Summary(Lefts(CaseTable(records, weeks, StateCodes))));
    }
  }

  /** The last row of the as-written prior-year table has no count. */
  lemma PlaceholderUncounted()
    ensures |Baseline2024AsWritten| == 12 && Baseline2024AsWritten[11].prior.None?
  {
  }

  /** With the 11 listed prior-year rows (the "..." line of line 62 removed), a run fails
      exactly when the feed's location labels do not split into two columns: the report
      itself never raises. */
  lemma RunFailsOnlyOnLoad(rows: seq<SourceRow>, today: Day)
    ensures DailyMeasles(rows, today, StateCodes, Baseline2024).Success? <==> SplitsIntoTwoColumns(rows)
  {
    if LoadRecords(rows).Success? {
      ReportNeverRaises(LoadRecords(rows).value, AllWeeks(Start2025, today));
    }
  }

  /** A successful run reports exactly the prior-year table's rows, in its order: the
      JSON object of row i is that of the baseline state with its prior count and the
      current total under its title (0 when no grid state has that title). */
  lemma ReportFollowsBaseline(rows: seq<SourceRow>, today: Day)
    requires DailyMeasles(rows, today, StateCodes, Baseline2024).Success?
    ensures var report := DailyMeasles(rows, today, StateCodes, Baseline2024).value;
      var summary := Summary(Lefts(report.table));
      && |report.json| == |Baseline2024|
      && forall i :: 0 <= i < |Baseline2024| ==>
        var b := Baseline2024[i];
        var current := CurrentFor(summary, Title(b.state));
        MakeJsonObject(ComparisonRow(Title(b.state), b.prior, current,
                                     PercentChange(b.prior, current), ChangeIndicator(b.prior, current)))
          == Success(report.json[i])
  {
    var records := LoadRecords(rows).value;
    var table := CaseTable(records, AllWeeks(Start2025, today), StateCodes);
    SummaryDistinct(records, AllWeeks(Start2025, today));
    CompareKeepsBaseline(Baseline2024, Summary(Lefts(table)));
  }

  /** The grid's states are the code table's four names, in table order. */
  lemma GridStates()
    ensures Unique(StateNames(StateCodes)) == ["ALABAMA", "ALASKA", "ARIZONA", "NEW YORK CITY"]
  {
    StateCodesDistinct();
    UniqueOfDistinct(StateNames(StateCodes));
    assert StateNames(StateCodes) == ["ALABAMA", "ALASKA", "ARIZONA", "NEW YORK CITY"];
  }

  /** The shape of the code table's state names: each starts with a letter, and the
      only one of six letters starts with 'A'. */
  lemma CodeNameShapes()
    ensures forall c :: c in StateNames(StateCodes) ==>
      && 0 < |c| && IsCased(c[0])
      && (|c| == 6 || |c| == 7 || |c| == 13)
      && (|c| == 6 ==> c[0] == 'A')
  {
    assert StateNames(StateCodes) == ["ALABAMA", "ALASKA", "ARIZONA", "NEW YORK CITY"];
  }

  /** A name that differs from each code state's name in length, or in a cased first
      letter, title-cases differently from every code state. */
  lemma UnlistedByShape(name: string)
    requires forall c :: c in StateNames(StateCodes) ==>
      |c| != |name| || (0 < |name| && IsCased(name[0]) && UpperChar(c[0]) != UpperChar(name[0]))
    ensures forall c :: c in StateNames(StateCodes) ==> Title(c) != Title(name)
  {
    CodeNameShapes();
    forall c | c in StateNames(StateCodes)
      ensures Title(c) != Title(name)
    {
      TitleShapeDiffers(c, name);
    }
  }

  /** Every state of the case table is one of the code table's four states. */
  lemma TableStates(records: seq<CaseRecord>, weeks: seq<Day>)
    ensures forall s :: s in StatesOf(Lefts(CaseTable(records, weeks, StateCodes))) ==>
      s in ["ALABAMA", "ALASKA", "ARIZONA", "NEW YORK CITY"]
  {
    var states := Unique(StateNames(StateCodes));
    var complete := Lefts(CaseTable(records, weeks, StateCodes));
    TableIsCompleteGrid(records, weeks);
    GridBounded(states, weeks, records);
    GridStates();
    forall s | s in StatesOf(complete)
      ensures s in states
    {
      var r :| 0 <= r < |complete| && complete[r].state == s;
      assert complete[r] in complete;
    }
  }

  /** The code table of lines 24-27 lists only four states, so the grid holds no other
      state and the merge of line 39 drops every record of any other state: the summary
      total under a name that no code state title-cases to is 0. */
  lemma UnlistedCurrentZero(records: seq<CaseRecord>, weeks: seq<Day>, name: string)
    requires forall c :: c in StateNames(StateCodes) ==> Title(c) != name
    ensures CurrentFor(Summary(Lefts(CaseTable(records, weeks, StateCodes))), name) == 0
  {
    var complete := Lefts(CaseTable(records, weeks, StateCodes));
    TableStates(records, weeks);
    assert StateNames(StateCodes) == ["ALABAMA", "ALASKA", "ARIZONA", "NEW YORK CITY"];
    CurrentForUntitled(complete, name);
  }

  /** Row i of a successful report names the i-th baseline state, title-cased, and
      carries the current total the summary holds under that title, with its indicator. */
  lemma ReportRowAt(baseline: seq<BaselineRow>, summary: seq<SummaryRow>, i: nat, name: string, prior: int)
    requires Distinct(SummaryNames(summary))
    requires i < |baseline| && baseline[i] == BaselineRow(name, Some(prior))
    requires MakeJsonList(Compare(baseline, summary)).Success?
    ensures var json := MakeJsonList(Compare(baseline, summary)).value;
      var current := CurrentFor(summary, Title(name));
      && |json| == |baseline|
      && Get(json[i], "State") == Some(JString(Title(name)))
      && Get(json[i], "2025 Cases") == Some(JInt(current))
      && Get(json[i], "Change Indicator") == Some(JString(Symbol(ChangeIndicator(Some(prior), current).value)))
  {
    CompareKeepsBaseline(baseline, summary);
    JsonOfCounts(Title(name), prior, CurrentFor(summary, Title(name)));
  }

  /** The prior-year states that the code table does not list. */
  const UnlistedStates: set<string> :=
    {"California", "Illinois", "Minnesota", "New York", "Oregon", "Texas", "Washington"}

  /** The unlisted prior-year states all had cases in 2024. Each name has a length no
      code state's name has, or has length 6 and does not start with A. */
  lemma UnlistedRowsShape()
    ensures forall i :: 0 <= i < |Baseline2024| && Baseline2024[i].state in UnlistedStates ==>
      var name := Baseline2024[i].state;
      && Baseline2024[i].prior.Some? && Baseline2024[i].prior.value > 0
      && 0 < |name| && IsCased(name[0])
      && ((|name| != 6 && |name| != 7 && |name| != 13) || (|name| == 6 && UpperChar(name[0]) != 'A'))
  {
  }

  /** With the 11 listed prior-year rows (the "..." line of line 62 removed), one
      unlisted prior-year row is reported with 0 current-year cases and a falling
      indicator. */
  lemma UnlistedRowZero(records: seq<CaseRecord>, weeks: seq<Day>, i: nat)
    requires i < |Baseline2024| && Baseline2024[i].state in UnlistedStates
    ensures var json := MakeJsonList(Compare(Baseline2024, Summary(Lefts(CaseTable(records, weeks, StateCodes)))));
      && json.Success?
      && |json.value| == |Baseline2024|
      && Get(json.value[i], "2025 Cases") == Some(JInt(0))
      && Get(json.value[i], "Change Indicator") == Some(JString(Symbol(Down)))
  {
    var summary := Summary(Lefts(CaseTable(records, weeks, StateCodes)));
    var b := Baseline2024[i];
    UnlistedRowsShape();
    CodeNameShapes();
    UnlistedByShape(b.state);
    UnlistedCurrentZero(records, weeks, Title(b.state));
    ReportNeverRaises(records, weeks);
    SummaryDistinct(records, weeks);
    ReportRowAt(Baseline2024, summary, i, b.state, b.prior.value);
  }

  /** With the 11 listed prior-year rows (the "..." line of line 62 removed), every
      prior-year state missing from the code table (California, Illinois, Minnesota,
      New York, Oregon, Texas and Washington) is reported with 0 current-year cases and
      a falling indicator, whatever the feed holds. */
  lemma UnlistedStatesReportZero(records: seq<CaseRecord>, weeks: seq<Day>)
    ensures var json := MakeJsonList(Compare(Baseline2024, Summary(Lefts(CaseTable(records, weeks, StateCodes)))));
      && json.Success?
      && |json.value| == |Baseline2024|
      && forall i :: 0 <= i < |Baseline2024| && Baseline2024[i].state in UnlistedStates ==>
        && Get(json.value[i], "2025 Cases") == Some(JInt(0))
        && Get(json.value[i], "Change Indicator") == Some(JString(Symbol(Down)))
  {
    ReportNeverRaises(records, weeks);
    SummaryDistinct(records, weeks);
    CompareKeepsBaseline(Baseline2024, Summary(Lefts(CaseTable(records, weeks, StateCodes))));
    var json := MakeJsonList(Compare(Baseline2024, Summary(Lefts(CaseTable(records, weeks, StateCodes))))).value;
    forall i | 0 <= i < |Baseline2024| && Baseline2024[i].state in UnlistedStates
      ensures Get(json[i], "2025 Cases") == Some(JInt(0))
      ensures Get(json[i], "Change Indicator") == Some(JString(Symbol(Down)))
    {
      UnlistedRowZero(records, weeks, i);
    }
  }

  /** With the 11 listed prior-year rows (the "..." line of line 62 removed), New York
      City is not folded into another state: a prior-year row whose name title-cases
      like a code state's reports exactly that state's own total. */
  lemma ListedStateTotal(records: seq<CaseRecord>, weeks: seq<Day>, i: nat, c: string)
    requires i < |Baseline2024| && c in StateNames(StateCodes)
    requires Title(Baseline2024[i].state) == Title(c)
    ensures var complete := Lefts(CaseTable(records, weeks, StateCodes));
      var json := MakeJsonList(Compare(Baseline2024, Summary(complete)));
      && json.Success?
      && |json.value| == |Baseline2024|
      && Get(json.value[i], "2025 Cases") == Some(JInt(StateTotal(complete, c)))
  {
    var complete := Lefts(CaseTable(records, weeks, StateCodes));
    ReportNeverRaises(records, weeks);
    SummaryDistinct(records, weeks);
    BaselineCounted();
    StateCodesUpper();
    GridStates();
    TableStates(records, weeks);
    TableIsCompleteGrid(records, weeks);
    forall k | 0 <= k < |complete| ensures NoLower(complete[k].state) {
      assert complete[k] in complete;
    }
    if c in StatesOf(complete) {
      SummaryLookup(complete, c);
    } else {
      StateTotalAbsent(complete, c);
      forall s | s in StatesOf(complete)
        ensures Title(s) != Title(c)
      {
        TitleInjective(s, c);
      }
      CurrentForUntitled(complete, Title(c));
    }
    var b := Baseline2024[i];
    ReportRowAt(Baseline2024, Summary(complete), i, b.state, b.prior.value);
  }
}
