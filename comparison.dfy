/** The year-over-year report: per-state current-year totals, their left join from
    the prior-year baseline, percent change, trend indicator, and the sparse JSON
    object of each report row. */
module Comparison {
  import opened Types
  import opened Location
  import opened Joins
  import opened Grid

  predicate IsLower(c: char) { 'a' <= c <= 'z' }
  predicate IsCased(c: char) { 'a' <= c <= 'z' || 'A' <= c <= 'Z' }

  function LowerChar(c: char): char {
    if 'A' <= c <= 'Z' then (c as int + 32) as char else c
  }

  /** One character of `str.title`: a letter is upper-cased at the start of a word
      and lower-cased after another letter; anything else is kept. */
  function TitleChar(c: char, afterCased: bool): char {
    if IsCased(c) then (if afterCased then LowerChar(c) else UpperChar(c)) else c
  }

  function TitleFrom(s: string, afterCased: bool): (t: string)
    ensures |t| == |s|
    decreases |s|
  {
    if s == [] then [] else [TitleChar(s[0], afterCased)] + TitleFrom(s[1..], IsCased(s[0]))
  }

  /** `str.title` (ASCII), the normalisation both sides of the report join go through. */
  function Title(s: string): string {
    TitleFrom(s, false)
  }

  predicate NoLower(s: string) {
    forall i :: 0 <= i < |s| ==> !IsLower(s[i])
  }

  lemma TitleCharInjective(c: char, d: char, a: bool, b: bool)
    requires !IsLower(c) && !IsLower(d)
    requires TitleChar(c, a) == TitleChar(d, b)
    ensures c == d
  {
  }

  lemma {:induction false} TitleFromInjective(s: string, t: string, a: bool, b: bool)
    requires NoLower(s) && NoLower(t)
    requires TitleFrom(s, a) == TitleFrom(t, b)
    ensures s == t
    decreases |s|
  {
    if s != [] {
      assert TitleFrom(s, a)[0] == TitleFrom(t, b)[0];
      TitleCharInjective(s[0], t[0], a, b);
      assert TitleFrom(s, a)[1..] == TitleFrom(t, b)[1..];
      TitleFromInjective(s[1..], t[1..], IsCased(s[0]), IsCased(t[0]));
      assert s == [s[0]] + s[1..] && t == [t[0]] + t[1..];
    }
  }

  /** Title-casing cannot merge two distinct upper-case state names into one report key. */
  lemma TitleInjective(s: string, t: string)
    requires NoLower(s) && NoLower(t)
    ensures Title(s) == Title(t) <==> s == t
  {
    if Title(s) == Title(t) {
      TitleFromInjective(s, t, false, false);
    }
  }

  /** Character k of a title-cased string depends only on character k and whether the
      one before it is a letter. */
  lemma {:induction false} TitleFromAt(s: string, a: bool, k: nat)
    requires k < |s|
    ensures TitleFrom(s, a)[k] == TitleChar(s[k], if k == 0 then a else IsCased(s[k - 1]))
    decreases k
  {
    if k > 0 {
      TitleFromAt(s[1..], IsCased(s[0]), k - 1);
    }
  }

  /** Names of different lengths, or starting with different letters, title-case to
      different names. */
  lemma TitleShapeDiffers(s: string, t: string)
    requires |s| != |t| ||
      (|s| > 0 && |t| > 0 && IsCased(s[0]) && IsCased(t[0]) && UpperChar(s[0]) != UpperChar(t[0]))
    ensures Title(s) != Title(t)
  {
    if |s| == |t| {
      TitleFromAt(s, false, 0);
      TitleFromAt(t, false, 0);
    }
  }

  /** The cases a row adds to a group sum; pandas' `sum` skips a missing cell. */
  function Cases(row: MergedRow): int {
    row.cases.GetOr(0)
  }

  function StatesOf(rows: seq<MergedRow>): (ss: seq<string>)
    ensures |ss| == |rows|
    ensures forall i :: 0 <= i < |rows| ==> ss[i] == rows[i].state
  {
    seq(|rows|, i requires 0 <= i < |rows| => rows[i].state)
  }

  /** The sum of cases over all rows of state `s`. */
  function StateTotal(rows: seq<MergedRow>, s: string): int
    decreases |rows|
  {
    if rows == [] then 0
    else StateTotal(rows[..|rows| - 1], s) + (if rows[|rows| - 1].state == s then Cases(rows[|rows| - 1]) else 0)
  }

  /** The sum of cases over all rows. */
  function SumCases(rows: seq<MergedRow>): int
    decreases |rows|
  {
    if rows == [] then 0 else SumCases(rows[..|rows| - 1]) + Cases(rows[|rows| - 1])
  }

  lemma {:induction false} StateTotalAbsent(rows: seq<MergedRow>, s: string)
    requires s !in StatesOf(rows)
    ensures StateTotal(rows, s) == 0
    decreases |rows|
  {
    if rows != [] {
      assert StatesOf(rows[..|rows| - 1]) == StatesOf(rows)[..|rows| - 1];
      StateTotalAbsent(rows[..|rows| - 1], s);
    }
  }

  /** Line 46: `groupby('state')['cases'].sum()`, one pass over the table. */
  method GroupTotals(rows: seq<MergedRow>) returns (totals: map<string, int>)
    ensures forall s :: s in totals <==> s in StatesOf(rows)
    ensures forall s :: s in totals ==> totals[s] == StateTotal(rows, s)
  {
    totals := map[];
    var i := 0;
    while i < |rows|
      invariant 0 <= i <= |rows|
      invariant forall s :: s in totals <==> s in StatesOf(rows[..i])
      invariant forall s :: s in totals ==> totals[s] == StateTotal(rows[..i], s)
    {
      var s := rows[i].state;
      if s !in totals {
        StateTotalAbsent(rows[..i], s);
      }
      var sum := if s in totals then totals[s] else 0;
      totals := totals[s := sum + Cases(rows[i])];
      assert rows[..i + 1][..i] == rows[..i];
      assert StatesOf(rows[..i + 1]) == StatesOf(rows[..i]) + [s];
      i := i + 1;
    }
    assert rows[..i] == rows;
  }

  /** The sum of the totals of the states `ks`. */
  function SumTotals(rows: seq<MergedRow>, ks: seq<string>): int
    decreases |ks|
  {
    if ks == [] then 0 else SumTotals(rows, ks[..|ks| - 1]) + StateTotal(rows, ks[|ks| - 1])
  }

  lemma {:induction false} SumTotalsStep(rows: seq<MergedRow>, r: MergedRow, ks: seq<string>)
    requires Distinct(ks)
    ensures SumTotals(rows + [r], ks) == SumTotals(rows, ks) + (if r.state in ks then Cases(r) else 0)
    decreases |ks|
  {
    assert (rows + [r])[..|rows|] == rows;
    if ks != [] {
      var init := ks[..|ks| - 1];
      SumTotalsStep(rows, r, init);
      assert r.state in ks <==> r.state in init || r.state == ks[|ks| - 1];
      assert ks[|ks| - 1] !in init;
    }
  }

  lemma {:induction false} SumTotalsAbsent(rows: seq<MergedRow>, ks: seq<string>, x: string)
    requires x !in ks
    ensures SumTotals(rows, ks + [x]) == SumTotals(rows, ks) + StateTotal(rows, x)
  {
    assert (ks + [x])[..|ks|] == ks;
  }

  /** The per-state totals account for every case in the table exactly once. */
  lemma {:induction false} TotalsAddUp(rows: seq<MergedRow>)
    ensures SumTotals(rows, Unique(StatesOf(rows))) == SumCases(rows)
    decreases |rows|
  {
    if rows != [] {
      var init, r := rows[..|rows| - 1], rows[|rows| - 1];
      assert rows == init + [r];
      assert StatesOf(rows)[..|rows| - 1] == StatesOf(init);
      TotalsAddUp(init);
      var u := Unique(StatesOf(init));
      SumTotalsStep(init, r, u);
      if r.state !in u {
        SumTotalsAbsent(rows, u, r.state);
        StateTotalAbsent(init, r.state);
      }
    }
  }

  /** A row of the current-year summary: the title-cased state and its total. */
  datatype SummaryRow = SummaryRow(state: string, current: int)

  /** Lines 46-48 with the totals given as the grouped map: one row per state. */
  function SummaryFrom(ks: seq<string>, totals: map<string, int>): seq<SummaryRow>
    requires forall i :: 0 <= i < |ks| ==> ks[i] in totals
  {
    seq(|ks|, i requires 0 <= i < |ks| => SummaryRow(Title(ks[i]), totals[ks[i]]))
  }

  function SummaryNames(summary: seq<SummaryRow>): (names: seq<string>)
    ensures |names| == |summary|
    ensures forall i :: 0 <= i < |summary| ==> names[i] == summary[i].state
  {
    seq(|summary|, i requires 0 <= i < |summary| => summary[i].state)
  }

  /** Lines 46-48: the current-year summary of a table, one row per state, in order
      of first appearance. */
  function Summary(rows: seq<MergedRow>): seq<SummaryRow> {
    var ks := Unique(StatesOf(rows));
    seq(|ks|, i requires 0 <= i < |ks| => SummaryRow(Title(ks[i]), StateTotal(rows, ks[i])))
  }

  /** The current-year count the report gives a title-cased name: the total of the
      summary row with that name, 0 when there is none. */
  function CurrentFor(summary: seq<SummaryRow>, name: string): int
    decreases |summary|
  {
    if summary == [] then 0
    else if summary[0].state == name then summary[0].current
    else CurrentFor(summary[1..], name)
  }

  /** When the table's states have no lower-case letters, the summary names each state once. */
  lemma SummaryNamesDistinct(rows: seq<MergedRow>)
    requires forall i :: 0 <= i < |rows| ==> NoLower(rows[i].state)
    ensures Distinct(SummaryNames(Summary(rows)))
  {
    var ks := Unique(StatesOf(rows));
    var summary := Summary(rows);
    forall i, j | 0 <= i < j < |ks|
      ensures SummaryNames(summary)[i] != SummaryNames(summary)[j]
    {
      StateHasNoLower(rows, ks[i]);
      StateHasNoLower(rows, ks[j]);
      TitleInjective(ks[i], ks[j]);
    }
  }

  /** ... and the count the summary gives a state's title is that state's total. */
  lemma SummaryLookup(rows: seq<MergedRow>, s: string)
    requires forall i :: 0 <= i < |rows| ==> NoLower(rows[i].state)
    requires s in StatesOf(rows)
    ensures CurrentFor(Summary(rows), Title(s)) == StateTotal(rows, s)
  {
    var ks := Unique(StatesOf(rows));
    SummaryNamesDistinct(rows);
    var j :| 0 <= j < |ks| && ks[j] == s;
    CurrentForAt(Summary(rows), j);
  }

  lemma StateHasNoLower(rows: seq<MergedRow>, s: string)
    requires forall i :: 0 <= i < |rows| ==> NoLower(rows[i].state)
    requires s in StatesOf(rows)
    ensures NoLower(s)
  {
    var i :| 0 <= i < |rows| && StatesOf(rows)[i] == s;
  }

  lemma {:induction false} CurrentForAt(summary: seq<SummaryRow>, j: nat)
    requires j < |summary|
    requires Distinct(SummaryNames(summary))
    ensures CurrentFor(summary, summary[j].state) == summary[j].current
    decreases j
  {
    if j > 0 {
      assert SummaryNames(summary)[0] != SummaryNames(summary)[j];
      assert SummaryNames(summary[1..]) == SummaryNames(summary)[1..];
      CurrentForAt(summary[1..], j - 1);
    }
  }

  /** A row of the prior-year table: a state name and its count, missing for a row
      whose count column could not be read. */
  datatype BaselineRow = BaselineRow(state: string, prior: Option<int>)

  /** The prior-year table of lines 51-62, without the "..." placeholder line. */
  const Baseline2024: seq<BaselineRow> := [
    BaselineRow("Alabama", Some(0)), BaselineRow("Alaska", Some(0)),
    BaselineRow("Arizona", Some(5)), BaselineRow("California", Some(15)),
    BaselineRow("Illinois", Some(67)), BaselineRow("Minnesota", Some(70)),
    BaselineRow("New York", Some(1)), BaselineRow("New York City", Some(14)),
    BaselineRow("Oregon", Some(31)), BaselineRow("Texas", Some(1)),
    BaselineRow("Washington", Some(6))
  ]

  /** The prior-year table as lines 51-62 read it: the trailing "..." line becomes a
      row whose count is missing. */
  const Baseline2024AsWritten: seq<BaselineRow> := Baseline2024 + [BaselineRow("...", None)]

  datatype Indicator = Up | Down | Flat

  /** The character each indicator is written as. */
  function Symbol(ind: Indicator): string {
    match ind
    case Up => "\U{25B2}"
    case Down => "\U{25BC}"
    case Flat => "\U{279D}"
  }

  /** Lines 70-73: the percent change from the prior year, undefined when the prior
      count is 0 (and when it is missing, since NaN arithmetic stays NaN). */
  function PercentChange(prior: Option<int>, current: int): (pct: Option<real>)
    ensures pct.None? <==> prior.None? || prior == Some(0)
    ensures pct.Some? ==> pct.value * prior.value as real == (current - prior.value) as real * 100.0
  {
    match prior
    case None => None
    case Some(p) =>
      if p == 0 then None
      else
        var x := (current - p) as real / p as real * 100.0;
        assert x * p as real == (current - p) as real * 100.0;
        Some(x)
  }

  /** Lines 75-82: the trend indicator, missing only when the prior count is missing. */
  function ChangeIndicator(prior: Option<int>, current: int): (ind: Option<Indicator>)
    ensures ind.None? <==> prior.None?
    ensures ind == Some(Up) <==> prior.Some? && current > prior.value
    ensures ind == Some(Down) <==> prior.Some? && current < prior.value
    ensures ind == Some(Flat) <==> prior.Some? && current == prior.value
  {
    if prior.None? then None
    else if current > prior.value then Some(Up)
    else if current < prior.value then Some(Down)
    else Some(Flat)
  }

  /** For a positive prior count, the sign of the percent change is the trend. */
  lemma PercentAgreesWithIndicator(p: int, current: int)
    requires p > 0
    ensures var pct := PercentChange(Some(p), current).value;
      && (pct > 0.0 <==> ChangeIndicator(Some(p), current) == Some(Up))
      && (pct < 0.0 <==> ChangeIndicator(Some(p), current) == Some(Down))
      && (pct == 0.0 <==> ChangeIndicator(Some(p), current) == Some(Flat))
  {
    var pct := PercentChange(Some(p), current).value;
    var d := (current - p) as real * 100.0;
    assert pct * p as real == d;
    if pct > 0.0 { assert pct * p as real > 0.0; }
    if pct < 0.0 { assert pct * p as real < 0.0; }
    if pct == 0.0 { assert pct * p as real == 0.0; }
  }

  /** One row of the report table. */
  datatype ComparisonRow = ComparisonRow(state: string, prior: Option<int>, current: int,
                                         percentChange: Option<real>, indicator: Option<Indicator>)

  /** Line 68's condition: same title-cased state name. */
  predicate SameName(b: BaselineRow, s: SummaryRow) {
    b.state == s.state
  }

  /** Line 65: the baseline's names title-cased. */
  function TitleBaseline(baseline: seq<BaselineRow>): (t: seq<BaselineRow>)
    ensures |t| == |baseline|
    ensures forall i :: 0 <= i < |baseline| ==> t[i] == baseline[i].(state := Title(baseline[i].state))
  {
    seq(|baseline|, i requires 0 <= i < |baseline| => baseline[i].(state := Title(baseline[i].state)))
  }

  /** Lines 69-84 on one joined row: a missing current count becomes 0, then the
      percent change and the indicator are added. */
  function Derive(p: (BaselineRow, Option<SummaryRow>)): ComparisonRow {
    var current := match p.1 case Some(s) => s.current case None => 0;
    ComparisonRow(p.0.state, p.0.prior, current, PercentChange(p.0.prior, current),
                  ChangeIndicator(p.0.prior, current))
  }

  /** Lines 65-84: the report table. */
  function Compare(baseline: seq<BaselineRow>, summary: seq<SummaryRow>): seq<ComparisonRow> {
    var ps := LeftJoin(TitleBaseline(baseline), summary, SameName);
    seq(|ps|, i requires 0 <= i < |ps| => Derive(ps[i]))
  }

  lemma {:induction false} MatchesByName(b: BaselineRow, summary: seq<SummaryRow>)
    requires Distinct(SummaryNames(summary))
    ensures |Matches(b, summary, SameName)| <= 1
    ensures FirstMatch(b, summary, SameName) ==
      if b.state in SummaryNames(summary) then Some(SummaryRow(b.state, CurrentFor(summary, b.state))) else None
    decreases |summary|
  {
    if summary != [] {
      assert SummaryNames(summary[1..]) == SummaryNames(summary)[1..];
      MatchesByName(b, summary[1..]);
      if SameName(b, summary[0]) {
        forall k | 0 <= k < |summary| - 1
          ensures SummaryNames(summary[1..])[k] != summary[0].state
        {
          assert SummaryNames(summary)[k + 1] != SummaryNames(summary)[0];
        }
        assert Matches(b, summary[1..], SameName) == [];
      }
      assert b.state in SummaryNames(summary) <==>
        b.state == summary[0].state || b.state in SummaryNames(summary[1..]);
    }
  }

  /** With one summary row per name, the report has exactly the baseline's rows, in
      baseline order: each with its title-cased name, its prior count, the current
      total under that name or 0, and the derived fields of those two counts. */
  lemma CompareKeepsBaseline(baseline: seq<BaselineRow>, summary: seq<SummaryRow>)
    requires Distinct(SummaryNames(summary))
    ensures |Compare(baseline, summary)| == |baseline|
    ensures forall i :: 0 <= i < |baseline| ==>
      var row := Compare(baseline, summary)[i];
      && row.state == Title(baseline[i].state)
      && row.prior == baseline[i].prior
      && row.current == CurrentFor(summary, Title(baseline[i].state))
      && row.percentChange == PercentChange(row.prior, row.current)
      && row.indicator == ChangeIndicator(row.prior, row.current)
  {
    var titled := TitleBaseline(baseline);
    forall i | 0 <= i < |titled|
      ensures |Matches(titled[i], summary, SameName)| <= 1
    {
      MatchesByName(titled[i], summary);
    }
    LeftJoinAtMostOne(titled, summary, SameName);
    forall i | 0 <= i < |baseline|
      ensures Compare(baseline, summary)[i].current == CurrentFor(summary, Title(baseline[i].state))
    {
      MatchesByName(titled[i], summary);
      if titled[i].state !in SummaryNames(summary) {
        CurrentForAbsent(summary, titled[i].state);
      }
    }
  }

  /** A name that is no state's title gets the current-year count 0. */
  lemma CurrentForUntitled(rows: seq<MergedRow>, name: string)
    requires forall s :: s in StatesOf(rows) ==> Title(s) != name
    ensures CurrentFor(Summary(rows), name) == 0
  {
    var ks := Unique(StatesOf(rows));
    var summary := Summary(rows);
    forall k | 0 <= k < |summary|
      ensures SummaryNames(summary)[k] != name
    {
      assert summary[k].state == Title(ks[k]) && ks[k] in StatesOf(rows);
    }
    CurrentForAbsent(summary, name);
  }

  /** A report writes without raising exactly when every baseline row has a count. */
  lemma ReportWritable(baseline: seq<BaselineRow>, summary: seq<SummaryRow>)
    requires Distinct(SummaryNames(summary))
    ensures MakeJsonList(Compare(baseline, summary)).Success? <==>
      forall i :: 0 <= i < |baseline| ==> baseline[i].prior.Some?
  {
    CompareKeepsBaseline(baseline, summary);
  }

  lemma {:induction false} CurrentForAbsent(summary: seq<SummaryRow>, name: string)
    requires name !in SummaryNames(summary)
    ensures CurrentFor(summary, name) == 0
    decreases |summary|
  {
    if summary != [] {
      assert SummaryNames(summary[1..]) == SummaryNames(summary)[1..];
      CurrentForAbsent(summary[1..], name);
    }
  }

  /** A JSON value as `json.dump` writes it. */
  datatype JsonValue = JString(s: string) | JInt(n: int) | JNumber(x: real) | JNaN

  /** A JSON object: its keys in insertion order, each with its value. */
  type JsonObject = seq<(string, JsonValue)>

  /** `int(NaN)` raises ValueError. */
  datatype JsonError = NotAnInteger

  function Keys(obj: JsonObject): (keys: seq<string>)
    ensures |keys| == |obj|
    ensures forall i :: 0 <= i < |obj| ==> keys[i] == obj[i].0
  {
    seq(|obj|, i requires 0 <= i < |obj| => obj[i].0)
  }

  function Get(obj: JsonObject, key: string): Option<JsonValue>
    decreases |obj|
  {
    if obj == [] then None
    else if obj[0].0 == key then Some(obj[0].1)
    else Get(obj[1..], key)
  }

  lemma {:induction false} GetAt(obj: JsonObject, k: nat)
    requires k < |obj| && Distinct(Keys(obj))
    ensures Get(obj, obj[k].0) == Some(obj[k].1)
    decreases k
  {
    if k > 0 {
      assert Keys(obj)[0] != Keys(obj)[k];
      assert Keys(obj[1..]) == Keys(obj)[1..];
      GetAt(obj[1..], k - 1);
    }
  }

  /** Lines 86-95: the sparse JSON object of one report row. */
  function MakeJsonObject(row: ComparisonRow): Result<JsonObject, JsonError> {
    match row.prior
    case None => Failure(NotAnInteger)
    case Some(prior) =>
      var base := [
        ("State", JString(row.state)),
        ("2024 Cases", JInt(prior)),
        ("2025 Cases", JInt(row.current)),
        ("Change Indicator", match row.indicator case Some(i) => JString(Symbol(i)) case None => JNaN)
      ];
      match row.percentChange
      case Some(pct) => Success(base + [("Percent Change", JNumber(pct))])
      case None => Success(base)
  }

  /** The JSON object of a baseline row with prior count `prior` and current count
      `current` always has the state, both counts and the indicator; it has
      "Percent Change" exactly when the prior count is not 0, holding the change. */
  lemma JsonOfCounts(state: string, prior: int, current: int)
    ensures var row := ComparisonRow(state, Some(prior), current,
                                     PercentChange(Some(prior), current), ChangeIndicator(Some(prior), current));
      var obj := MakeJsonObject(row);
      && obj.Success?
      && Get(obj.value, "State") == Some(JString(state))
      && Get(obj.value, "2024 Cases") == Some(JInt(prior))
      && Get(obj.value, "2025 Cases") == Some(JInt(current))
      && Get(obj.value, "Change Indicator") == Some(JString(Symbol(ChangeIndicator(Some(prior), current).value)))
      && ("Percent Change" in Keys(obj.value) <==> prior != 0)
      && (prior != 0 ==> exists x :: Get(obj.value, "Percent Change") == Some(JNumber(x)) &&
                                     x * prior as real == (current - prior) as real * 100.0)
  {
    var pct := PercentChange(Some(prior), current);
    var row := ComparisonRow(state, Some(prior), current, pct, ChangeIndicator(Some(prior), current));
    var obj := MakeJsonObject(row).value;
    assert Distinct(Keys(obj));
    GetAt(obj, 0);
    GetAt(obj, 1);
    GetAt(obj, 2);
    GetAt(obj, 3);
    if prior != 0 {
      GetAt(obj, 4);
      assert Get(obj, "Percent Change") == Some(JNumber(pct.value));
      assert Keys(obj)[4] == "Percent Change";
    } else {
      assert Keys(obj) == ["State", "2024 Cases", "2025 Cases", "Change Indicator"];
    }
  }

  /** Line 97: the JSON list of the report; the first row whose prior count is
      missing raises. */
  function MakeJsonList(rows: seq<ComparisonRow>): (r: Result<seq<JsonObject>, JsonError>)
    ensures r.Success? <==> forall i :: 0 <= i < |rows| ==> rows[i].prior.Some?
    ensures r.Success? ==> |r.value| == |rows|
    ensures r.Success? ==> forall i :: 0 <= i < |rows| ==> MakeJsonObject(rows[i]) == Success(r.value[i])
    decreases |rows|
  {
    if rows == [] then Success([])
    else
      match MakeJsonObject(rows[0])
      case Failure(e) => Failure(e)
      case Success(obj) =>
        match MakeJsonList(rows[1..])
        case Failure(e) => Failure(e)
        case Success(objs) =>
          assert forall i :: 1 <= i < |rows| ==> rows[i] == rows[1..][i - 1];
          Success([obj] + objs)
  }
}
