/** The dense state-by-week case table: every (state, MMWR week) key of the grid,
    left-merged with the case records, gaps filled with defaults, then given the
    state's postal code. */
module Grid {
  import opened Types
  import opened Calendar
  import opened Location
  import opened Joins

  /** One row of the state-code table. */
  datatype StateCode = StateCode(state: string, code: string)

  /** The state-code table of lines 24-27. New York City is an entry of its own and
      shares New York's code. */
  const StateCodes: seq<StateCode> := [
    StateCode("ALABAMA", "AL"), StateCode("ALASKA", "AK"),
    StateCode("ARIZONA", "AZ"), StateCode("NEW YORK CITY", "NY")
  ]

  function StateNames(codes: seq<StateCode>): (names: seq<string>)
    ensures |names| == |codes|
    ensures forall i :: 0 <= i < |codes| ==> names[i] == codes[i].state
  {
    seq(|codes|, i requires 0 <= i < |codes| => codes[i].state)
  }

  /** `Series.unique()`: each value once, in order of first appearance. */
  function Unique<T(==,!new)>(s: seq<T>): (u: seq<T>)
    ensures forall x :: x in u <==> x in s
    ensures Distinct(u)
    decreases |s|
  {
    if s == [] then []
    else
      var u := Unique(s[..|s| - 1]);
      assert s == s[..|s| - 1] + [s[|s| - 1]];
      if s[|s| - 1] in u then u else u + [s[|s| - 1]]
  }

  /** The position of the first occurrence of `x` in `s`. */
  function FirstIndex<T(==)>(s: seq<T>, x: T): (k: nat)
    requires x in s
    ensures k < |s| && s[k] == x && x !in s[..k]
    decreases |s|
  {
    if s[0] == x then 0
    else
      var k := FirstIndex(s[1..], x);
      assert s[..k + 1] == [s[0]] + s[1..][..k];
      k + 1
  }

  /** Appending a value does not move the first occurrence of one already present. */
  lemma {:induction false} FirstIndexAppend<T>(p: seq<T>, x: T, y: T)
    requires y in p
    ensures FirstIndex(p + [x], y) == FirstIndex(p, y)
    decreases |p|
  {
    if p[0] != y {
      assert (p + [x])[1..] == p[1..] + [x];
      FirstIndexAppend(p[1..], x, y);
    }
  }

  /** `unique()` lists the values in order of their first appearance. */
  lemma {:induction false} UniqueOrder<T(!new)>(s: seq<T>)
    ensures forall i, j :: 0 <= i < j < |Unique(s)| ==>
      FirstIndex(s, Unique(s)[i]) < FirstIndex(s, Unique(s)[j])
    decreases |s|
  {
    if s != [] {
      var p := s[..|s| - 1];
      var x := s[|s| - 1];
      assert s == p + [x];
      UniqueOrder(p);
      var u := Unique(p);
      forall y | y in p
        ensures FirstIndex(s, y) == FirstIndex(p, y)
      {
        FirstIndexAppend(p, x, y);
      }
      if x !in u {
        assert x !in p;
        assert FirstIndex(s, x) == |p|;
        assert Unique(s) == u + [x];
      }
    }
  }

  /** On a list without repeats, `unique()` changes nothing. */
  lemma {:induction false} UniqueOfDistinct<T(!new)>(s: seq<T>)
    requires Distinct(s)
    ensures Unique(s) == s
    decreases |s|
  {
    if s != [] {
      var p := s[..|s| - 1];
      assert s == p + [s[|s| - 1]];
      UniqueOfDistinct(p);
      assert s[|s| - 1] !in p;
    }
  }

  /** A grid key: a state and an MMWR week start. */
  datatype Key = Key(state: string, weekStart: Day)

  /** `MultiIndex.from_product([states, weeks])`: all weeks of the first state, then
      all weeks of the next, and so on. */
  function Product(states: seq<string>, weeks: seq<Day>): seq<Key>
    decreases |states|
  {
    if states == [] then []
    else seq(|weeks|, j requires 0 <= j < |weeks| => Key(states[0], weeks[j])) + Product(states[1..], weeks)
  }

  /** The product has |states| * |weeks| keys. */
  lemma {:induction false} ProductLength(states: seq<string>, weeks: seq<Day>)
    ensures |Product(states, weeks)| == |states| * |weeks|
    decreases |states|
  {
    if states != [] {
      ProductLength(states[1..], weeks);
      assert |states| * |weeks| == |weeks| + |states[1..]| * |weeks|;
    }
  }

  /** The product holds every state-week pair and nothing else. */
  lemma {:induction false} ProductMembers(states: seq<string>, weeks: seq<Day>)
    ensures forall k :: k in Product(states, weeks) <==> k.state in states && k.weekStart in weeks
    decreases |states|
  {
    if states != [] {
      var block := seq(|weeks|, j requires 0 <= j < |weeks| => Key(states[0], weeks[j]));
      var rest := Product(states[1..], weeks);
      ProductMembers(states[1..], weeks);
      assert Product(states, weeks) == block + rest;
      forall k: Key | k.state in states && k.weekStart in weeks
        ensures k in block + rest
      {
        if k.state == states[0] {
          var j :| 0 <= j < |weeks| && weeks[j] == k.weekStart;
          assert block[j] == k;
        } else {
          assert k.state in states[1..];
        }
      }
    }
  }

  /** The product holds each key once when neither list repeats a value. */
  lemma {:induction false} ProductDistinct(states: seq<string>, weeks: seq<Day>)
    requires Distinct(states) && Distinct(weeks)
    ensures Distinct(Product(states, weeks))
    decreases |states|
  {
    if states != [] {
      var block := seq(|weeks|, j requires 0 <= j < |weeks| => Key(states[0], weeks[j]));
      var rest := Product(states[1..], weeks);
      ProductDistinct(states[1..], weeks);
      ProductMembers(states[1..], weeks);
      assert Product(states, weeks) == block + rest;
      assert states[0] !in states[1..];
      var all := block + rest;
      forall i, j | 0 <= i < j < |all|
        ensures all[i] != all[j]
      {
        if j < |block| {
        } else if i >= |block| {
          assert all[i] == rest[i - |block|] && all[j] == rest[j - |block|];
        } else {
          assert all[i].state == states[0];
          assert all[j] in rest;
        }
      }
    }
  }

  /** The merge condition of line 39: same state, same MMWR week start. */
  predicate OnKey(k: Key, r: CaseRecord) {
    r.state == Some(k.state) && r.weekStart == k.weekStart
  }

  /** A row of the merged frame; the record columns are missing where no record matched. */
  datatype MergedRow = MergedRow(state: string, weekStart: Day, locationName: Option<string>,
                                 county: Option<string>, date: Option<Day>, cases: Option<int>)

  function ToMergedRow(p: (Key, Option<CaseRecord>)): MergedRow {
    match p.1
    case None => MergedRow(p.0.state, p.0.weekStart, None, None, None, None)
    case Some(r) => MergedRow(p.0.state, p.0.weekStart, Some(r.locationName), Some(r.county), Some(r.date), Some(r.cases))
  }

  /** Line 39: the grid left-merged with the case records on (state, week start). */
  function Merge(grid: seq<Key>, records: seq<CaseRecord>): seq<MergedRow> {
    var ps := LeftJoin(grid, records, OnKey);
    seq(|ps|, i requires 0 <= i < |ps| => ToMergedRow(ps[i]))
  }

  /** The sentinel county of a row no record filled. */
  const UnknownCounty: string := "UNKNOWN"

  /** Lines 40-42 on one row: a missing date becomes the week start, missing cases 0,
      a missing county the sentinel; present values stay. */
  function FillRow(row: MergedRow): MergedRow {
    row.(date := Some(row.date.GetOr(row.weekStart)),
         cases := Some(row.cases.GetOr(0)),
         county := Some(row.county.GetOr(UnknownCounty)))
  }

  function FillAll(rows: seq<MergedRow>): seq<MergedRow> {
    seq(|rows|, i requires 0 <= i < |rows| => FillRow(rows[i]))
  }

  /** Lines 40-42: the `fillna` column updates, done in place on the merged frame. */
  method FillMissing(rows: array<MergedRow>)
    modifies rows
    ensures rows[..] == FillAll(old(rows[..]))
  {
    var i := 0;
    while i < rows.Length
      invariant 0 <= i <= rows.Length
      invariant forall k :: 0 <= k < i ==> rows[k] == FillRow(old(rows[k]))
      invariant forall k :: i <= k < rows.Length ==> rows[k] == old(rows[k])
    {
      var row := rows[i];
      rows[i] := row.(date := Some(row.date.GetOr(row.weekStart)));
      rows[i] := rows[i].(cases := Some(rows[i].cases.GetOr(0)));
      rows[i] := rows[i].(county := Some(rows[i].county.GetOr(UnknownCounty)));
      i := i + 1;
    }
  }

  /** The completed merge of lines 35-42 over a given state list and week list. */
  function CompleteGrid(states: seq<string>, weeks: seq<Day>, records: seq<CaseRecord>): seq<MergedRow> {
    FillAll(Merge(Product(states, weeks), records))
  }

  /** The row a grid key gets when no record matches it. */
  function DefaultRow(k: Key): MergedRow {
    MergedRow(k.state, k.weekStart, None, Some(UnknownCounty), Some(k.weekStart), Some(0))
  }

  /** The row a grid key gets from a matching record: the record's own values. */
  function RecordRow(k: Key, r: CaseRecord): MergedRow {
    MergedRow(k.state, k.weekStart, Some(r.locationName), Some(r.county), Some(r.date), Some(r.cases))
  }

  function KeyOf(row: MergedRow): Key {
    Key(row.state, row.weekStart)
  }

  /** The rows of a table that carry key `k`, in table order. */
  function RowsAt(rows: seq<MergedRow>, k: Key): seq<MergedRow>
    decreases |rows|
  {
    if rows == [] then []
    else (if KeyOf(rows[0]) == k then [rows[0]] else []) + RowsAt(rows[1..], k)
  }

  function Cell(p: (Key, Option<CaseRecord>)): MergedRow {
    FillRow(ToMergedRow(p))
  }

  function Cells(ps: seq<(Key, Option<CaseRecord>)>): seq<MergedRow> {
    seq(|ps|, i requires 0 <= i < |ps| => Cell(ps[i]))
  }

  lemma {:induction false} RowsAtCells(ps: seq<(Key, Option<CaseRecord>)>, k: Key)
    ensures RowsAt(Cells(ps), k) == Cells(Select(ps, k))
    decreases |ps|
  {
    if ps != [] {
      assert Cells(ps)[1..] == Cells(ps[1..]);
      RowsAtCells(ps[1..], k);
      assert KeyOf(Cell(ps[0])) == ps[0].0;
      var first := if ps[0].0 == k then [ps[0]] else [];
      assert Cells(first + Select(ps[1..], k)) == Cells(first) + Cells(Select(ps[1..], k));
    }
  }

  /** Every state-week pair of the grid is in the completed table. */
  lemma GridCovers(states: seq<string>, weeks: seq<Day>, records: seq<CaseRecord>)
    ensures forall s, w :: s in states && w in weeks ==> Key(s, w) in KeysOf(CompleteGrid(states, weeks, records))
  {
    var grid := Product(states, weeks);
    var ps := LeftJoin(grid, records, OnKey);
    ProductMembers(states, weeks);
    LeftJoinKeys(grid, records, OnKey);
    var table := CompleteGrid(states, weeks, records);
    assert table == Cells(ps);
    forall s, w | s in states && w in weeks
      ensures Key(s, w) in KeysOf(table)
    {
      assert Key(s, w) in grid;
      assert Key(s, w) in Lefts(ps);
      var i :| 0 <= i < |ps| && ps[i].0 == Key(s, w);
      assert KeysOf(table)[i] == Key(s, w);
    }
  }

  /** No row of the completed table lies outside the grid. */
  lemma GridBounded(states: seq<string>, weeks: seq<Day>, records: seq<CaseRecord>)
    ensures forall row :: row in CompleteGrid(states, weeks, records) ==> row.state in states && row.weekStart in weeks
  {
    var grid := Product(states, weeks);
    var ps := LeftJoin(grid, records, OnKey);
    ProductMembers(states, weeks);
    LeftJoinRows(grid, records, OnKey);
    var table := CompleteGrid(states, weeks, records);
    assert table == Cells(ps);
    forall row | row in table
      ensures row.state in states && row.weekStart in weeks
    {
      var i :| 0 <= i < |table| && table[i] == row;
      assert ps[i] in ps;
      assert KeyOf(row) == ps[i].0;
    }
  }

  function KeysOf(rows: seq<MergedRow>): (ks: seq<Key>)
    ensures |ks| == |rows|
    ensures forall i :: 0 <= i < |rows| ==> ks[i] == KeyOf(rows[i])
  {
    seq(|rows|, i requires 0 <= i < |rows| => KeyOf(rows[i]))
  }

  /** For distinct states and weeks, the rows of one grid key are one per matching
      record, in record order and holding that record's own values, or exactly one
      default row (no cases, county UNKNOWN, date the week start) when none matches. */
  lemma CellContents(states: seq<string>, weeks: seq<Day>, records: seq<CaseRecord>, k: Key)
    requires Distinct(states) && Distinct(weeks)
    requires k.state in states && k.weekStart in weeks
    ensures var ms := Matches(k, records, OnKey);
      RowsAt(CompleteGrid(states, weeks, records), k) ==
        if ms == [] then [DefaultRow(k)]
        else seq(|ms|, i requires 0 <= i < |ms| => RecordRow(k, ms[i]))
    ensures |RowsAt(CompleteGrid(states, weeks, records), k)| ==
      if Matches(k, records, OnKey) == [] then 1 else |Matches(k, records, OnKey)|
  {
    var grid := Product(states, weeks);
    var ps := LeftJoin(grid, records, OnKey);
    ProductMembers(states, weeks);
    ProductDistinct(states, weeks);
    assert CompleteGrid(states, weeks, records) == Cells(ps);
    RowsAtCells(ps, k);
    SelectLeftJoin(grid, records, OnKey, k);
    var ms := Matches(k, records, OnKey);
    if ms != [] {
      var pairs := Pairs(k, ms);
      forall i | 0 <= i < |ms|
        ensures Cells(pairs)[i] == RecordRow(k, ms[i])
      {
        assert pairs[i] == (k, Some(ms[i]));
      }
    }
  }

  /** Line 43's condition: a row and a state-code entry of the same state. */
  predicate SameState(row: MergedRow, c: StateCode) {
    row.state == c.state
  }

  /** Line 43: the completed table left-merged with the state-code table. */
  function AttachCodes(table: seq<MergedRow>, codes: seq<StateCode>): seq<(MergedRow, Option<StateCode>)> {
    LeftJoin(table, codes, SameState)
  }

  /** With one code entry per state name, attaching codes keeps the table's rows
      one-for-one and gives each row the entry of its own state, if there is one. */
  lemma CodesOneToOne(table: seq<MergedRow>, codes: seq<StateCode>)
    requires Distinct(StateNames(codes))
    ensures |AttachCodes(table, codes)| == |table|
    ensures forall i :: 0 <= i < |table| ==>
      && AttachCodes(table, codes)[i].0 == table[i]
      && (AttachCodes(table, codes)[i].1.Some? <==> table[i].state in StateNames(codes))
      && (AttachCodes(table, codes)[i].1.Some? ==> AttachCodes(table, codes)[i].1.value.state == table[i].state)
  {
    forall i | 0 <= i < |table|
      ensures |Matches(table[i], codes, SameState)| <= 1
      ensures Matches(table[i], codes, SameState) != [] <==> table[i].state in StateNames(codes)
    {
      AtMostOneCode(table[i], codes);
    }
    LeftJoinAtMostOne(table, codes, SameState);
    forall i | 0 <= i < |table|
      ensures FirstMatch(table[i], codes, SameState).Some? ==>
        FirstMatch(table[i], codes, SameState).value.state == table[i].state
    {
      var m := Matches(table[i], codes, SameState);
      if m != [] {
        assert m[0] in m;
      }
    }
  }

  lemma {:induction false} AtMostOneCode(row: MergedRow, codes: seq<StateCode>)
    requires Distinct(StateNames(codes))
    ensures |Matches(row, codes, SameState)| <= 1
    ensures Matches(row, codes, SameState) != [] <==> row.state in StateNames(codes)
    decreases |codes|
  {
    if codes != [] {
      assert StateNames(codes[1..]) == StateNames(codes)[1..];
      AtMostOneCode(row, codes[1..]);
      if SameState(row, codes[0]) {
        assert codes[0].state !in StateNames(codes[1..]);
        assert Matches(row, codes[1..], SameState) == [];
      }
      assert row.state in StateNames(codes) <==>
        row.state == codes[0].state || row.state in StateNames(codes[1..]);
    }
  }

  /** The fixed state-code table names each state once. */
  lemma StateCodesDistinct()
    ensures Distinct(StateNames(StateCodes))
  {
    var names := StateNames(StateCodes);
    assert names == ["ALABAMA", "ALASKA", "ARIZONA", "NEW YORK CITY"];
  }

  /** Lines 35-43: the case table the script writes out. */
  function CaseTable(records: seq<CaseRecord>, weeks: seq<Day>, codes: seq<StateCode>): seq<(MergedRow, Option<StateCode>)> {
    AttachCodes(CompleteGrid(Unique(StateNames(codes)), weeks, records), codes)
  }
}
