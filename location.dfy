/** Parsing of the feed's "County, STATE" labels and the load stage that turns
    feed rows into case records keyed by state and MMWR week start. */
module Location {
  import opened Types
  import opened Calendar

  /** ASCII upper-casing of one character (the `str.upper` of the source, restricted to ASCII). */
  function UpperChar(c: char): char {
    if 'a' <= c <= 'z' then (c as int - 32) as char else c
  }

  function Upper(s: string): (u: string)
    ensures |u| == |s|
    decreases |s|
  {
    if s == [] then [] else [UpperChar(s[0])] + Upper(s[1..])
  }

  lemma {:induction false} UpperAppend(a: string, b: string)
    ensures Upper(a + b) == Upper(a) + Upper(b)
    decreases |a|
  {
    if a != [] {
      assert (a + b)[0] == a[0] && (a + b)[1..] == a[1..] + b;
      UpperAppend(a[1..], b);
    } else {
      assert a + b == b;
    }
  }

  /** The separator of a location label. */
  const Separator: string := ", "

  predicate SeparatorAt(s: string, i: int) {
    0 <= i && i + 1 < |s| && s[i] == ',' && s[i + 1] == ' '
  }

  predicate HasSeparator(s: string) {
    exists i :: 0 <= i < |s| && SeparatorAt(s, i)
  }

  /** Python's `str.split(", ")`: the pieces between the separators, scanning left to right. */
  function Split(s: string): (parts: seq<string>)
    ensures |parts| >= 1
    decreases |s|
  {
    if |s| < 2 then [s]
    else if s[0] == ',' && s[1] == ' ' then [""] + Split(s[2..])
    else
      var rest := Split(s[1..]);
      [[s[0]] + rest[0]] + rest[1..]
  }

  /** `", ".join(parts)`. */
  function Join(parts: seq<string>): string
    requires |parts| >= 1
    decreases |parts|
  {
    if |parts| == 1 then parts[0] else parts[0] + Separator + Join(parts[1..])
  }

  /** Joining the pieces of a split gives back the label. */
  lemma {:induction false} JoinSplit(s: string)
    ensures Join(Split(s)) == s
    decreases |s|
  {
    if |s| < 2 {
    } else if s[0] == ',' && s[1] == ' ' {
      JoinSplit(s[2..]);
      assert s == Separator + s[2..];
    } else {
      var rest := Split(s[1..]);
      JoinSplit(s[1..]);
      JoinCons(s[0], rest);
      assert s == [s[0]] + s[1..];
    }
  }

  /** Putting a character in front of the first piece puts it in front of the join. */
  lemma {:induction false} JoinCons(c: char, parts: seq<string>)
    requires |parts| >= 1
    ensures Join([[c] + parts[0]] + parts[1..]) == [c] + Join(parts)
  {
    var consed := [[c] + parts[0]] + parts[1..];
    assert |consed| == |parts| && consed[0] == [c] + parts[0];
    if |parts| > 1 {
      assert consed[1..] == parts[1..];
      var tail := Separator + Join(parts[1..]);
      assert Join(consed) == ([c] + parts[0]) + tail;
      assert Join(parts) == parts[0] + tail;
      assert ([c] + parts[0]) + tail == [c] + (parts[0] + tail);
    }
  }

  /** The first piece of a split is a prefix of the label. */
  lemma {:induction false} SplitHeadPrefix(s: string)
    ensures |Split(s)[0]| <= |s| && Split(s)[0] == s[..|Split(s)[0]|]
    decreases |s|
  {
    if |s| >= 2 && !(s[0] == ',' && s[1] == ' ') {
      SplitHeadPrefix(s[1..]);
    }
  }

  /** No piece of a split contains the separator. */
  lemma {:induction false} SplitPiecesClean(s: string)
    ensures forall k :: 0 <= k < |Split(s)| ==> !HasSeparator(Split(s)[k])
    decreases |s|
  {
    if |s| < 2 {
      assert forall i :: !SeparatorAt(s, i);
    } else if s[0] == ',' && s[1] == ' ' {
      SplitPiecesClean(s[2..]);
      assert forall i :: !SeparatorAt("", i);
      assert forall k :: 1 <= k < |Split(s)| ==> Split(s)[k] == Split(s[2..])[k - 1];
    } else {
      var rest := Split(s[1..]);
      SplitPiecesClean(s[1..]);
      SplitHeadPrefix(s[1..]);
      var head := [s[0]] + rest[0];
      if |rest[0]| > 0 {
        assert head[1] == rest[0][0] == s[1];
      }
      assert !SeparatorAt(head, 0);
      forall i | 1 <= i < |head|
        ensures !SeparatorAt(head, i)
      {
        assert !SeparatorAt(rest[0], i - 1);
      }
      assert forall k :: 1 <= k < |Split(s)| ==> Split(s)[k] == rest[k];
    }
  }

  /** Splitting a label whose first piece holds no separator peels that piece off. */
  lemma {:induction false} SplitAfterPiece(a: string, b: string)
    requires !HasSeparator(a)
    ensures Split(a + Separator + b) == [a] + Split(b)
    decreases |a|
  {
    var s := a + Separator + b;
    if a == [] {
      assert s == Separator + b;
      assert s[2..] == b;
    } else {
      assert !SeparatorAt(a, 0);
      assert s[1..] == a[1..] + Separator + b;
      assert !HasSeparator(a[1..]) by {
        forall i | SeparatorAt(a[1..], i) ensures SeparatorAt(a, i + 1) { }
      }
      SplitAfterPiece(a[1..], b);
      assert [s[0]] + a[1..] == a;
    }
  }

  /** A label without a separator splits into itself alone. */
  lemma {:induction false} SplitWhole(a: string)
    requires !HasSeparator(a)
    ensures Split(a) == [a]
    decreases |a|
  {
    if |a| >= 2 {
      assert !SeparatorAt(a, 0);
      assert !HasSeparator(a[1..]) by {
        forall i | SeparatorAt(a[1..], i) ensures SeparatorAt(a, i + 1) { }
      }
      SplitWhole(a[1..]);
      assert [a[0]] + a[1..] == a;
    }
  }

  /** A label splits into exactly two pieces iff it is two separator-free pieces around one separator. */
  lemma TwoPieces(s: string)
    ensures |Split(s)| == 2 <==>
      exists a, b :: !HasSeparator(a) && !HasSeparator(b) && s == a + Separator + b
  {
    if |Split(s)| == 2 {
      JoinSplit(s);
      SplitPiecesClean(s);
      var p := Split(s);
      assert s == p[0] + Separator + Join(p[1..]);
      assert Join(p[1..]) == p[1];
    }
    if exists a, b :: !HasSeparator(a) && !HasSeparator(b) && s == a + Separator + b {
      var a, b :| !HasSeparator(a) && !HasSeparator(b) && s == a + Separator + b;
      SplitAfterPiece(a, b);
      SplitWhole(b);
    }
  }

  /** The parsed location of one row: county, and the state when the label had one. */
  datatype Place = Place(county: string, state: Option<string>)

  /** Lines 15-18: split on the separator, pad a one-piece label with a missing
      state, upper-case both columns. Only labels of at most two pieces get here. */
  function ParseLocation(loc: string): Place
    requires |Split(loc)| <= 2
  {
    var parts := Split(loc);
    Place(Upper(parts[0]), if |parts| == 2 then Some(Upper(parts[1])) else None)
  }

  /** For a label with exactly one separator, county and state are the upper-cased
      sides, and re-joining them gives the upper-cased label. */
  lemma ParseTwoSided(a: string, b: string)
    requires !HasSeparator(a) && !HasSeparator(b)
    ensures |Split(a + Separator + b)| == 2
    ensures ParseLocation(a + Separator + b) == Place(Upper(a), Some(Upper(b)))
    ensures Upper(a) + Separator + Upper(b) == Upper(a + Separator + b)
  {
    SplitAfterPiece(a, b);
    SplitWhole(b);
    UpperAppend(a + Separator, b);
    UpperAppend(a, Separator);
    assert Upper(Separator) == Separator;
  }

  /** Whenever a state was parsed, county and state re-join into the upper-cased label;
      a label without a separator is all county and no state. */
  lemma ParseRejoins(loc: string)
    requires |Split(loc)| <= 2
    ensures ParseLocation(loc).state.Some? <==> HasSeparator(loc)
    ensures ParseLocation(loc).state.Some? ==>
      ParseLocation(loc).county + Separator + ParseLocation(loc).state.value == Upper(loc)
    ensures ParseLocation(loc).state.None? ==> ParseLocation(loc).county == Upper(loc)
  {
    var parts := Split(loc);
    JoinSplit(loc);
    SplitPiecesClean(loc);
    if |parts| == 2 {
      assert loc == parts[0] + Separator + parts[1] by {
        assert Join(parts[1..]) == parts[1];
      }
      assert SeparatorAt(loc, |parts[0]|);
      ParseTwoSided(parts[0], parts[1]);
    } else {
      assert loc == parts[0];
    }
  }

  /** One row of the case feed: `location_name`, `date` and `value` (the ignored
      `location_type` column is dropped). */
  datatype SourceRow = SourceRow(locationName: string, date: Day, value: int)

  /** One loaded case record, with the columns lines 15-22 add. */
  datatype CaseRecord = CaseRecord(locationName: string, county: string, state: Option<string>,
                                   date: Day, cases: int, weekStart: Day)

  datatype LoadError = ColumnCountMismatch

  /** The split-and-assign of line 15 succeeds when the widest split has exactly two
      pieces: a wider one, or none as wide, gives a column count other than two. */
  predicate SplitsIntoTwoColumns(rows: seq<SourceRow>) {
    && (forall i :: 0 <= i < |rows| ==> |Split(rows[i].locationName)| <= 2)
    && (exists i :: 0 <= i < |rows| && |Split(rows[i].locationName)| == 2)
  }

  function ToRecord(row: SourceRow): CaseRecord
    requires |Split(row.locationName)| <= 2
  {
    var place := ParseLocation(row.locationName);
    CaseRecord(row.locationName, place.county, place.state, row.date, row.value, WeekStart(row.date))
  }

  /** Lines 14-22: parse each row's location, rename `value` to `cases`, attach the MMWR week start. */
  function LoadRecords(rows: seq<SourceRow>): (r: Result<seq<CaseRecord>, LoadError>)
    ensures r.Success? <==> SplitsIntoTwoColumns(rows)
    ensures r.Success? ==> |r.value| == |rows|
    ensures r.Success? ==> forall i :: 0 <= i < |rows| ==>
      && r.value[i].locationName == rows[i].locationName
      && r.value[i].cases == rows[i].value
      && r.value[i].date == rows[i].date
      && r.value[i].weekStart <= rows[i].date <= r.value[i].weekStart + 6
      && IsSunday(r.value[i].weekStart)
      && (r.value[i].state.Some? <==> HasSeparator(rows[i].locationName))
      && (r.value[i].state.Some? ==>
            r.value[i].county + Separator + r.value[i].state.value == Upper(rows[i].locationName))
  {
    if SplitsIntoTwoColumns(rows) then
      var recs := seq(|rows|, i requires 0 <= i < |rows| => ToRecord(rows[i]));
      assert forall i :: 0 <= i < |rows| ==> recs[i] == ToRecord(rows[i]);
      forall i | 0 <= i < |rows|
        ensures recs[i].state.Some? <==> HasSeparator(rows[i].locationName)
        ensures recs[i].state.Some? ==> recs[i].county + Separator + recs[i].state.value == Upper(rows[i].locationName)
      {
        ParseRejoins(rows[i].locationName);
      }
      Success(recs)
    else
      Failure(ColumnCountMismatch)
  }
}
