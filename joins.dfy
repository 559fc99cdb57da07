/** pandas' `merge(..., how='left')` on value rows: every left row is kept, in order,
    once per matching right row (in the right table's order), or once with a missing
    right side when nothing matches. */
module Joins {
  import opened Types

  /** The right rows that match `l`, in the right table's order. */
  function Matches<L, R(==,!new)>(l: L, right: seq<R>, on: (L, R) -> bool): (m: seq<R>)
    ensures |m| <= |right|
    ensures forall r :: r in m <==> r in right && on(l, r)
    decreases |right|
  {
    if right == [] then []
    else (if on(l, right[0]) then [right[0]] else []) + Matches(l, right[1..], on)
  }

  /** The joined rows of `l` with each of the right rows `m`. */
  function Pairs<L, R>(l: L, m: seq<R>): (ps: seq<(L, Option<R>)>)
    ensures |ps| == |m|
    ensures forall k :: 0 <= k < |ps| ==> ps[k] == (l, Some(m[k]))
    decreases |m|
  {
    if m == [] then [] else [(l, Some(m[0]))] + Pairs(l, m[1..])
  }

  /** What one left row contributes: a row per match, or one row with the right side missing. */
  function RowsFor<L, R>(l: L, m: seq<R>): seq<(L, Option<R>)> {
    if m == [] then [(l, None)] else Pairs(l, m)
  }

  /** The left-side column of a joined table. */
  function Lefts<L, R>(out: seq<(L, Option<R>)>): (ls: seq<L>)
    ensures |ls| == |out|
    ensures forall k :: 0 <= k < |out| ==> ls[k] == out[k].0
  {
    seq(|out|, k requires 0 <= k < |out| => out[k].0)
  }

  function LeftJoin<L(==,!new), R(==,!new)>(left: seq<L>, right: seq<R>, on: (L, R) -> bool): seq<(L, Option<R>)>
    decreases |left|
  {
    if left == [] then []
    else RowsFor(left[0], Matches(left[0], right, on)) + LeftJoin(left[1..], right, on)
  }

  lemma RowsForFacts<L, R>(l: L, m: seq<R>)
    ensures |RowsFor(l, m)| > 0
    ensures forall p :: p in RowsFor(l, m) ==>
      p.0 == l && (p.1.Some? ==> p.1.value in m) && (p.1.None? ==> m == [])
  {
  }

  /** Every joined row comes from a left row; a filled right side is a right row that
      matches it, and a missing right side means nothing on the right matched. */
  lemma {:induction false} LeftJoinRows<L(!new), R(!new)>(left: seq<L>, right: seq<R>, on: (L, R) -> bool)
    ensures forall p :: p in LeftJoin(left, right, on) ==>
      && p.0 in left
      && (p.1.Some? ==> p.1.value in right && on(p.0, p.1.value))
      && (p.1.None? ==> Matches(p.0, right, on) == [])
    decreases |left|
  {
    if left != [] {
      var head := RowsFor(left[0], Matches(left[0], right, on));
      var tail := LeftJoin(left[1..], right, on);
      LeftJoinRows(left[1..], right, on);
      RowsForFacts(left[0], Matches(left[0], right, on));
      assert LeftJoin(left, right, on) == head + tail;
      assert forall l :: l in left[1..] ==> l in left;
    }
  }

  /** Every left row appears in the join. */
  lemma {:induction false} LeftJoinKeys<L(!new), R(!new)>(left: seq<L>, right: seq<R>, on: (L, R) -> bool)
    ensures forall l :: l in left ==> l in Lefts(LeftJoin(left, right, on))
    decreases |left|
  {
    if left != [] {
      var head := RowsFor(left[0], Matches(left[0], right, on));
      var tail := LeftJoin(left[1..], right, on);
      var out := head + tail;
      assert LeftJoin(left, right, on) == out;
      LeftJoinKeys(left[1..], right, on);
      RowsForFacts(left[0], Matches(left[0], right, on));
      assert head[0] in head;
      assert Lefts(out)[0] == left[0];
      forall l | l in left[1..]
        ensures l in Lefts(out)
      {
        var k :| 0 <= k < |tail| && Lefts(tail)[k] == l;
        assert Lefts(out)[|head| + k] == l;
      }
    }
  }

  /** The join keeps exactly the left table's keys; every filled right side is a right
      row that matches, and a missing right side means nothing on the right matched. */
  lemma LeftJoinSound<L(!new), R(!new)>(left: seq<L>, right: seq<R>, on: (L, R) -> bool)
    ensures var out := LeftJoin(left, right, on);
      && (forall l :: l in left <==> l in Lefts(out))
      && (forall p :: p in out && p.1.Some? ==> p.1.value in right && on(p.0, p.1.value))
      && (forall p :: p in out && p.1.None? ==> Matches(p.0, right, on) == [])
  {
    var out := LeftJoin(left, right, on);
    LeftJoinRows(left, right, on);
    LeftJoinKeys(left, right, on);
    forall l | l in Lefts(out)
      ensures l in left
    {
      var k :| 0 <= k < |out| && Lefts(out)[k] == l;
      assert out[k] in out;
    }
  }

  /** The rows of a joined table whose left side is `l`. */
  function Select<L(==), R>(out: seq<(L, Option<R>)>, l: L): seq<(L, Option<R>)>
    decreases |out|
  {
    if out == [] then []
    else (if out[0].0 == l then [out[0]] else []) + Select(out[1..], l)
  }

  lemma {:induction false} SelectAppend<L, R>(a: seq<(L, Option<R>)>, b: seq<(L, Option<R>)>, l: L)
    ensures Select(a + b, l) == Select(a, l) + Select(b, l)
    decreases |a|
  {
    if a != [] {
      assert (a + b)[0] == a[0] && (a + b)[1..] == a[1..] + b;
      SelectAppend(a[1..], b, l);
    } else {
      assert a + b == b;
    }
  }

  lemma {:induction false} SelectPairs<L, R>(x: L, m: seq<R>, l: L)
    ensures Select(Pairs(x, m), l) == if x == l then Pairs(x, m) else []
    decreases |m|
  {
    if m != [] {
      SelectPairs(x, m[1..], l);
    }
  }

  ghost predicate Distinct<T>(s: seq<T>) {
    forall i, j :: 0 <= i < j < |s| ==> s[i] != s[j]
  }

  /** When left keys are distinct, the rows a left key receives are exactly one per
      matching right row, in the right table's order, or a single row with the right
      side missing when nothing matches. */
  lemma {:induction false} SelectLeftJoin<L(!new), R(!new)>(left: seq<L>, right: seq<R>, on: (L, R) -> bool, l: L)
    requires Distinct(left)
    ensures Select(LeftJoin(left, right, on), l) ==
      if l in left then RowsFor(l, Matches(l, right, on)) else []
    decreases |left|
  {
    if left != [] {
      var m := Matches(left[0], right, on);
      var head := RowsFor(left[0], m);
      SelectAppend(head, LeftJoin(left[1..], right, on), l);
      SelectLeftJoin(left[1..], right, on, l);
      if m == [] {
        assert Select(head, l) == Select(head[1..], l) + (if left[0] == l then head else []);
      } else {
        SelectPairs(left[0], m, l);
      }
      assert left[0] == l ==> l !in left[1..];
      assert l in left <==> l == left[0] || l in left[1..];
    }
  }

  /** The single right row matching `l`, if any. */
  function FirstMatch<L, R(==,!new)>(l: L, right: seq<R>, on: (L, R) -> bool): Option<R> {
    var m := Matches(l, right, on);
    if m == [] then None else Some(m[0])
  }

  /** When no left row matches more than one right row, the join keeps the left
      table's rows one-for-one, in order, each beside its match or a missing cell. */
  lemma {:induction false} LeftJoinAtMostOne<L(!new), R(!new)>(left: seq<L>, right: seq<R>, on: (L, R) -> bool)
    requires forall i :: 0 <= i < |left| ==> |Matches(left[i], right, on)| <= 1
    ensures |LeftJoin(left, right, on)| == |left|
    ensures forall i :: 0 <= i < |left| ==>
      LeftJoin(left, right, on)[i] == (left[i], FirstMatch(left[i], right, on))
    decreases |left|
  {
    if left != [] {
      assert forall i :: 1 <= i < |left| ==> left[1..][i - 1] == left[i];
      LeftJoinAtMostOne(left[1..], right, on);
      var m := Matches(left[0], right, on);
      assert |RowsFor(left[0], m)| == 1;
    }
  }
}
