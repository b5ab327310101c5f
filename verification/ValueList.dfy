/** A column's value list by two routes - DISTINCT over the narrowed rows and one index probe per value - and the set
    filters its values make (grid_read.column_values, _skipped_values). */
module ValueList {
  import opened Syntax
  import CF = ColumnFilter

  // ---- the two routes ----------------------------------------------------------------------------------------------

  /** A cell of the narrowed rows: blank, or its value's place in the column's order. */
  type Shown = Option<int>

  function Values(rows: seq<Shown>): set<int> { set i | 0 <= i < |rows| && rows[i].Some? :: rows[i].value }

  predicate Rising(s: seq<int>) { forall i, j :: 0 <= i < j < |s| ==> s[i] < s[j] }

  /** The values once each, in order. */
  ghost predicate SortedOf(s: seq<int>, values: set<int>) { Rising(s) && forall x :: x in s <==> x in values }

  lemma {:induction false} SortedIsOne(a: seq<int>, b: seq<int>, values: set<int>)
    requires SortedOf(a, values) && SortedOf(b, values)
    ensures a == b
    decreases |a|
  {
    NoneSorted(a, values);
    NoneSorted(b, values);
    if a != [] && b != [] {
      var m, n := |a| - 1, |b| - 1;
      LastIsGreatest(a, values);
      LastIsGreatest(b, values);
      assert a[m] == b[n];
      DropLast(a, values);
      DropLast(b, values);
      SortedIsOne(a[..m], b[..n], values - {a[m]});
      assert a == a[..m] + [a[m]] && b == b[..n] + [b[n]];
    }
  }

  lemma {:induction false} NoneSorted(s: seq<int>, values: set<int>)
    requires SortedOf(s, values)
    ensures s == [] <==> values == {}
  {
    if s != [] { assert s[0] in s; }
    if s == [] { assert forall x :: x !in values; }
  }

  lemma {:induction false} LastIsGreatest(s: seq<int>, values: set<int>)
    requires SortedOf(s, values) && s != []
    ensures s[|s| - 1] in values && forall x :: x in values ==> x <= s[|s| - 1]
  {
    assert s[|s| - 1] in s;
    forall x | x in values ensures x <= s[|s| - 1] {
      var i :| 0 <= i < |s| && s[i] == x;
    }
  }

  lemma {:induction false} DropLast(s: seq<int>, values: set<int>)
    requires SortedOf(s, values) && s != []
    ensures SortedOf(s[..|s| - 1], values - {s[|s| - 1]})
  {
    var m := |s| - 1;
    forall x ensures x in s[..m] <==> x in values - {s[m]} {
      if x in s && x != s[m] { var i :| 0 <= i < |s| && s[i] == x; assert s[..m][i] == x; }
      if x in s[..m] { var i :| 0 <= i < m && s[..m][i] == x; assert s[i] == x; }
    }
  }

  function Prefix<T>(s: seq<T>, most: nat): seq<T> { if |s| <= most then s else s[..most] }

  function Somes(s: seq<int>): seq<Shown> { seq(|s|, i requires 0 <= i < |s| => Some(s[i])) }

  /** DISTINCT over the narrowed rows, blanks first, a little more than the cap. */
  ghost predicate DistinctRead(rows: seq<Shown>, cap: nat, found: seq<Shown>) {
    exists s :: SortedOf(s, Values(rows)) && found == Prefix((if None in rows then [None] else []) + Somes(s), cap + 2)
  }

  datatype Answer = Answer(values: seq<Shown>, blank: bool, more: bool)

  /** The end of `column_values`, for either route: the blank taken off the front, the cap, and whether there is more.
      */
  function Finished(found: seq<Shown>, cap: nat): Answer {
    var blank := found != [] && found[0] == None;
    var rest := if blank then found[1..] else found;
    Answer(Prefix(rest, cap), blank, |rest| > cap)
  }

  /** An index probe: the least value above the last one. */
  method Probe(rows: seq<Shown>, above: Option<int>) returns (next: Option<int>)
    ensures next.Some? ==> next.value in Values(rows) && (above.Some? ==> next.value > above.value)
    ensures forall x :: x in Values(rows) && (above.Some? ==> x > above.value) ==> next.Some? && next.value <= x
  {
    next := None;
    for i := 0 to |rows|
      invariant next.Some? ==> next.value in Values(rows) && (above.Some? ==> next.value > above.value)
      invariant forall k :: 0 <= k < i && rows[k].Some? && (above.Some? ==> rows[k].value > above.value) ==>
                  next.Some? && next.value <= rows[k].value
    {
      if rows[i].Some? && (above.None? || rows[i].value > above.value) && (next.None? || rows[i].value < next.value) {
        next := rows[i];
      }
    }
  }

  /** A walk in order from the least, at most so many, that leaves nothing out before it stops. */
  ghost predicate IsWalk(walked: seq<int>, values: set<int>, most: nat) {
    && Rising(walked) && |walked| <= most
    && (forall x :: x in walked ==> x in values)
    && (|walked| < most ==> forall x :: x in values ==> x in walked)
    && (forall x, i :: x in values && x !in walked && 0 <= i < |walked| ==> walked[i] < x)
  }

  /** `_skipped_values`: the walk of the recursive query - a probe a value, stopped past the cap. */
  method SkippedValues(rows: seq<Shown>, most: nat) returns (walked: seq<int>)
    ensures IsWalk(walked, Values(rows), most)
  {
    hide Values;
    walked := [];
    var next := Probe(rows, None);
    while |walked| < most && next.Some?
      invariant Rising(walked) && |walked| <= most
      invariant forall x :: x in walked ==> x in Values(rows)
      invariant forall x :: x in Values(rows) && x !in walked ==> next.Some? && next.value <= x
      invariant next.Some? ==> next.value in Values(rows) && forall i :: 0 <= i < |walked| ==> walked[i] < next.value
      decreases most - |walked|
    {
      walked := walked + [next.value];
      next := Probe(rows, next);
    }
  }

  lemma {:induction false} StoppedAtMost(walked: seq<int>, values: set<int>, most: nat, x: int)
    requires IsWalk(walked, values, most) && x in values && x !in walked
    ensures |walked| == most
  {
  }

  lemma {:induction false} WalkIsPrefix(s: seq<int>, walked: seq<int>, values: set<int>, most: nat)
    requires SortedOf(s, values) && IsWalk(walked, values, most)
    ensures walked == Prefix(s, most)
    decreases |s|
  {
    if s != [] && s[|s| - 1] !in walked {
      var m := |s| - 1;
      LastIsGreatest(s, values);
      StoppedAtMost(walked, values, most, s[m]);
      DropLast(s, values);
      WalkIsPrefix(s[..m], walked, values - {s[m]}, most);
      ShorterFits(s[..m], walked, values - {s[m]});
    } else {
      NoneSorted(s, values);
      if s != [] {
        LastIsGreatest(s, values);
        var i :| 0 <= i < |walked| && walked[i] == s[|s| - 1];
        assert forall x :: x in values ==> x <= walked[i];
      }
      assert forall x :: x in values ==> x in walked;
      SortedIsOne(s, walked, values);
    }
  }

  /** A rising list of some of the values is no longer than all of them. */
  lemma {:induction false} ShorterFits(s: seq<int>, walked: seq<int>, values: set<int>)
    requires SortedOf(s, values) && Rising(walked) && forall x :: x in walked ==> x in values
    ensures |walked| <= |s|
    decreases |s|
  {
    if walked != [] {
      var m, n := |s| - 1, |walked| - 1;
      assert walked[n] in walked && walked[n] in s;
      LastIsGreatest(s, values);
      DropLast(s, values);
      forall x | x in walked[..n] ensures x in values - {s[m]} {
        var i :| 0 <= i < n && walked[..n][i] == x;
        assert walked[i] < walked[n];
      }
      ShorterFits(s[..m], walked[..n], values - {s[m]});
    }
  }

  /** Both routes give one answer: the values, the blank and whether there is more, for every rows and every cap. */
  lemma {:induction false} RoutesAgree(rows: seq<Shown>, cap: nat, distinct: seq<Shown>, walked: seq<int>)
    requires DistinctRead(rows, cap, distinct) && IsWalk(walked, Values(rows), cap + 1)
    ensures Finished(distinct, cap) == Finished((if None in rows then [None] else []) + Somes(walked), cap)
  {
    var s :| SortedOf(s, Values(rows)) && distinct == Prefix((if None in rows then [None] else []) + Somes(s), cap + 2);
    WalkIsPrefix(s, walked, Values(rows), cap + 1);
    hide Values, SortedOf, IsWalk, Finished;
    SomesPrefix(s, cap + 1);
    if None in rows {
      BlankFirst(Somes(s), cap);
    } else {
      assert [] + Somes(s) == Somes(s) && [] + Somes(walked) == Somes(walked);
      NoBlank(s, cap);
    }
  }

  lemma {:induction false} SomesPrefix(s: seq<int>, most: nat)
    ensures Somes(Prefix(s, most)) == Prefix(Somes(s), most)
  {
  }

  lemma {:induction false} BlankFirst(values: seq<Shown>, cap: nat)
    ensures Finished(Prefix([None] + values, cap + 2), cap) == Finished([None] + Prefix(values, cap + 1), cap)
  {
    assert Prefix([None] + values, cap + 2) == [None] + Prefix(values, cap + 1);
  }

  lemma {:induction false} NoBlank(s: seq<int>, cap: nat)
    ensures Finished(Prefix(Somes(s), cap + 2), cap) == Finished(Prefix(Somes(s), cap + 1), cap)
  {
    var values := Somes(s);
    assert values != [] ==> values[0].Some?;
    assert Prefix(Prefix(values, cap + 2), cap) == Prefix(values, cap) == Prefix(Prefix(values, cap + 1), cap);
  }

  /** The list is the least values of the column, as many as the cap lets, in order; it says whether a row is blank, and
      that there is more exactly where a value is left off. */
  lemma {:induction false} ListIsTheLeast(rows: seq<Shown>, cap: nat, found: seq<Shown>) returns (s: seq<int>)
    requires DistinctRead(rows, cap, found)
    ensures Rising(s) && forall x :: x in s <==> x in Values(rows)
    ensures var a := Finished(found, cap);
            && a.values == Somes(if |s| <= cap then s else s[..cap])
            && (a.blank <==> None in rows) && (a.more <==> |s| > cap)
  {
    s :| SortedOf(s, Values(rows)) && found == Prefix((if None in rows then [None] else []) + Somes(s), cap + 2);
    hide Values;
    var values := Somes(s);
    if None in rows {
      assert found == [None] + Prefix(values, cap + 1);
      assert found[1..] == Prefix(values, cap + 1);
    } else {
      assert [] + values == values;
      assert values != [] ==> found[0] == values[0];
    }
    assert Prefix(Prefix(values, cap + 1), cap) == Prefix(values, cap) == Prefix(Prefix(values, cap + 2), cap);
    SomesPrefix(s, cap);
  }

  // ---- the set filters ---------------------------------------------------------------------------------------------

  /** How the cells stand in the column's order: a blank nowhere, a value where every cell equal to it stands, and the
      text a listed value is filtered by matches the cells standing there. */
  ghost predicate Stands(col: CF.Column, cells: seq<CF.Cell>, place: CF.Cell -> Shown, spell: int -> string) {
    && (forall c :: c in cells ==> CF.Fits(col, c) && (place(c) == None <==> CF.ShowsBlank(col, c)))
    && (forall c, n :: c in cells ==> (CF.ShowsValue(col, spell(n), c) <==> place(c) == Some(n)))
  }

  function Places(cells: seq<CF.Cell>, place: CF.Cell -> Shown): seq<Shown> {
    seq(|cells|, i requires 0 <= i < |cells| => place(cells[i]))
  }

  /** The list as it is offered: its values by their texts, the blank cells one null at the end. */
  function Offered(a: Answer, spell: int -> string): seq<Option<string>> {
    seq(|a.values|, i requires 0 <= i < |a.values| =>
        match a.values[i] case None => None case Some(n) => Some(spell(n)))
    + if a.blank then [None] else []
  }

  /** With nothing left off the list, its set filters, each value by itself, part the narrowed rows: SQL keeps every row
      under exactly one of them, the rows without a value under the null's. */
  lemma {:induction false} SetFiltersPartition(col: CF.Column, cells: seq<CF.Cell>, place: CF.Cell -> Shown,
                                               spell: int -> string,
                                               cap: nat, found: seq<Shown>, c: CF.Cell)
    requires Stands(col, cells, place, spell) && c in cells
    requires DistinctRead(Places(cells, place), cap, found) && !Finished(found, cap).more
    requires forall v :: v in Offered(Finished(found, cap), spell) ==>
               CF.Translate(col, CF.SetOf([v], false)).Condition?
    ensures var offered := Offered(Finished(found, cap), spell);
            && (exists i :: 0 <= i < |offered| && KeptBy(col, offered[i], c))
            && (forall i, j :: 0 <= i < |offered| && 0 <= j < |offered| ==>
                  KeptBy(col, offered[i], c) && KeptBy(col, offered[j], c) ==> i == j)
  {
    var rows, a := Places(cells, place), Finished(found, cap);
    var offered := Offered(a, spell);
    var s := WholeList(rows, cap, found);
    hide CF.Translate, CF.Eval, CF.Kept, KeptBy, CF.ShowsValue, CF.ShowsBlank, Finished, Values, DistinctRead;
    forall i | 0 <= i < |offered| ensures KeptBy(col, offered[i], c) <==> Says(col, offered[i], c) {
      assert offered[i] in offered;
      OneValueKeeps(col, offered[i], c);
    }
    assert forall i :: 0 <= i < |s| ==> offered[i] == Some(spell(s[i]));
    assert a.blank ==> offered[|s|] == None;
    assert forall i :: 0 <= i < |offered| && Says(col, offered[i], c) ==>
           (i < |s| && place(c) == Some(s[i])) || (i == |s| && place(c) == None);
    var k :| 0 <= k < |cells| && cells[k] == c;
    assert rows[k] == place(c);
    match place(c) {
      case None => assert Says(col, offered[|s|], c);
      case Some(n) =>
        Standing(rows, k, n);
        var i :| 0 <= i < |s| && s[i] == n;
        assert Says(col, offered[i], c);
    }
  }

  lemma {:induction false} Standing(rows: seq<Shown>, k: nat, n: int)
    requires k < |rows| && rows[k] == Some(n)
    ensures n in Values(rows)
  {
  }

  /** A list with nothing left off: all the values in order, and the blank where there is one. */
  lemma {:induction false} WholeList(rows: seq<Shown>, cap: nat, found: seq<Shown>) returns (s: seq<int>)
    requires DistinctRead(rows, cap, found) && !Finished(found, cap).more
    ensures Rising(s) && (forall x :: x in s <==> x in Values(rows))
    ensures Finished(found, cap) == Answer(Somes(s), None in rows, false)
  {
    s :| SortedOf(s, Values(rows)) && found == Prefix((if None in rows then [None] else []) + Somes(s), cap + 2);
    hide Values;
    var values := Somes(s);
    if None in rows {
      assert found == [None] + Prefix(values, cap + 1);
      assert found[1..] == Prefix(values, cap + 1);
    } else {
      assert [] + values == values;
      assert values != [] ==> found[0] == values[0];
    }
    assert |values| <= cap;
    assert Prefix(values, cap) == values;
  }

  predicate KeptBy(col: CF.Column, v: Option<string>, c: CF.Cell) {
    CF.Translate(col, CF.SetOf([v], false)).Condition? && CF.Kept(col, CF.Translate(col, CF.SetOf([v], false)).e, c)
  }

  predicate Says(col: CF.Column, v: Option<string>, c: CF.Cell) {
    match v case None => CF.ShowsBlank(col, c) case Some(t) => CF.ShowsValue(col, t, c)
  }

  lemma {:induction false} OneValueKeeps(col: CF.Column, v: Option<string>, c: CF.Cell)
    requires CF.Fits(col, c) && CF.Translate(col, CF.SetOf([v], false)).Condition?
    ensures KeptBy(col, v, c) <==> Says(col, v, c)
  {
    CF.KeepsWhatPasses(col, CF.SetOf([v], false), c);
    hide CF.Translate, CF.Kept, CF.ShowsValue, CF.ShowsBlank;
    assert [v][0] == v;
  }
}
