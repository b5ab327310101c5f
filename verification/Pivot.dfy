/** The grid's pivot: a long table keyed (keys, item) read as one row per key group and one cell per item
    (grid_pivot._SameKeyPart, narrow, _takes_blank, groups, order, rows_of, fold). */
module Pivot {
  import opened Syntax
  import CF = ColumnFilter

  /** A key group: one part a key column, a part may be absent. */
  type Keys = seq<Option<string>>

  datatype Row = Row(id: nat, keys: Keys, item: Option<string>, value: CF.Cell)

  /** The declared key: (keys, item), an absent part the same as an absent part. */
  predicate Unique(t: set<Row>) { forall a, b :: a in t && b in t && a.keys == b.keys && a.item == b.item ==> a == b }

  // ---- narrowing by an item ----------------------------------------------------------------------------------------

  predicate IsCell(r: Row, keys: Keys, item: string) { r.keys == keys && r.item == Some(item) }

  /** The cell a group shows for an item: its row's value, blank without such a row. */
  ghost function ShownCell(t: set<Row>, keys: Keys, item: string): CF.Cell {
    if r :| r in t && IsCell(r, keys, item) then r.value else CF.Null
  }

  /** `_takes_blank` */
  predicate TakesBlank(s: CF.Spec) {
    match s
    case Simple(kind, _, _) => kind == CF.BlankKind
    case SetOf(values, typedBlank) => typedBlank || None in values
    case _ => false
  }

  /** The EXISTS of `narrow`: a row of the group's item that meets the condition. */
  predicate Found(col: CF.Column, t: set<Row>, keys: Keys, item: string, e: CF.Expr) {
    exists r :: r in t && IsCell(r, keys, item) && CF.Eval(col, e, r.value) == CF.Yes
  }

  /** What an item's filter keeps of a group; one that takes the blank cell keeps a group with no such row with a value
      too. */
  predicate GroupKept(col: CF.Column, t: set<Row>, keys: Keys, item: string, s: CF.Spec, e: CF.Expr) {
    Found(col, t, keys, item, e) || (TakesBlank(s) && !Found(col, t, keys, item, CF.IsNotBlank))
  }

  datatype Asked = Asked(item: string, spec: CF.Spec)

  /** A row is left by the filters before `n`. */
  predicate Left(col: CF.Column, t: set<Row>, asked: seq<Asked>, n: nat, r: Row)
    requires n <= |asked|
  {
    forall i :: 0 <= i < n ==>
      match CF.Translate(col, asked[i].spec)
      case Condition(Some(e)) => GroupKept(col, t, r.keys, asked[i].item, asked[i].spec, e)
      case _ => true
  }

  /** `narrow`: the query reassigned item by item; a filter it cannot read refuses the read. */
  method Narrow(col: CF.Column, t: set<Row>, query: set<Row>, asked: seq<Asked>) returns (narrowed: Option<set<Row>>)
    ensures narrowed.None? <==> exists i :: 0 <= i < |asked| && CF.Translate(col, asked[i].spec).Refused?
    ensures narrowed.Some? ==> narrowed.value == set r | r in query && Left(col, t, asked, |asked|, r)
  {
    hide CF.Translate, GroupKept;
    var left := query;
    for i := 0 to |asked|
      invariant forall k :: 0 <= k < i ==> !CF.Translate(col, asked[k].spec).Refused?
      invariant left == set r | r in query && Left(col, t, asked, i, r)
    {
      match CF.Translate(col, asked[i].spec) {
        case Refused => return None;
        case Condition(met) =>
          if met.Some? {
            left := set r | r in left && GroupKept(col, t, r.keys, asked[i].item, asked[i].spec, met.value);
          }
      }
    }
    narrowed := Some(left);
  }

  /** A set that says «blank» for its type takes a blank cell it does not list. */
  predicate TakesUnlisted(s: CF.Spec, c: CF.Cell) {
    && s.SetOf? && s.typedBlank && None !in s.values
    && (c == CF.Null || (c == CF.Txt("") && Some("") !in s.values))
  }

  lemma {:induction false} BlankTakersPassBlank(col: CF.Column, s: CF.Spec, c: CF.Cell)
    requires TakesBlank(s) && CF.ShowsBlank(col, c) && CF.Fits(col, c)
    ensures CF.Passes(col, s, c) <==> !TakesUnlisted(s, c)
  {
    if s.SetOf? && None !in s.values && c == CF.Txt("") && Some("") in s.values {
      var i :| 0 <= i < |s.values| && s.values[i] == Some("");
      assert CF.ShowsValue(col, s.values[i].value, c);
    }
  }

  lemma {:induction false} NotBlankIs(col: CF.Column, c: CF.Cell)
    ensures CF.Eval(col, CF.IsNotBlank, c) == CF.Yes <==> !CF.ShowsBlank(col, c)
  {
  }

  lemma {:induction false} UnlistedIsBlank(col: CF.Column, s: CF.Spec, c: CF.Cell)
    requires TakesUnlisted(s, c)
    ensures TakesBlank(s) && CF.ShowsBlank(col, c)
  {
  }

  /** An item's filter keeps a group as if it read the cell the group shows - except a filter that a blank cell passes
      and that is not recognised as taking it, where the group has no row of the item, and a set recognised by a
      «blank» for its type, where the cell is a blank it does not list. */
  lemma {:induction false} KeepsByShownCellExactly(col: CF.Column, t: set<Row>, keys: Keys, item: string, s: CF.Spec,
                                                   e: CF.Expr)
    requires Unique(t) && CF.Translate(col, s) == CF.Condition(Some(e))
    requires forall r :: r in t ==> CF.Fits(col, r.value)
    ensures var cell := ShownCell(t, keys, item);
            var absent := !exists r :: r in t && IsCell(r, keys, item);
            (GroupKept(col, t, keys, item, s, e) <==> CF.Passes(col, s, cell))
              <==> !(absent && !TakesBlank(s) && CF.Passes(col, s, CF.Null)) && !TakesUnlisted(s, cell)
  {
    hide CF.Translate, CF.Passes, CF.Eval, CF.ShowsBlank, TakesBlank, TakesUnlisted;
    var cell := ShownCell(t, keys, item);
    BlankShows(col);
    if TakesUnlisted(s, cell) { UnlistedIsBlank(col, s, cell); }
    if TakesBlank(s) && CF.ShowsBlank(col, cell) { BlankTakersPassBlank(col, s, cell); }
    if r :| r in t && IsCell(r, keys, item) {
      assert cell == r.value;
      CF.KeepsWhatPasses(col, s, r.value);
      NotBlankIs(col, r.value);
      assert forall x :: x in t && IsCell(x, keys, item) ==> x == r;
    }
  }

  /** «blank» held in a compound. */
  const HELD_BLANK := CF.Compound(true, [CF.Simple(CF.BlankKind, None, None)])

  /** So a group with no row of the item shows a blank that the compound passes, and is dropped. */
  lemma {:induction false} HeldBlankDropsTheAbsent(col: CF.Column, t: set<Row>, keys: Keys, item: string)
    requires forall r :: r in t ==> !IsCell(r, keys, item)
    ensures CF.Translate(col, HELD_BLANK) == CF.Condition(Some(CF.All([CF.IsBlank])))
    ensures ShownCell(t, keys, item) == CF.Null && CF.Passes(col, HELD_BLANK, CF.Null)
    ensures !GroupKept(col, t, keys, item, HELD_BLANK, CF.All([CF.IsBlank]))
  {
    var one := CF.Simple(CF.BlankKind, None, None);
    assert HELD_BLANK.conditions == [one] && [one][1..] == [];
    assert CF.Translate(col, one) == CF.Condition(Some(CF.IsBlank));
    assert CF.TranslateEach(col, [one][1..]) == Some([]);
    assert [CF.IsBlank] + [] == [CF.IsBlank];
    assert CF.TranslateEach(col, [one]) == Some([CF.IsBlank]);
    BlankShows(col);
    assert CF.Passes(col, one, CF.Null);
    assert CF.PassesAll(col, [one], CF.Null);
  }

  /** A set of «a» alone that says «blank» for its type. */
  const TYPED := CF.SetOf([Some("a")], true)

  /** The other side: it keeps a group with no row of the item, whose shown blank it does not list. */
  lemma {:induction false} TypedSetKeepsTheAbsent(col: CF.Column, t: set<Row>, keys: Keys, item: string, e: CF.Expr)
    requires (forall r :: r in t ==> !IsCell(r, keys, item)) && CF.Translate(col, TYPED) == CF.Condition(Some(e))
    ensures ShownCell(t, keys, item) == CF.Null && !CF.Passes(col, TYPED, CF.Null)
    ensures GroupKept(col, t, keys, item, TYPED, e)
  {
    assert None !in TYPED.values;
    assert !Found(col, t, keys, item, CF.IsNotBlank);
    hide CF.Translate;
  }

  lemma {:induction false} BlankShows(col: CF.Column)
    ensures CF.ShowsBlank(col, CF.Null)
  {
  }

  /** A filter recognised as taking the blank cell keeps exactly the groups whose shown cell passes, or is a blank
      that a set typed «blank» does not list. */
  lemma {:induction false} BlankTakersKeepShown(col: CF.Column, t: set<Row>, keys: Keys, item: string, s: CF.Spec,
                                                e: CF.Expr)
    requires Unique(t) && CF.Translate(col, s) == CF.Condition(Some(e)) && TakesBlank(s)
    requires forall r :: r in t ==> CF.Fits(col, r.value)
    ensures var cell := ShownCell(t, keys, item);
            GroupKept(col, t, keys, item, s, e) <==> CF.Passes(col, s, cell) || TakesUnlisted(s, cell)
  {
    var cell := ShownCell(t, keys, item);
    KeepsByShownCellExactly(col, t, keys, item, s, e);
    if TakesUnlisted(s, cell) {
      UnlistedIsBlank(col, s, cell);
      BlankTakersPassBlank(col, s, cell);
    }
    hide CF.Translate, CF.Passes, GroupKept, TakesUnlisted;
  }

  // ---- sorting by an item ------------------------------------------------------------------------------------------

  ghost function Groups(query: set<Row>): set<Keys> { set r | r in query :: r.keys }

  /** MIN: none of nothing, absent values passed over. */
  ghost predicate IsMin(m: Option<int>, values: set<int>) {
    if values == {} then m == None else m.Some? && m.value in values && forall v :: v in values ==> m.value <= v
  }

  /** The values joined to a group: every row of it against every row of the item with its keys. */
  ghost function Joined(query: set<Row>, t: set<Row>, g: Keys, item: string, place: CF.Cell -> Option<int>): set<int> {
    set r, c | r in query && r.keys == g && c in t && IsCell(c, g, item) && place(c.value).Some? :: place(c.value).value
  }

  /** The group's own value for an item in the column's order. */
  ghost function OwnPlace(t: set<Row>, g: Keys, item: string, place: CF.Cell -> Option<int>): Option<int> {
    place(ShownCell(t, g, item))
  }

  /** The join and its MIN are the group's own value, however many long rows the group has. */
  lemma {:induction false} JoinedMinIsOwn(query: set<Row>, t: set<Row>, g: Keys, item: string,
                                          place: CF.Cell -> Option<int>,
                                          m: Option<int>)
    requires Unique(t) && g in Groups(query) && place(CF.Null) == None
    ensures IsMin(m, Joined(query, t, g, item, place)) <==> m == OwnPlace(t, g, item, place)
  {
    var joined := Joined(query, t, g, item, place);
    var r :| r in query && r.keys == g;
    if c :| c in t && IsCell(c, g, item) {
      assert forall x :: x in t && IsCell(x, g, item) ==> x == c;
      assert ShownCell(t, g, item) == c.value;
      if place(c.value).Some? {
        assert joined == {place(c.value).value};
      } else {
        assert joined == {};
      }
    } else {
      assert joined == {};
    }
  }

  /** In order by a sort value: missing last either way, then by the keys' own place. */
  predicate SortedBy(list: seq<Keys>, of: Keys -> Option<int>, keyPlace: Keys -> int, desc: bool) {
    forall i, j :: 0 <= i < j < |list| ==>
      NotAfter(of(list[i]), of(list[j]), keyPlace(list[i]), keyPlace(list[j]), desc)
  }

  predicate NotAfter(a: Option<int>, b: Option<int>, x: int, y: int, desc: bool) {
    if a == b then x <= y
    else if a.None? then false
    else if b.None? then true
    else if desc then a.value > b.value else a.value < b.value
  }

  /** A page in order: of two groups the earlier has the value that comes first - the smaller, or the greater where it
      is turned round - the ones without a value last either way, and like values by the keys. */
  lemma {:induction false} PageStands(list: seq<Keys>, of: Keys -> Option<int>, keyPlace: Keys -> int, desc: bool,
                                      i: nat, j: nat)
    requires SortedBy(list, of, keyPlace, desc) && i < j < |list|
    ensures of(list[i]) == None ==> of(list[j]) == None
    ensures of(list[i]).Some? && of(list[j]).Some? ==>
              if desc then of(list[i]).value >= of(list[j]).value else of(list[i]).value <= of(list[j]).value
    ensures of(list[i]) == of(list[j]) ==> keyPlace(list[i]) <= keyPlace(list[j])
  {
  }

  /** A page sorted by the join's MIN is the page sorted by each group's own value of the item. */
  lemma {:induction false} JoinSortsByOwnValue(query: set<Row>, t: set<Row>, item: string,
                                               place: CF.Cell -> Option<int>,
                                               list: seq<Keys>, min: Keys -> Option<int>, keyPlace: Keys -> int,
                                               desc: bool)
    requires Unique(t) && place(CF.Null) == None && forall g :: g in list ==> g in Groups(query)
    requires forall g :: g in list ==> IsMin(min(g), Joined(query, t, g, item, place))
    ensures SortedBy(list, min, keyPlace, desc) <==>
              forall i, j :: 0 <= i < j < |list| ==>
                NotAfter(OwnPlace(t, list[i], item, place), OwnPlace(t, list[j], item, place),
                         keyPlace(list[i]), keyPlace(list[j]), desc)
  {
    hide NotAfter, IsMin, Joined, OwnPlace, Unique;
    forall i | 0 <= i < |list| ensures min(list[i]) == OwnPlace(t, list[i], item, place) {
      assert list[i] in list;
      JoinedMinIsOwn(query, t, list[i], item, place, min(list[i]));
    }
  }

  // ---- the rows of a page ------------------------------------------------------------------------------------------

  /** One part compared as SQL compares: nothing is known of an absent one. */
  function PartEq(a: Option<string>, b: Option<string>): CF.Sql {
    if a.None? || b.None? then CF.Unknown else CF.Of(a == b)
  }

  function TupleEq(a: Keys, b: Keys): CF.Sql
    requires |a| == |b|
  {
    if a == [] then CF.Yes else CF.And3(PartEq(a[0], b[0]), TupleEq(a[1..], b[1..]))
  }

  /** The key parts of a group with an absent one: IS NULL where it is, the value where it is not. */
  function PartsAre(a: Keys, g: Keys): CF.Sql
    requires |a| == |g|
  {
    if a == [] then CF.Yes
    else CF.And3(if g[0].None? then CF.Of(a[0].None?) else PartEq(a[0], g[0]), PartsAre(a[1..], g[1..]))
  }

  /** `rows_of`'s condition of one group of the page: among the tuples where it is whole, by its parts where it is
      not. */
  function GroupIs(a: Keys, g: Keys): CF.Sql
    requires |a| == |g|
  {
    if None in g then PartsAre(a, g) else TupleEq(a, g)
  }

  lemma {:induction false} TupleEqYes(a: Keys, b: Keys)
    requires |a| == |b|
    ensures TupleEq(a, b) == CF.Yes <==> a == b && None !in a
    decreases |a|
  {
    if a != [] {
      TupleEqYes(a[1..], b[1..]);
      assert a == [a[0]] + a[1..] && b == [b[0]] + b[1..];
    }
  }

  lemma {:induction false} PartsAreYes(a: Keys, g: Keys)
    requires |a| == |g|
    ensures PartsAre(a, g) == CF.Yes <==> a == g
    decreases |a|
  {
    if a != [] {
      PartsAreYes(a[1..], g[1..]);
      assert a == [a[0]] + a[1..] && g == [g[0]] + g[1..];
    }
  }

  function AnyGroup(a: Keys, page: seq<Keys>): CF.Sql
    requires forall g :: g in page ==> |g| == |a|
  {
    if page == [] then CF.No else CF.Or3(GroupIs(a, page[0]), AnyGroup(a, page[1..]))
  }

  /** The page's rows are the rows whose keys are a group of the page, absent parts included. */
  lemma {:induction false} RowsOfExactly(a: Keys, page: seq<Keys>)
    requires forall g :: g in page ==> |g| == |a|
    ensures AnyGroup(a, page) == CF.Yes <==> a in page
    decreases |page|
  {
    if page != [] {
      RowsOfExactly(a, page[1..]);
      TupleEqYes(a, page[0]);
      PartsAreYes(a, page[0]);
      assert page == [page[0]] + page[1..];
      hide TupleEq, PartsAre;
      assert GroupIs(a, page[0]) == CF.Yes <==> a == page[0];
    }
  }

  // ---- the fold ----------------------------------------------------------------------------------------------------

  datatype CellOut = CellOut(value: CF.Cell, id: nat)
  type Folded = map<Keys, map<string, CellOut>>

  /** A long row the page shows: of one of its groups and one of its items. */
  predicate Shown(r: Row, page: set<Keys>, items: set<string>) {
    r.keys in page && r.item.Some? && r.item.value in items
  }

  /** The cell holds the last shown row of its group and item. */
  ghost predicate Holds(f: Folded, rows: seq<Row>, page: set<Keys>, items: set<string>) {
    && f.Keys == page
    && (forall g, i :: g in page && i in f[g] ==> LastOf(rows, page, items, g, i, f[g][i]))
    && (forall r :: r in rows && Shown(r, page, items) ==> r.item.value in f[r.keys])
  }

  ghost predicate LastOf(rows: seq<Row>, page: set<Keys>, items: set<string>, g: Keys, i: string, c: CellOut) {
    exists k :: 0 <= k < |rows| && rows[k] == Row(c.id, g, Some(i), c.value) && Shown(rows[k], page, items)
             && forall j :: k < j < |rows| ==> !(rows[j].keys == g && rows[j].item == Some(i))
  }

  /** `fold`: the page's groups filled row by row. */
  method Fold(page: set<Keys>, rows: seq<Row>, items: set<string>) returns (at: Folded)
    ensures Holds(at, rows, page, items)
  {
    hide Holds;
    at := map g | g in page :: map[];
    assert Holds(at, rows[..0], page, items) by { NothingHeld(at, page, items); assert rows[..0] == []; }
    for n := 0 to |rows|
      invariant Holds(at, rows[..n], page, items) && at.Keys == page
    {
      var r := rows[n];
      assert rows[..n + 1] == rows[..n] + [r];
      HoldsMore(at, rows[..n], page, items, r);
      if r.keys in at && r.item.Some? && r.item.value in items {
        at := at[r.keys := at[r.keys][r.item.value := CellOut(r.value, r.id)]];
      }
    }
    assert rows[..|rows|] == rows;
  }

  lemma {:induction false} NothingHeld(at: Folded, page: set<Keys>, items: set<string>)
    requires at == map g | g in page :: map[]
    ensures Holds(at, [], page, items)
  {
  }

  lemma {:induction false} HoldsMore(at: Folded, rows: seq<Row>, page: set<Keys>, items: set<string>, r: Row)
    requires Holds(at, rows, page, items)
    ensures var next := if Shown(r, page, items)
                        then at[r.keys := at[r.keys][r.item.value := CellOut(r.value, r.id)]] else at;
            Holds(next, rows + [r], page, items)
  {
    var next := if Shown(r, page, items) then at[r.keys := at[r.keys][r.item.value := CellOut(r.value, r.id)]] else at;
    var all := rows + [r];
    forall g, i | g in page && i in next[g] ensures LastOf(all, page, items, g, i, next[g][i]) {
      if r.keys == g && r.item == Some(i) && Shown(r, page, items) {
        assert all[|rows|] == Row(next[g][i].id, g, Some(i), next[g][i].value);
      } else {
        assert i in at[g] && next[g][i] == at[g][i];
        StillLast(rows, page, items, g, i, at[g][i], r);
      }
    }
  }

  lemma {:induction false} StillLast(rows: seq<Row>, page: set<Keys>, items: set<string>, g: Keys, i: string,
                                     c: CellOut, r: Row)
    requires LastOf(rows, page, items, g, i, c) && g in page
    requires !(r.keys == g && r.item == Some(i) && Shown(r, page, items))
    ensures LastOf(rows + [r], page, items, g, i, c)
  {
    var k :| 0 <= k < |rows| && rows[k] == Row(c.id, g, Some(i), c.value) && Shown(rows[k], page, items)
          && forall j :: k < j < |rows| ==> !(rows[j].keys == g && rows[j].item == Some(i));
    var all := rows + [r];
    assert all[k] == rows[k] && i in items;
    forall j | k < j < |all| ensures !(all[j].keys == g && all[j].item == Some(i)) {
      if j < |rows| { assert all[j] == rows[j]; }
    }
  }

  /** The long rows the cells of a page were. */
  ghost predicate Unpivots(f: Folded, r: Row) {
    r.keys in f && r.item.Some? && r.item.value in f[r.keys] && f[r.keys][r.item.value] == CellOut(r.value, r.id)
  }

  /** No two shown rows share keys and item. */
  predicate OneToACell(rows: seq<Row>, page: set<Keys>, items: set<string>) {
    forall a, b :: a in rows && b in rows && Shown(a, page, items) && Shown(b, page, items) && SameCell(a, b) ==> a == b
  }

  predicate SameCell(a: Row, b: Row) { a.keys == b.keys && a.item == b.item }

  /** Unpivoting a folded page gives back exactly the long rows it shows - nothing lost, nothing invented - exactly when
      no two of them share keys and item. */
  lemma {:induction false} FoldLosesNothingExactly(f: Folded, rows: seq<Row>, page: set<Keys>, items: set<string>)
    requires Holds(f, rows, page, items)
    ensures (forall r :: Unpivots(f, r) <==> r in rows && Shown(r, page, items))
        <==> OneToACell(rows, page, items)
  {
    if OneToACell(rows, page, items) {
      forall r ensures Unpivots(f, r) <==> r in rows && Shown(r, page, items) {
        if r in rows && Shown(r, page, items) {
          var k := CellRow(f, rows, page, items, r.keys, r.item.value);
          assert rows[k] in rows;
        }
        if Unpivots(f, r) {
          var k := CellRow(f, rows, page, items, r.keys, r.item.value);
        }
      }
    }
    if forall r :: Unpivots(f, r) <==> r in rows && Shown(r, page, items) {
      forall a, b | a in rows && b in rows && Shown(a, page, items) && Shown(b, page, items) && SameCell(a, b)
        ensures a == b
      {
        assert Unpivots(f, a) && Unpivots(f, b);
      }
    }
  }

  /** The row a cell was filled from. */
  lemma {:induction false} CellRow(f: Folded, rows: seq<Row>, page: set<Keys>, items: set<string>, g: Keys,
                                   i: string)
    returns (k: nat)
    requires Holds(f, rows, page, items) && g in page && i in f[g]
    ensures k < |rows| && rows[k] == Row(f[g][i].id, g, Some(i), f[g][i].value) && Shown(rows[k], page, items)
  {
    assert LastOf(rows, page, items, g, i, f[g][i]);
    k :| 0 <= k < |rows| && rows[k] == Row(f[g][i].id, g, Some(i), f[g][i].value) && Shown(rows[k], page, items);
  }
}
