/** What a fold is handed, and what one name of a row is worth: by the cells of the rows alone. */
module FoldLaws {
  import opened Syntax
  import opened Values
  import opened Meaning
  import opened RowLevel
  import opened OperatorLaws

  // ---- the items ---------------------------------------------------------------------------------------------------

  /** What the fold's column is on a row: a name's cell as the row holds it, any other tree's value. */
  predicate CellOn(L: Lib, arg: Tree, rows: seq<Row>, row: Row, c: Cell) {
    if arg.Ref? then c == Held(row, arg.name) else c.One? && Is(L, arg, rows, Some(row), c.v)
  }

  predicate FoldColumn(L: Lib, arg: Tree, rows: seq<Row>, cells: seq<Cell>) {
    |cells| == |rows| && forall j :: 0 <= j < |rows| ==> CellOn(L, arg, rows, rows[j], cells[j])
  }

  /** The cells' items row after row, each with its row's time. */
  function Laid(rows: seq<Row>, cells: seq<Cell>): seq<Item>
    requires |rows| == |cells|
  {
    if rows == [] then []
    else
      var n := |rows| - 1;
      Laid(rows[..n], cells[..n]) + ItemsOf(cells[n], rows[n].time)
  }

  /** A fold of one column is the library's fold of those items - once a value where it says so - with its parameters'
      numbers. */
  lemma {:induction false} FoldSees(L: Lib, t: Tree, rows: seq<Row>, row: Option<Row>, cells: seq<Cell>,
                                    params: seq<Scalar>)
    requires Arity(L, t) && IsFoldCall(L, t) && !L.shapes[t.fn].PairFold? && t.args != [] && !ManyAtOnce(L, t)
    requires FoldColumn(L, t.args[0], rows, cells)
    requires |params| == |t.args| - 1
    requires forall k :: 0 <= k < |params| ==> Is(L, t.args[k + 1], rows, None, params[k])
    ensures var items := Laid(rows, cells);
            var kept := if t.distinct then DistinctItems(items) else items;
            Is(L, t, rows, row,
               if Instants(L, t) then L.foldByTime(t.fn, kept) else L.fold(t.fn, kept, Numbers(L, params)))
  {
    assert Eval(L, t, rows, row) == Fold(L, t, rows, row);
    ItemsLaid(L, t.args[0], rows, cells, 0);
    assert cells[0..] == cells && rows[0..] == rows;
    ParamsGiven(L, t, 1, rows, params);
    assert params[0..] == params;
    hide Eval, ItemsOver, Params, Laid, DistinctItems, Numbers, CellOn;
  }

  /** The least and the greatest of a column of times are by the instants. */
  predicate Instants(L: Lib, t: Tree)
    requires t.Call? && t.args != []
  {
    && t.fn in {"Min", "Max"}
    && match t.args[0] case Ref(name) => name in L.columnTypes && L.columnTypes[name] == "datetime" case _ => false
  }

  /** A count with no column counts the rows. */
  lemma {:induction false} CountIsTheRows(L: Lib, t: Tree, rows: seq<Row>, row: Option<Row>)
    requires Arity(L, t) && L.shapes[t.fn].CountFold? && t.args == []
    ensures Is(L, t, rows, row, Number(|rows| as real))
  {
  }

  /** A row-wise fold of several columns, and a row function, are the library's of the arguments' own values, in their
      order. */
  lemma {:induction false} ArgumentsInOrder(L: Lib, t: Tree, rows: seq<Row>, row: Option<Row>, vs: seq<Scalar>)
    requires Arity(L, t) && |vs| == |t.args| && forall k :: 0 <= k < |vs| ==> Is(L, t.args[k], rows, row, vs[k])
    ensures ManyAtOnce(L, t) ==> Is(L, t, rows, row, L.fold(t.fn, Each(vs), []))
    ensures L.shapes[t.fn].RowShape? && L.rowFn(t.fn, vs).value.Some? ==>
              Is(L, t, rows, row, L.rowFn(t.fn, vs).value.value)
    ensures L.shapes[t.fn].RowShape? && L.rowFn(t.fn, vs).value.None? ==>
              FailsWith(Eval(L, t, rows, row), Refused)
  {
    ArgsGiven(L, t, 0, rows, row, vs);
    assert vs[0..] == vs;
    EachIs(vs);
    if ManyAtOnce(L, t) { assert Eval(L, t, rows, row) == Fold(L, t, rows, row); }
    hide EvalArgs, Each, ItemsOfValues;
  }

  /** The values that are there, without a time. */
  function Each(vs: seq<Scalar>): seq<Item> {
    if vs == [] then [] else (if Void(vs[0]) then [] else [Item(vs[0], None)]) + Each(vs[1..])
  }

  lemma {:induction false} EachIs(vs: seq<Scalar>)
    ensures ItemsOfValues(vs) == Each(vs)
  {
    if vs != [] {
      VoidIs(vs[0]);
      EachIs(vs[1..]);
    }
  }

  lemma {:induction false} ArgsGiven(L: Lib, t: Tree, k: nat, rows: seq<Row>, row: Option<Row>, vs: seq<Scalar>)
    requires t.Call? && k <= |t.args| && |vs| == |t.args|
    requires forall j :: 0 <= j < |vs| ==> Is(L, t.args[j], rows, row, vs[j])
    ensures EvalArgs(L, t, k, rows, row).Done? && EvalArgs(L, t, k, rows, row).v == vs[k..]
    decreases |t.args| - k
  {
    hide Eval;
    if k < |t.args| {
      ArgsGiven(L, t, k + 1, rows, row, vs);
      assert Is(L, t.args[k], rows, row, vs[k]);
    }
  }

  /** A fold of two columns is the library's of the pairs, row after row, where both sides hold a value. */
  lemma {:induction false} PairsSeen(L: Lib, t: Tree, rows: seq<Row>, row: Option<Row>, left: seq<Scalar>,
                                     right: seq<Scalar>)
    requires Arity(L, t) && L.shapes[t.fn].PairFold? && |left| == |rows| == |right|
    requires forall j :: 0 <= j < |rows| ==> SideOn(L, t.args[0], rows, rows[j], left[j])
    requires forall j :: 0 <= j < |rows| ==> SideOn(L, t.args[1], rows, rows[j], right[j])
    ensures Is(L, t, rows, row, L.pairFold(t.fn, Paired(left, right)))
  {
    PairsLaid(L, t, rows, left, right, 0);
    assert left[0..] == left && right[0..] == right;
    assert Eval(L, t, rows, row) == Fold(L, t, rows, row);
    hide Eval, PairsOver, SideOn;
  }

  /** The side's one value on a row: a name's own, any other tree's value, nothing for a text of blanks. */
  predicate SideOn(L: Lib, arg: Tree, rows: seq<Row>, row: Row, v: Scalar) {
    if arg.Ref? then OneOf(Held(row, arg.name)).Done? && OneOf(Held(row, arg.name)).v == v
    else
      && Eval(L, arg, rows, Some(row)).Done?
      && v == if Void(Eval(L, arg, rows, Some(row)).v) then Empty else Eval(L, arg, rows, Some(row)).v
  }

  function Paired(left: seq<Scalar>, right: seq<Scalar>): seq<(Scalar, Scalar)>
    requires |left| == |right|
  {
    if left == [] then []
    else (if Void(left[0]) || Void(right[0]) then [] else [(left[0], right[0])]) + Paired(left[1..], right[1..])
  }

  lemma {:induction false} SideIs(L: Lib, arg: Tree, rows: seq<Row>, row: Row, v: Scalar)
    requires SideOn(L, arg, rows, row, v)
    ensures OneAcross(L, arg, rows, row).Done? && OneAcross(L, arg, rows, row).v == v
  {
    if !arg.Ref? { VoidIs(Eval(L, arg, rows, Some(row)).v); }
    hide Eval, Void, Blank;
  }

  lemma {:induction false} PairsLaid(L: Lib, t: Tree, rows: seq<Row>, left: seq<Scalar>, right: seq<Scalar>, i: nat)
    requires t.Call? && |t.args| == 2 && |left| == |rows| == |right| && i <= |rows|
    requires forall j :: 0 <= j < |rows| ==> SideOn(L, t.args[0], rows, rows[j], left[j])
    requires forall j :: 0 <= j < |rows| ==> SideOn(L, t.args[1], rows, rows[j], right[j])
    ensures PairsOver(L, t, rows, i).Done? && PairsOver(L, t, rows, i).v == Paired(left[i..], right[i..])
    decreases |rows| - i
  {
    if i < |rows| {
      PairsLaid(L, t, rows, left, right, i + 1);
      SideIs(L, t.args[0], rows, rows[i], left[i]);
      SideIs(L, t.args[1], rows, rows[i], right[i]);
      VoidIs(left[i]);
      VoidIs(right[i]);
      assert left[i..][1..] == left[i + 1..] && right[i..][1..] == right[i + 1..];
      hide OneAcross, Void, Blank, SideOn;
    }
  }

  /** A list's items are its cells' items one after another, however deep; a value is its own item unless it is
      nothing. */
  lemma {:induction false} ItemsInOrder(c: Cell, more: seq<Cell>, v: Scalar, t: Option<real>)
    ensures ItemsOf(Many([c] + more), t) == ItemsOf(c, t) + ItemsOf(Many(more), t)
    ensures ItemsOf(Many([]), t) == [] && ItemsOf(One(v), t) == if Void(v) then [] else [Item(v, t)]
  {
    VoidIs(v);
    assert ([c] + more)[0] == c && ([c] + more)[1..] == more;
    hide Void, Blank;
  }

  function Numbers(L: Lib, vs: seq<Scalar>): seq<Option<real>> {
    if vs == [] then [] else [NumberOf(L, vs[0])] + Numbers(L, vs[1..])
  }

  lemma {:induction false} ItemsLaid(L: Lib, arg: Tree, rows: seq<Row>, cells: seq<Cell>, i: nat)
    requires FoldColumn(L, arg, rows, cells) && i <= |rows|
    ensures ItemsOver(L, arg, rows, i).Done? && ItemsOver(L, arg, rows, i).v == Laid(rows[i..], cells[i..])
    decreases |rows| - i
  {
    if i < |rows| {
      ItemsLaid(L, arg, rows, cells, i + 1);
      assert CellOn(L, arg, rows, rows[i], cells[i]);
      LaidFirst(rows[i..], cells[i..]);
      assert rows[i..][1..] == rows[i + 1..] && cells[i..][1..] == cells[i + 1..];
      hide Eval, Laid, ItemsOf;
    }
  }

  lemma {:induction false} LaidFirst(rows: seq<Row>, cells: seq<Cell>)
    requires |rows| == |cells| && rows != []
    ensures Laid(rows, cells) == ItemsOf(cells[0], rows[0].time) + Laid(rows[1..], cells[1..])
    decreases |rows|
  {
    var n := |rows| - 1;
    hide ItemsOf;
    if n > 0 {
      LaidFirst(rows[..n], cells[..n]);
      assert rows[..n][1..] == rows[1..][..n - 1] && cells[..n][1..] == cells[1..][..n - 1];
      LaidGlue(ItemsOf(cells[0], rows[0].time), Laid(rows[..n][1..], cells[..n][1..]), ItemsOf(cells[n], rows[n].time));
    }
  }

  lemma {:induction false} LaidGlue(a: seq<Item>, b: seq<Item>, c: seq<Item>)
    ensures a + b + c == a + (b + c)
  {
  }

  lemma {:induction false} ParamsGiven(L: Lib, t: Tree, k: nat, rows: seq<Row>, params: seq<Scalar>)
    requires t.Call? && 1 <= k <= |t.args| && |params| == |t.args| - 1
    requires forall j :: 0 <= j < |params| ==> Is(L, t.args[j + 1], rows, None, params[j])
    ensures Params(L, t, k, rows).Done? && Params(L, t, k, rows).v == Numbers(L, params[k - 1..])
    decreases |t.args| - k
  {
    if k < |t.args| {
      ParamsGiven(L, t, k + 1, rows, params);
      assert Is(L, t.args[k - 1 + 1], rows, None, params[k - 1]);
      assert params[k - 1..][1..] == params[k..];
      hide Eval;
    }
  }

  // ---- one value of a name, each value once ------------------------------------------------------------------------

  /** A name with several values on a row is refused exactly where two of its items differ; else it is their one value,
      or nothing. */
  lemma {:induction false} OneValueExactly(c: Cell)
    ensures var items := ItemsOf(c, None);
            && (OneOf(c).Failed? ==> OneOf(c).why == Several)
            && (OneOf(c).Failed? <==> exists i, j :: 0 <= i < |items| && 0 <= j < |items| && items[i].v != items[j].v)
            && (OneOf(c).Done? ==>
                  if items == [] then OneOf(c).v == Empty
                  else forall i :: 0 <= i < |items| ==> items[i].v == OneOf(c).v)
  {
    var items := ItemsOf(c, None);
    if c.Many? {
      var vs := DistinctValues(items);
      EachValue(items);
      hide DistinctValues, ItemsOfAll;
      assert items == ItemsOf(c, None);
      if |vs| > 1 {
        assert vs[0] in vs && vs[1] in vs && vs[0] != vs[1];
      } else {
        forall i | 0 <= i < |items| ensures items[i].v == vs[0] { assert items[i].v in vs; }
      }
    }
  }

  /** The values of items, each of them and each once. */
  lemma {:induction false} EachValue(items: seq<Item>)
    ensures var vs := DistinctValues(items);
            && (forall v :: v in vs <==> exists i :: 0 <= i < |items| && items[i].v == v)
            && (forall i, j :: 0 <= i < j < |vs| ==> vs[i] != vs[j])
            && (vs == [] <==> items == [])
    decreases |items|
  {
    if items != [] {
      var n := |items| - 1;
      EachValue(items[..n]);
      var before, vs := DistinctValues(items[..n]), DistinctValues(items);
      hide DistinctValues;
      forall v ensures v in vs <==> exists i :: 0 <= i < |items| && items[i].v == v {
        if v in before {
          var i :| 0 <= i < n && items[..n][i].v == v;
          assert items[i].v == v;
        }
        if exists i :: 0 <= i < |items| && items[i].v == v {
          var i :| 0 <= i < |items| && items[i].v == v;
          if i < n { assert items[..n][i].v == v; }
        }
      }
    }
  }

  /** «distinct» keeps one item a value, in the order the values come first. */
  lemma {:induction false} DistinctByValue(items: seq<Item>)
    ensures var kept, vs := DistinctItems(items), DistinctValues(items);
            |kept| == |vs| && forall k :: 0 <= k < |kept| ==> kept[k].v == vs[k]
    decreases |items|
  {
    if items != [] {
      var n := |items| - 1;
      var before, vs, it := DistinctItems(items[..n]), DistinctValues(items[..n]), items[n];
      DistinctByValue(items[..n]);
      EachValue(items[..n]);
      assert DistinctItems(items) == PutItem(before, it);
      assert DistinctValues(items) == if it.v in vs then vs else vs + [it.v];
      hide DistinctItems, DistinctValues, PutItem;
      forall i, j | 0 <= i < j < |before| ensures before[i].v != before[j].v { assert vs[i] != vs[j]; }
      PutKeeps(before, it);
      if it.v in vs {
        var k :| 0 <= k < |vs| && vs[k] == it.v;
        assert before[k].v == it.v;
      } else {
        forall k | 0 <= k < |before| ensures before[k].v != it.v { assert vs[k] in vs; }
      }
    }
  }

  /** And of each value the last item. */
  lemma {:induction false} DistinctKeepsLast(items: seq<Item>)
    ensures forall k :: 0 <= k < |DistinctItems(items)| ==> LastOf(items, DistinctItems(items)[k])
    decreases |items|
  {
    if items != [] {
      var n := |items| - 1;
      var before, vs, it := DistinctItems(items[..n]), DistinctValues(items[..n]), items[n];
      DistinctKeepsLast(items[..n]);
      DistinctByValue(items[..n]);
      EachValue(items[..n]);
      var kept := DistinctItems(items);
      assert kept == PutItem(before, it);
      hide DistinctItems, DistinctValues, PutItem, LastOf;
      forall i, j | 0 <= i < j < |before| ensures before[i].v != before[j].v { assert vs[i] != vs[j]; }
      PutKeeps(before, it);
      LastIsLast(items);
      forall k | 0 <= k < |kept| ensures LastOf(items, kept[k]) {
        if kept[k] != it { LastStays(items, kept[k]); }
      }
    }
  }

  lemma {:induction false} LastIsLast(items: seq<Item>)
    requires items != []
    ensures LastOf(items, items[|items| - 1])
  {
  }

  /** The item is there and no later one has its value. */
  ghost predicate LastOf(items: seq<Item>, it: Item) {
    exists i :: 0 <= i < |items| && items[i] == it && forall j :: i < j < |items| ==> items[j].v != it.v
  }

  lemma {:induction false} LastStays(items: seq<Item>, it: Item)
    requires items != [] && LastOf(items[..|items| - 1], it) && items[|items| - 1].v != it.v
    ensures LastOf(items, it)
  {
    var n := |items| - 1;
    var i :| 0 <= i < n && items[..n][i] == it && forall j :: i < j < n ==> items[..n][j].v != it.v;
    forall j | i < j < |items| ensures items[j].v != it.v { if j < n { assert items[..n][j] == items[j]; } }
  }

  lemma {:induction false} PutKeeps(kept: seq<Item>, it: Item)
    requires forall i, j :: 0 <= i < j < |kept| ==> kept[i].v != kept[j].v
    ensures var put := PutItem(kept, it);
            && (if exists k :: 0 <= k < |kept| && kept[k].v == it.v then |put| == |kept| else put == kept + [it])
            && forall k :: 0 <= k < |kept| ==> put[k] == if kept[k].v == it.v then it else kept[k]
    decreases |kept|
  {
    if kept != [] {
      assert forall i :: 0 <= i < |kept| - 1 ==> kept[1..][i] == kept[i + 1];
      if kept[0].v != it.v {
        PutKeeps(kept[1..], it);
        if exists k :: 0 <= k < |kept| && kept[k].v == it.v {
          var k :| 0 <= k < |kept| && kept[k].v == it.v;
          assert kept[1..][k - 1].v == it.v;
        }
      }
    }
  }
}
