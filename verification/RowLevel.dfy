/** The static analysis that decides whether an expression answers once or once per row, and which trees can ask a row's
    value without a row. */
module RowLevel {
  import opened Syntax
  import opened Values
  import opened Meaning

  predicate IsFoldCall(L: Lib, t: Tree) { t.Call? && t.fn in L.shapes && IsFold(L.shapes[t.fn]) }

  /** `_row_level`: does the tree read a row's value outside any fold. */
  predicate ReadsRow(L: Lib, t: Tree)
    decreases t
  {
    match t
    case Lit(_) => false
    case Ref(_) => true
    case Neg(a) => ReadsRow(L, a)
    case Not(a) => ReadsRow(L, a)
    case IsNull(a, _) => ReadsRow(L, a)
    case Logic(_, a, b) => ReadsRow(L, a) || ReadsRow(L, b)
    case Cmp(_, a, b) => ReadsRow(L, a) || ReadsRow(L, b)
    case Arith(_, a, b) => ReadsRow(L, a) || ReadsRow(L, b)
    case Case(subject, whens, otherwise) =>
      || (subject.Some? && ReadsRow(L, subject.value))
      || (otherwise.Some? && ReadsRow(L, otherwise.value))
      || (exists w :: w in whens && (ReadsRow(L, w.test) || ReadsRow(L, w.then_)))
    case Call(_, args, _) => !IsFoldCall(L, t) && exists a :: a in args && ReadsRow(L, a)
  }

  /** The argument lists a fold works by itself: `once` with the row it is asked on, `across` on each row, `alone`
      with no row. */
  predicate ManyAtOnce(L: Lib, t: Tree) {
    IsFoldCall(L, t) && L.shapes[t.fn].ManyFold? && |t.args| > 1
  }

  predicate Arity(L: Lib, t: Tree) { t.Call? && t.fn in L.shapes && Takes(L.shapes[t.fn], |t.args|) }

  /** Can working the tree - on a row or on none - come to a row's value where there is no row. */
  predicate Loose(L: Lib, t: Tree, onRow: bool)
    decreases t
  {
    match t
    case Lit(_) => false
    case Ref(_) => !onRow
    case Neg(a) => Loose(L, a, onRow)
    case Not(a) => Loose(L, a, onRow)
    case IsNull(a, _) => Loose(L, a, onRow)
    case Logic(_, a, b) => Loose(L, a, onRow) || Loose(L, b, onRow)
    case Cmp(_, a, b) => Loose(L, a, onRow) || Loose(L, b, onRow)
    case Arith(_, a, b) => Loose(L, a, onRow) || Loose(L, b, onRow)
    case Case(subject, whens, otherwise) =>
      || (subject.Some? && Loose(L, subject.value, onRow))
      || (otherwise.Some? && Loose(L, otherwise.value, onRow))
      || (exists w :: w in whens && (Loose(L, w.test, onRow) || Loose(L, w.then_, onRow)))
    case Call(_, args, _) =>
      if IsFoldCall(L, t) && !ManyAtOnce(L, t) then LooseColumns(L, t) || LooseParams(L, t)
      else exists a :: a in args && Loose(L, a, onRow)
  }

  /** A fold's columns are worked on each row. */
  predicate LooseColumns(L: Lib, t: Tree)
    requires IsFoldCall(L, t)
    decreases t, 0
  {
    || (|t.args| > 0 && Loose(L, t.args[0], true))
    || (L.shapes[t.fn].PairFold? && |t.args| > 1 && Loose(L, t.args[1], true))
  }

  /** A fold's parameters are worked with no row. */
  predicate LooseParams(L: Lib, t: Tree)
    requires IsFoldCall(L, t)
    decreases t, 0
  {
    !L.shapes[t.fn].PairFold? && exists k :: 1 <= k < |t.args| && Loose(L, t.args[k], false)
  }

  /** Is there, outside any other fold, a fold that can come to a missing row: a multi-argument row-wise one over
      such an argument, or one with such a parameter or column. */
  predicate LooseFold(L: Lib, t: Tree)
    decreases t
  {
    match t
    case Lit(_) => false
    case Ref(_) => false
    case Neg(a) => LooseFold(L, a)
    case Not(a) => LooseFold(L, a)
    case IsNull(a, _) => LooseFold(L, a)
    case Logic(_, a, b) => LooseFold(L, a) || LooseFold(L, b)
    case Cmp(_, a, b) => LooseFold(L, a) || LooseFold(L, b)
    case Arith(_, a, b) => LooseFold(L, a) || LooseFold(L, b)
    case Case(subject, whens, otherwise) =>
      || (subject.Some? && LooseFold(L, subject.value))
      || (otherwise.Some? && LooseFold(L, otherwise.value))
      || (exists w :: w in whens && (LooseFold(L, w.test) || LooseFold(L, w.then_)))
    case Call(_, args, _) =>
      if ManyAtOnce(L, t) then exists a :: a in args && Loose(L, a, false)
      else if IsFoldCall(L, t) then LooseColumns(L, t) || LooseParams(L, t)
      else exists a :: a in args && LooseFold(L, a)
  }

  /** The analysis is exact up to the folds it does not look into: what can miss a row is what it calls row-level,
      and the two kinds of fold places it leaves. */
  lemma {:induction false} LooseExactly(L: Lib, t: Tree)
    ensures Loose(L, t, false) <==> ReadsRow(L, t) || LooseFold(L, t)
    decreases t
  {
    match t
    case Lit(_) =>
    case Ref(_) =>
    case Neg(a) => LooseExactly(L, a);
    case Not(a) => LooseExactly(L, a);
    case IsNull(a, _) => LooseExactly(L, a);
    case Logic(_, a, b) => LooseExactly(L, a); LooseExactly(L, b);
    case Cmp(_, a, b) => LooseExactly(L, a); LooseExactly(L, b);
    case Arith(_, a, b) => LooseExactly(L, a); LooseExactly(L, b);
    case Case(subject, whens, otherwise) =>
      if subject.Some? { LooseExactly(L, subject.value); }
      if otherwise.Some? { LooseExactly(L, otherwise.value); }
      forall w | w in whens
        ensures Loose(L, w.test, false) <==> ReadsRow(L, w.test) || LooseFold(L, w.test)
        ensures Loose(L, w.then_, false) <==> ReadsRow(L, w.then_) || LooseFold(L, w.then_)
      {
        LooseExactly(L, w.test);
        LooseExactly(L, w.then_);
      }
    case Call(_, args, _) =>
      forall a | a in args
        ensures Loose(L, a, false) <==> ReadsRow(L, a) || LooseFold(L, a)
      {
        LooseExactly(L, a);
      }
  }

  // ---- what a run can fail with ------------------------------------------------------------------------------------

  predicate Among(rows: seq<Row>, row: Option<Row>) {
    row.Some? ==> exists i :: 0 <= i < |rows| && rows[i].id == row.value.id
  }

  /** No row is lost, and a row's value is missed only where the tree is loose. */
  predicate Safe<T>(r: Run<T>, loose: bool) {
    r.Failed? ==> r.why != Lost && (r.why == NoRow ==> loose)
  }

  lemma {:induction false} SelectHolds<X>(rows: seq<Row>, col: seq<X>, p: nat)
    requires |rows| == |col| && p < |rows|
    ensures rows[p] in Select(rows, col, col[p])
  {
    var n := |rows| - 1;
    if p < n {
      SelectHolds(rows[..n], col[..n], p);
    }
  }

  lemma {:induction false} StaysAmong<X>(rows: seq<Row>, col: seq<X>, p: nat, row: Row)
    requires |rows| == |col| && p < |rows| && rows[p].id == row.id
    ensures Among(Select(rows, col, col[p]), Some(row))
  {
    SelectHolds(rows, col, p);
  }

  /** Over every tree and row list: an asked row is always found among the rows it is asked in - the index lookup
      never misses - and only a loose tree comes to the refusal «is a row's value». */
  lemma {:induction false} EvalSafe(L: Lib, t: Tree, rows: seq<Row>, row: Option<Row>)
    requires Among(rows, row)
    ensures Safe(Eval(L, t, rows, row), Loose(L, t, row.Some?))
    decreases t, 5, 0
  {
    match t
    case Lit(_) =>
    case Ref(_) =>
    case Neg(a) => EvalSafe(L, a, rows, row);
    case Not(a) => EvalSafe(L, a, rows, row);
    case IsNull(a, _) => EvalSafe(L, a, rows, row);
    case Logic(_, a, b) => EvalSafe(L, a, rows, row); EvalSafe(L, b, rows, row);
    case Cmp(_, a, b) => EvalSafe(L, a, rows, row); EvalSafe(L, b, rows, row);
    case Arith(_, a, b) => EvalSafe(L, a, rows, row); EvalSafe(L, b, rows, row);
    case Case(_, _, _) => if row.None? { CaseOnceSafe(L, t, 0, rows); } else { CaseOnRowSafe(L, t, rows, row.value); }
    case Call(fn, args, _) =>
      if Arity(L, t) {
        if IsIf(L, t) {
          IfSafe(L, t, rows, row);
        } else if L.shapes[fn].RowShape? {
          ArgsSafe(L, t, 0, rows, row);
        } else {
          FoldSafe(L, t, rows, row);
        }
      }
  }

  lemma {:induction false} ArgsSafe(L: Lib, t: Tree, k: nat, rows: seq<Row>, row: Option<Row>)
    requires t.Call? && k <= |t.args| && Among(rows, row)
    ensures Safe(EvalArgs(L, t, k, rows, row), exists a :: a in t.args && Loose(L, a, row.Some?))
    decreases t, 1, |t.args| - k
  {
    if k < |t.args| {
      assert t.args[k] in t.args;
      EvalSafe(L, t.args[k], rows, row);
      ArgsSafe(L, t, k + 1, rows, row);
    }
  }

  lemma {:induction false} AcrossSafe(L: Lib, arg: Tree, rows: seq<Row>, i: nat)
    requires i < |rows|
    ensures Safe(Across(L, arg, rows, rows[i]), Loose(L, arg, true))
    decreases arg, 6, 0
  {
    if !arg.Ref? {
      assert Among(rows, Some(rows[i]));
      EvalSafe(L, arg, rows, Some(rows[i]));
    }
  }

  lemma {:induction false} ItemsSafe(L: Lib, arg: Tree, rows: seq<Row>, i: nat)
    requires i <= |rows|
    ensures Safe(ItemsOver(L, arg, rows, i), Loose(L, arg, true))
    decreases arg, 7, |rows| - i
  {
    if i < |rows| {
      AcrossSafe(L, arg, rows, i);
      ItemsSafe(L, arg, rows, i + 1);
    }
  }

  lemma {:induction false} PairsSafe(L: Lib, t: Tree, rows: seq<Row>, i: nat)
    requires t.Call? && |t.args| == 2 && i <= |rows|
    ensures Safe(PairsOver(L, t, rows, i), Loose(L, t.args[0], true) || Loose(L, t.args[1], true))
    decreases t, 1, |rows| - i
  {
    if i < |rows| {
      AcrossSafe(L, t.args[0], rows, i);
      AcrossSafe(L, t.args[1], rows, i);
      PairsSafe(L, t, rows, i + 1);
    }
  }

  lemma {:induction false} ParamsSafe(L: Lib, t: Tree, k: nat, rows: seq<Row>)
    requires t.Call? && 1 <= k <= |t.args|
    ensures Safe(Params(L, t, k, rows), exists j :: 1 <= j < |t.args| && Loose(L, t.args[j], false))
    decreases t, 1, |t.args| - k
  {
    if k < |t.args| {
      EvalSafe(L, t.args[k], rows, None);
      ParamsSafe(L, t, k + 1, rows);
    }
  }

  lemma {:induction false} FoldSafe(L: Lib, t: Tree, rows: seq<Row>, row: Option<Row>)
    requires Arity(L, t) && IsFoldCall(L, t) && Among(rows, row)
    ensures Safe(Fold(L, t, rows, row), Loose(L, t, row.Some?))
    decreases t, 4, 0
  {
    if ManyAtOnce(L, t) {
      ArgsSafe(L, t, 0, rows, row);
    } else if L.shapes[t.fn].PairFold? {
      PairsSafe(L, t, rows, 0);
    } else if t.args != [] {
      ItemsSafe(L, t.args[0], rows, 0);
      ParamsSafe(L, t, 1, rows);
    }
  }

  /** A branching node's conditions. */
  predicate LooseTests(L: Lib, t: Tree, onRow: bool)
    requires Branches(L, t)
  {
    if t.Case? then
      || (t.subject.Some? && Loose(L, t.subject.value, onRow))
      || (exists w :: w in t.whens && Loose(L, w.test, onRow))
    else Loose(L, t.args[0], onRow)
  }

  lemma {:induction false} TestSafe(L: Lib, t: Tree, k: nat, rows: seq<Row>, row: Option<Row>)
    requires Branches(L, t) && k < Tests(L, t) && Among(rows, row)
    ensures Safe(Test(L, t, k, rows, row), LooseTests(L, t, row.Some?))
    decreases t, 1, 0
  {
    if t.Case? {
      var w := t.whens[k];
      assert w in t.whens && w.test < w;
      if t.subject.Some? { EvalSafe(L, t.subject.value, rows, row); }
      EvalSafe(L, w.test, rows, row);
    } else {
      EvalSafe(L, t.args[0], rows, row);
    }
  }

  lemma {:induction false} ColumnSafe(L: Lib, t: Tree, k: nat, rows: seq<Row>, i: nat)
    requires Branches(L, t) && k < Tests(L, t) && i <= |rows|
    ensures Safe(Column(L, t, k, rows, i), LooseTests(L, t, true))
    decreases t, 2, |rows| - i
  {
    if i < |rows| {
      assert Among(rows, Some(rows[i]));
      TestSafe(L, t, k, rows, Some(rows[i]));
      ColumnSafe(L, t, k, rows, i + 1);
    }
  }

  lemma {:induction false} ColumnsSafe(L: Lib, t: Tree, k: nat, rows: seq<Row>)
    requires Branches(L, t) && k <= Tests(L, t)
    ensures Safe(Columns(L, t, k, rows), LooseTests(L, t, true))
    decreases t, 3, Tests(L, t) - k
  {
    if k < Tests(L, t) {
      ColumnSafe(L, t, k, rows, 0);
      ColumnsSafe(L, t, k + 1, rows);
    }
  }

  lemma {:induction false} IfSafe(L: Lib, t: Tree, rows: seq<Row>, row: Option<Row>)
    requires IsIf(L, t) && Among(rows, row)
    ensures Safe(if row.None? then IfOnce(L, t, rows) else IfOnRow(L, t, rows, row.value), Loose(L, t, row.Some?))
    decreases t, 4, 0
  {
    assert t.args[0] in t.args && t.args[1] in t.args && t.args[2] in t.args;
    if row.None? {
      TestSafe(L, t, 0, rows, None);
      EvalSafe(L, t.args[1], rows, None);
      EvalSafe(L, t.args[2], rows, None);
    } else {
      ColumnSafe(L, t, 0, rows, 0);
      var c, p := Column(L, t, 0, rows, 0), Place(rows, row.value);
      if c.Done? && p.Some? {
        var sent := Select(rows, c.v, c.v[p.value]);
        StaysAmong(rows, c.v, p.value, row.value);
        EvalSafe(L, t.args[1], sent, row);
        EvalSafe(L, t.args[2], sent, row);
      }
    }
  }

  lemma {:induction false} CaseOnceSafe(L: Lib, t: Tree, k: nat, rows: seq<Row>)
    requires t.Case? && k <= |t.whens|
    ensures Safe(CaseOnce(L, t, k, rows), Loose(L, t, false))
    decreases t, 4, |t.whens| - k
  {
    if k == |t.whens| {
      if t.otherwise.Some? { EvalSafe(L, t.otherwise.value, rows, None); }
    } else {
      var w := t.whens[k];
      assert w in t.whens && w.then_ < w;
      TestSafe(L, t, k, rows, None);
      EvalSafe(L, w.then_, rows, None);
      CaseOnceSafe(L, t, k + 1, rows);
    }
  }

  lemma {:induction false} CaseOnRowSafe(L: Lib, t: Tree, rows: seq<Row>, row: Row)
    requires t.Case? && Among(rows, Some(row))
    ensures Safe(CaseOnRow(L, t, rows, row), Loose(L, t, true))
    decreases t, 4, 0
  {
    ColumnsSafe(L, t, 0, rows);
    var cols, p := Columns(L, t, 0, rows), Place(rows, row);
    if cols.Done? && p.Some? {
      var taken := Taken(cols.v, |rows|);
      var k := taken[p.value];
      StaysAmong(rows, taken, p.value, row);
      if k >= 0 {
        var w := t.whens[k];
        assert w in t.whens && w.then_ < w;
        EvalSafe(L, w.then_, Select(rows, taken, k), Some(row));
      } else if t.otherwise.Some? {
        EvalSafe(L, t.otherwise.value, Select(rows, taken, k), Some(row));
      }
    }
  }

  /** A tree the analysis calls not row-level, with no such fold in it, is never refused for want of a row. */
  lemma {:induction false} NotRowLevelNeverMissesARow(L: Lib, t: Tree, rows: seq<Row>)
    requires !ReadsRow(L, t) && !LooseFold(L, t)
    ensures var r := Eval(L, t, rows, None); r.Failed? ==> r.why == Several || r.why == Refused
  {
    LooseExactly(L, t);
    EvalSafe(L, t, rows, None);
  }
}
