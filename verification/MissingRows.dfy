/** Which runs come to «is a row's value»: what the analysis leaves, held against what an evaluation does. Over rows
    that hold one value a name and a library whose row functions answer, nothing else can refuse; then a place worked on
    every run decides, and in a tree that does not branch every place is. */
module MissingRows {
  import opened Syntax
  import opened Values
  import opened Meaning
  import opened RowLevel
  import Printer

  /** Every call takes the arguments it has: what the parser builds. */
  predicate Fits(L: Lib, t: Tree)
    decreases t
  {
    match t
    case Lit(_) => true
    case Ref(_) => true
    case Neg(a) => Fits(L, a)
    case Not(a) => Fits(L, a)
    case IsNull(a, _) => Fits(L, a)
    case Logic(_, a, b) => Fits(L, a) && Fits(L, b)
    case Cmp(_, a, b) => Fits(L, a) && Fits(L, b)
    case Arith(_, a, b) => Fits(L, a) && Fits(L, b)
    case Case(subject, whens, otherwise) =>
      && (subject.Some? ==> Fits(L, subject.value))
      && (otherwise.Some? ==> Fits(L, otherwise.value))
      && (forall w :: w in whens ==> Fits(L, w.test) && Fits(L, w.then_))
    case Call(_, args, _) => Arity(L, t) && forall a :: a in args ==> Fits(L, a)
  }

  /** Whatever the parser builds fits. */
  lemma {:induction false} BuiltFits(T: Table, L: Lib, t: Tree)
    requires Printer.Built(T, t) && L.shapes == T.shapes
    ensures Fits(L, t)
    decreases t
  {
    match t
    case Lit(_) =>
    case Ref(_) =>
    case Neg(a) => BuiltFits(T, L, a);
    case Not(a) => BuiltFits(T, L, a);
    case IsNull(a, _) => BuiltFits(T, L, a);
    case Logic(_, a, b) => BuiltFits(T, L, a); BuiltFits(T, L, b);
    case Cmp(_, a, b) => BuiltFits(T, L, a); BuiltFits(T, L, b);
    case Arith(_, a, b) => BuiltFits(T, L, a); BuiltFits(T, L, b);
    case Case(subject, whens, otherwise) =>
      if subject.Some? { BuiltFits(T, L, subject.value); }
      if otherwise.Some? { BuiltFits(T, L, otherwise.value); }
      forall w | w in whens ensures Fits(L, w.test) && Fits(L, w.then_) {
        BuiltFits(T, L, w.test);
        BuiltFits(T, L, w.then_);
      }
    case Call(_, args, _) =>
      forall a | a in args ensures Fits(L, a) { BuiltFits(T, L, a); }
  }

  /** No If and no case. */
  predicate BranchFree(L: Lib, t: Tree)
    decreases t
  {
    match t
    case Lit(_) => true
    case Ref(_) => true
    case Neg(a) => BranchFree(L, a)
    case Not(a) => BranchFree(L, a)
    case IsNull(a, _) => BranchFree(L, a)
    case Logic(_, a, b) => BranchFree(L, a) && BranchFree(L, b)
    case Cmp(_, a, b) => BranchFree(L, a) && BranchFree(L, b)
    case Arith(_, a, b) => BranchFree(L, a) && BranchFree(L, b)
    case Case(_, _, _) => false
    case Call(_, args, _) => !IsIf(L, t) && forall a :: a in args ==> BranchFree(L, a)
  }

  predicate OneEach(row: Row) { forall name :: name in row.cells ==> OneOf(row.cells[name]).Done? }

  ghost predicate Answers(L: Lib) { forall fn, vs :: L.rowFn(fn, vs).value.Some? }

  /** Some rows, one value a name, the asked row among them, and row functions that answer. */
  ghost predicate Calm(L: Lib, rows: seq<Row>, row: Option<Row>) {
    && Answers(L) && rows != [] && Among(rows, row)
    && (forall r :: r in rows ==> OneEach(r))
    && (row.Some? ==> OneEach(row.value))
  }

  /** A place that misses its row and is worked on every run: under no branch of an If or a case. */
  predicate Sure(L: Lib, t: Tree, onRow: bool)
    decreases t
  {
    match t
    case Lit(_) => false
    case Ref(_) => !onRow
    case Neg(a) => Sure(L, a, onRow)
    case Not(a) => Sure(L, a, onRow)
    case IsNull(a, _) => Sure(L, a, onRow)
    case Logic(_, a, b) => Sure(L, a, onRow) || Sure(L, b, onRow)
    case Cmp(_, a, b) => Sure(L, a, onRow) || Sure(L, b, onRow)
    case Arith(_, a, b) => Sure(L, a, onRow) || Sure(L, b, onRow)
    case Case(subject, whens, _) =>
      && whens != []
      && (|| (subject.Some? && Sure(L, subject.value, onRow))
          || (assert whens[0].test < whens[0]; Sure(L, whens[0].test, onRow))
          || (onRow && exists w :: w in whens && Sure(L, w.test, onRow)))
    case Call(_, args, _) =>
      if IsIf(L, t) then Sure(L, args[0], onRow)
      else if IsFoldCall(L, t) && !ManyAtOnce(L, t) then SureColumns(L, t) || SureParams(L, t)
      else exists a :: a in args && Sure(L, a, onRow)
  }

  predicate SureColumns(L: Lib, t: Tree)
    requires IsFoldCall(L, t)
    decreases t, 0
  {
    || (|t.args| > 0 && Sure(L, t.args[0], true))
    || (L.shapes[t.fn].PairFold? && |t.args| > 1 && Sure(L, t.args[1], true))
  }

  predicate SureParams(L: Lib, t: Tree)
    requires IsFoldCall(L, t)
    decreases t, 0
  {
    !L.shapes[t.fn].PairFold? && exists k :: 1 <= k < |t.args| && Sure(L, t.args[k], false)
  }

  /** Every loose place of a tree without branches is a sure one. */
  lemma {:induction false} LooseIsSure(L: Lib, t: Tree, onRow: bool)
    requires BranchFree(L, t)
    ensures Sure(L, t, onRow) <==> Loose(L, t, onRow)
    decreases t
  {
    match t
    case Lit(_) =>
    case Ref(_) =>
    case Neg(a) => LooseIsSure(L, a, onRow);
    case Not(a) => LooseIsSure(L, a, onRow);
    case IsNull(a, _) => LooseIsSure(L, a, onRow);
    case Logic(_, a, b) => LooseIsSure(L, a, onRow); LooseIsSure(L, b, onRow);
    case Cmp(_, a, b) => LooseIsSure(L, a, onRow); LooseIsSure(L, b, onRow);
    case Arith(_, a, b) => LooseIsSure(L, a, onRow); LooseIsSure(L, b, onRow);
    case Call(_, args, _) =>
      forall a, on | a in args && (on || !on) ensures Sure(L, a, on) <==> Loose(L, a, on) { LooseIsSure(L, a, on); }
      forall k | 0 <= k < |args|
        ensures Sure(L, args[k], true) == Loose(L, args[k], true) && Sure(L, args[k], false) == Loose(L, args[k], false)
      {
        assert args[k] in args;
      }
  }

  // ---- what a run comes to -----------------------------------------------------------------------------------------

  /** Refused for want of a row or not at all, and refused where it surely is. */
  predicate Misses<T>(r: Run<T>, sure: bool) {
    (sure ==> r.Failed?) && (r.Failed? ==> r.why == NoRow)
  }

  lemma {:induction false} SelectKeeps<X>(rows: seq<Row>, col: seq<X>, x: X)
    requires |rows| == |col|
    ensures forall r :: r in Select(rows, col, x) ==> r in rows
  {
    var n := |rows| - 1;
    if rows != [] {
      SelectKeeps(rows[..n], col[..n], x);
      assert forall r :: r in rows[..n] ==> r in rows;
    }
  }

  lemma {:induction false} StaysCalm<X>(L: Lib, rows: seq<Row>, col: seq<X>, p: nat, row: Row)
    requires Calm(L, rows, Some(row)) && |rows| == |col| && p < |rows| && rows[p].id == row.id
    ensures Calm(L, Select(rows, col, col[p]), Some(row))
  {
    StaysAmong(rows, col, p, row);
    SelectHolds(rows, col, p);
    SelectKeeps(rows, col, col[p]);
  }

  lemma {:induction false} CalmOn(L: Lib, rows: seq<Row>, row: Option<Row>, i: nat)
    requires Calm(L, rows, row) && i < |rows|
    ensures Calm(L, rows, Some(rows[i]))
  {
    assert rows[i] in rows;
  }

  lemma {:induction false} EvalMisses(L: Lib, t: Tree, rows: seq<Row>, row: Option<Row>)
    requires Fits(L, t) && Calm(L, rows, row)
    ensures Misses(Eval(L, t, rows, row), Sure(L, t, row.Some?))
    decreases t, 5, 1
  {
    match t
    case Lit(_) =>
    case Ref(_) =>
    case Neg(a) => EvalMisses(L, a, rows, row);
    case Not(a) => EvalMisses(L, a, rows, row);
    case IsNull(a, _) => EvalMisses(L, a, rows, row);
    case Logic(_, a, b) => EvalMisses(L, a, rows, row); EvalMisses(L, b, rows, row);
    case Cmp(_, a, b) => EvalMisses(L, a, rows, row); EvalMisses(L, b, rows, row);
    case Arith(_, a, b) => EvalMisses(L, a, rows, row); EvalMisses(L, b, rows, row);
    case Case(_, _, _) => CaseMisses(L, t, rows, row);
    case Call(_, _, _) => CallMisses(L, t, rows, row);
  }

  lemma {:induction false} CaseMisses(L: Lib, t: Tree, rows: seq<Row>, row: Option<Row>)
    requires t.Case? && Fits(L, t) && Calm(L, rows, row)
    ensures Misses(Eval(L, t, rows, row), Sure(L, t, row.Some?))
    decreases t, 5, 0
  {
    if row.None? {
      CaseOnceMisses(L, t, 0, rows);
    } else {
      if Sure(L, t, true) { SureCase(L, t); }
      CaseOnRowMisses(L, t, rows, row.value);
    }
    hide CaseOnce, CaseOnRow, Calm, Fits;
  }

  lemma {:induction false} CallMisses(L: Lib, t: Tree, rows: seq<Row>, row: Option<Row>)
    requires t.Call? && Fits(L, t) && Calm(L, rows, row)
    ensures Misses(Eval(L, t, rows, row), Sure(L, t, row.Some?))
    decreases t, 4, 1
  {
    if IsIf(L, t) {
      IfMisses(L, t, rows, row);
    } else if L.shapes[t.fn].RowShape? {
      ArgsMiss(L, t, 0, rows, row);
    } else {
      FoldMisses(L, t, rows, row);
    }
  }

  predicate SureArg(L: Lib, t: Tree, k: nat, onRow: bool)
    requires t.Call?
  {
    exists j :: k <= j < |t.args| && Sure(L, t.args[j], onRow)
  }

  lemma {:induction false} ArgsMiss(L: Lib, t: Tree, k: nat, rows: seq<Row>, row: Option<Row>)
    requires t.Call? && k <= |t.args| && Calm(L, rows, row) && forall a :: a in t.args ==> Fits(L, a)
    ensures Misses(EvalArgs(L, t, k, rows, row), SureArg(L, t, k, row.Some?))
    decreases t, 1, |t.args| - k
  {
    hide Calm, Fits, Sure, Eval;
    if k < |t.args| {
      assert t.args[k] in t.args;
      EvalMisses(L, t.args[k], rows, row);
      ArgsMiss(L, t, k + 1, rows, row);
    }
  }

  lemma {:induction false} AcrossMisses(L: Lib, arg: Tree, rows: seq<Row>, i: nat)
    requires Fits(L, arg) && Calm(L, rows, None) && i < |rows|
    ensures Misses(Across(L, arg, rows, rows[i]), Sure(L, arg, true))
    ensures Misses(OneAcross(L, arg, rows, rows[i]), Sure(L, arg, true))
    decreases arg, 6, 0
  {
    CalmOn(L, rows, None, i);
    if !arg.Ref? { EvalMisses(L, arg, rows, Some(rows[i])); }
    hide Eval;
  }

  lemma {:induction false} ItemsMiss(L: Lib, arg: Tree, rows: seq<Row>, i: nat)
    requires Fits(L, arg) && Calm(L, rows, None) && i <= |rows|
    ensures Misses(ItemsOver(L, arg, rows, i), i < |rows| && Sure(L, arg, true))
    decreases arg, 7, |rows| - i
  {
    hide Calm, Fits, Sure, Across;
    if i < |rows| {
      AcrossMisses(L, arg, rows, i);
      ItemsMiss(L, arg, rows, i + 1);
    }
  }

  lemma {:induction false} PairsMiss(L: Lib, t: Tree, rows: seq<Row>, i: nat)
    requires t.Call? && |t.args| == 2 && Calm(L, rows, None) && i <= |rows| && forall a :: a in t.args ==> Fits(L, a)
    ensures Misses(PairsOver(L, t, rows, i), i < |rows| && (Sure(L, t.args[0], true) || Sure(L, t.args[1], true)))
    decreases t, 1, |rows| - i
  {
    hide Calm, Fits, Sure, OneAcross;
    if i < |rows| {
      assert t.args[0] in t.args && t.args[1] in t.args;
      AcrossMisses(L, t.args[0], rows, i);
      AcrossMisses(L, t.args[1], rows, i);
      PairsMiss(L, t, rows, i + 1);
    }
  }

  lemma {:induction false} ParamsMiss(L: Lib, t: Tree, k: nat, rows: seq<Row>)
    requires t.Call? && 1 <= k <= |t.args| && Calm(L, rows, None) && forall a :: a in t.args ==> Fits(L, a)
    ensures Misses(Params(L, t, k, rows), SureArg(L, t, k, false))
    decreases t, 1, |t.args| - k
  {
    hide Calm, Fits, Sure, Eval;
    if k < |t.args| {
      assert t.args[k] in t.args;
      EvalMisses(L, t.args[k], rows, None);
      ParamsMiss(L, t, k + 1, rows);
    }
  }

  lemma {:induction false} FoldMisses(L: Lib, t: Tree, rows: seq<Row>, row: Option<Row>)
    requires Fits(L, t) && IsFoldCall(L, t) && Calm(L, rows, row)
    ensures Misses(Fold(L, t, rows, row), Sure(L, t, row.Some?))
    decreases t, 4, 0
  {
    assert Calm(L, rows, None);
    if ManyAtOnce(L, t) {
      ArgsMiss(L, t, 0, rows, row);
    } else if L.shapes[t.fn].PairFold? {
      PairsMiss(L, t, rows, 0);
    } else if t.args != [] {
      assert t.args[0] in t.args;
      ItemsMiss(L, t.args[0], rows, 0);
      ParamsMiss(L, t, 1, rows);
    }
    hide EvalArgs, PairsOver, ItemsOver, Params, Calm;
  }

  // ---- branching nodes ---------------------------------------------------------------------------------------------

  predicate SureTest(L: Lib, t: Tree, k: nat, onRow: bool)
    requires Branches(L, t) && k < Tests(L, t)
  {
    if t.Case? then (t.subject.Some? && Sure(L, t.subject.value, onRow)) || Sure(L, t.whens[k].test, onRow)
    else Sure(L, t.args[0], onRow)
  }

  lemma {:induction false} SureCase(L: Lib, t: Tree)
    requires t.Case? && Sure(L, t, true)
    ensures exists j :: 0 <= j < |t.whens| && SureTest(L, t, j, true)
  {
    if t.subject.Some? && Sure(L, t.subject.value, true) {
      assert SureTest(L, t, 0, true);
    } else {
      var w :| w in t.whens && Sure(L, w.test, true);
      var j :| 0 <= j < |t.whens| && t.whens[j] == w;
      assert SureTest(L, t, j, true);
    }
  }

  lemma {:induction false} TestMisses(L: Lib, t: Tree, k: nat, rows: seq<Row>, row: Option<Row>)
    requires Branches(L, t) && k < Tests(L, t) && Fits(L, t) && Calm(L, rows, row)
    ensures Misses(Test(L, t, k, rows, row), SureTest(L, t, k, row.Some?))
    decreases t, 1, 0
  {
    if t.Case? {
      var w := t.whens[k];
      assert w in t.whens && w.test < w;
      if t.subject.Some? { EvalMisses(L, t.subject.value, rows, row); }
      EvalMisses(L, w.test, rows, row);
    } else {
      assert t.args[0] in t.args;
      EvalMisses(L, t.args[0], rows, row);
    }
    hide Eval, Calm, Fits, Sure;
  }

  lemma {:induction false} ColumnMisses(L: Lib, t: Tree, k: nat, rows: seq<Row>, i: nat)
    requires Branches(L, t) && k < Tests(L, t) && Fits(L, t) && Calm(L, rows, None) && i <= |rows|
    ensures Misses(Column(L, t, k, rows, i), i < |rows| && SureTest(L, t, k, true))
    decreases t, 2, |rows| - i
  {
    if i < |rows| {
      CalmOn(L, rows, None, i);
      hide Calm, Fits, SureTest, Test;
      TestMisses(L, t, k, rows, Some(rows[i]));
      ColumnMisses(L, t, k, rows, i + 1);
    }
  }

  lemma {:induction false} ColumnsMiss(L: Lib, t: Tree, k: nat, rows: seq<Row>)
    requires Branches(L, t) && k <= Tests(L, t) && Fits(L, t) && Calm(L, rows, None)
    ensures Misses(Columns(L, t, k, rows), exists j :: k <= j < Tests(L, t) && SureTest(L, t, j, true))
    decreases t, 3, Tests(L, t) - k
  {
    assert rows != [];
    hide Calm, Fits, SureTest, Column;
    if k < Tests(L, t) {
      ColumnMisses(L, t, k, rows, 0);
      ColumnsMiss(L, t, k + 1, rows);
    }
  }

  lemma {:induction false} IfMisses(L: Lib, t: Tree, rows: seq<Row>, row: Option<Row>)
    requires IsIf(L, t) && Fits(L, t) && Calm(L, rows, row)
    ensures Misses(if row.None? then IfOnce(L, t, rows) else IfOnRow(L, t, rows, row.value), Sure(L, t, row.Some?))
    decreases t, 4, 0
  {
    assert t.args[0] in t.args && t.args[1] in t.args && t.args[2] in t.args;
    assert Calm(L, rows, None);
    assert Sure(L, t, row.Some?) ==> SureTest(L, t, 0, row.Some?);
    if row.None? {
      TestMisses(L, t, 0, rows, None);
      EvalMisses(L, t.args[1], rows, None);
      EvalMisses(L, t.args[2], rows, None);
      hide Eval, Test, Sure, Calm;
    } else {
      ColumnMisses(L, t, 0, rows, 0);
      var c, p := Column(L, t, 0, rows, 0), Place(rows, row.value);
      if c.Done? && p.Some? {
        var sent := Select(rows, c.v, c.v[p.value]);
        StaysCalm(L, rows, c.v, p.value, row.value);
        EvalMisses(L, t.args[1], sent, row);
        EvalMisses(L, t.args[2], sent, row);
      }
      hide Eval, Column, Sure;
    }
  }

  lemma {:induction false} CaseOnceMisses(L: Lib, t: Tree, k: nat, rows: seq<Row>)
    requires t.Case? && k <= |t.whens| && Fits(L, t) && Calm(L, rows, None)
    ensures Misses(CaseOnce(L, t, k, rows), k < |t.whens| && SureTest(L, t, k, false))
    decreases t, 4, |t.whens| - k
  {
    if k == |t.whens| {
      if t.otherwise.Some? { EvalMisses(L, t.otherwise.value, rows, None); }
    } else {
      var w := t.whens[k];
      assert w in t.whens && w.then_ < w;
      TestMisses(L, t, k, rows, None);
      EvalMisses(L, w.then_, rows, None);
      CaseOnceMisses(L, t, k + 1, rows);
    }
    hide Eval, Test, SureTest, Fits, Calm;
  }

  lemma {:induction false} CaseOnRowMisses(L: Lib, t: Tree, rows: seq<Row>, row: Row)
    requires t.Case? && Fits(L, t) && Calm(L, rows, Some(row))
    ensures Misses(CaseOnRow(L, t, rows, row), exists j :: 0 <= j < |t.whens| && SureTest(L, t, j, true))
    decreases t, 4, 0
  {
    assert Calm(L, rows, None);
    ColumnsMiss(L, t, 0, rows);
    var cols, p := Columns(L, t, 0, rows), Place(rows, row);
    if cols.Done? && p.Some? {
      var taken := Taken(cols.v, |rows|);
      var k := taken[p.value];
      StaysCalm(L, rows, taken, p.value, row);
      if k >= 0 {
        var w := t.whens[k];
        assert w in t.whens && w.then_ < w;
        EvalMisses(L, w.then_, Select(rows, taken, k), Some(row));
      } else if t.otherwise.Some? {
        EvalMisses(L, t.otherwise.value, Select(rows, taken, k), Some(row));
      }
    }
    hide Eval, Columns, SureTest, Fits;
  }

  // ---- what the analysis leaves ------------------------------------------------------------------------------------

  /** Between the two predicates lies only what a branch may or may not come to: a sure place is refused for want of its
      row on every run, and without a loose place every run answers. */
  lemma {:induction false} RunsBetween(L: Lib, t: Tree, rows: seq<Row>, row: Option<Row>)
    requires Fits(L, t) && Calm(L, rows, row)
    ensures Sure(L, t, row.Some?) ==> Eval(L, t, rows, row).Failed?
    ensures Eval(L, t, rows, row).Failed? ==> Eval(L, t, rows, row).why == NoRow && Loose(L, t, row.Some?)
  {
    EvalMisses(L, t, rows, row);
    EvalSafe(L, t, rows, row);
  }

  /** A tree without branches is refused, and for want of a row, exactly where it is loose. */
  lemma {:induction false} RefusedExactlyWhereLoose(L: Lib, t: Tree, rows: seq<Row>, row: Option<Row>)
    requires Fits(L, t) && BranchFree(L, t) && Calm(L, rows, row)
    ensures var r := Eval(L, t, rows, row); if Loose(L, t, row.Some?) then r.Failed? && r.why == NoRow else r.Done?
  {
    RunsBetween(L, t, rows, row);
    LooseIsSure(L, t, row.Some?);
  }

  /** So of the trees judged not row-level those refused for want of a row are exactly those with a loose fold. */
  lemma {:induction false} NotRowLevelMissesExactly(L: Lib, t: Tree, rows: seq<Row>)
    requires !ReadsRow(L, t) && Fits(L, t) && BranchFree(L, t) && Calm(L, rows, None)
    ensures var r := Eval(L, t, rows, None); (r.Failed? && r.why == NoRow) <==> LooseFold(L, t)
  {
    LooseExactly(L, t);
    RefusedExactlyWhereLoose(L, t, rows, None);
  }

  /** The first exception: a row-wise fold of several columns is judged to answer once and always refused - whenever its
      first argument is a column, or any of them surely misses a row. */
  lemma {:induction false} ManyColumnsAlwaysRefused(L: Lib, t: Tree, rows: seq<Row>)
    requires ManyAtOnce(L, t)
    requires t.args[0].Ref? || (Fits(L, t) && Calm(L, rows, None) && SureArg(L, t, 0, false))
    ensures !ReadsRow(L, t) && Eval(L, t, rows, None).Failed? && Eval(L, t, rows, None).why == NoRow
    ensures t.args[0].Ref? ==> Eval(L, t, rows, None) == Failed(NoRow, {})
  {
    assert Arity(L, t);
    if t.args[0].Ref? {
      assert EvalArgs(L, t, 0, rows, None) == Failed(NoRow, {});
    } else {
      assert exists a :: a in t.args && Sure(L, a, false);
      EvalMisses(L, t, rows, None);
    }
  }

  /** The second: so is a fold of one column with a parameter that surely misses a row - or is a column, beside columns
      by name, whatever the rows hold. */
  lemma {:induction false} ColumnParameterAlwaysRefused(L: Lib, t: Tree, rows: seq<Row>)
    requires t.Call? && t.fn in L.shapes && L.shapes[t.fn].ParamFold? && Arity(L, t) && |t.args| > 1
    requires (t.args[0].Ref? && t.args[1].Ref?) || (Fits(L, t) && Calm(L, rows, None) && SureArg(L, t, 1, false))
    ensures !ReadsRow(L, t) && Eval(L, t, rows, None).Failed? && Eval(L, t, rows, None).why == NoRow
    ensures t.args[0].Ref? && t.args[1].Ref? ==> Eval(L, t, rows, None) == Failed(NoRow, {})
  {
    if t.args[0].Ref? && t.args[1].Ref? {
      PlainColumn(L, t.args[0].name, rows, 0);
      assert Params(L, t, 1, rows) == Failed(NoRow, {});
    } else {
      assert SureParams(L, t);
      EvalMisses(L, t, rows, None);
    }
  }

  lemma {:induction false} PlainColumn(L: Lib, column: string, rows: seq<Row>, i: nat)
    requires i <= |rows|
    ensures ItemsOver(L, Ref(column), rows, i).Done? && ItemsOver(L, Ref(column), rows, i).marks == {}
    decreases |rows| - i
  {
    if i < |rows| { PlainColumn(L, column, rows, i + 1); }
  }
}
