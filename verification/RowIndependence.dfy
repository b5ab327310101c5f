/** What the branches of If and case do with the rows; that a tree which reads no row has one outcome on all of them,
    and exactly when it has it on none too. */
module RowIndependence {
  import opened Syntax
  import opened Values
  import opened Meaning
  import opened RowLevel

  // ---- the branches partition the rows -----------------------------------------------------------------------------

  /** How often `r` stands in a list. */
  function Times(rows: seq<Row>, r: Row): nat {
    if rows == [] then 0 else Times(rows[..|rows| - 1], r) + if rows[|rows| - 1] == r then 1 else 0
  }

  /** A branch's rows are the rows sent to it, in their order: those at the places whose entry is its own. */
  lemma {:induction false} SelectTakes<X>(rows: seq<Row>, col: seq<X>, x: X)
    requires |rows| == |col|
    ensures forall r :: r in Select(rows, col, x) <==> exists i :: 0 <= i < |rows| && rows[i] == r && col[i] == x
  {
    var n := |rows| - 1;
    if rows != [] {
      SelectTakes(rows[..n], col[..n], x);
      forall r
        ensures r in Select(rows, col, x) <==> exists i :: 0 <= i < |rows| && rows[i] == r && col[i] == x
      {
        var before := Select(rows[..n], col[..n], x);
        if exists i :: 0 <= i < |rows| && rows[i] == r && col[i] == x {
          var i :| 0 <= i < |rows| && rows[i] == r && col[i] == x;
          if i < n { assert rows[..n][i] == r && col[..n][i] == x; }
        }
        if r in before {
          var i :| 0 <= i < n && rows[..n][i] == r && col[..n][i] == x;
          assert rows[i] == r && col[i] == x;
        }
      }
    }
  }

  function SumTimes<X(==)>(rows: seq<Row>, col: seq<X>, xs: seq<X>, r: Row): nat
    requires |rows| == |col|
  {
    if xs == [] then 0 else Times(Select(rows, col, xs[0]), r) + SumTimes(rows, col, xs[1..], r)
  }

  predicate Distinct<X(==)>(xs: seq<X>) { forall i, j :: 0 <= i < j < |xs| ==> xs[i] != xs[j] }

  /** No row is lost and none is folded twice: over all the answers a condition can give, each row stands in the
      branch lists exactly as often as in the rows. */
  lemma {:induction false} BranchesPartition<X>(rows: seq<Row>, col: seq<X>, xs: seq<X>, r: Row)
    requires |rows| == |col| && Distinct(xs) && forall i :: 0 <= i < |col| ==> col[i] in xs
    ensures SumTimes(rows, col, xs, r) == Times(rows, r)
    decreases |rows|
  {
    var n := |rows| - 1;
    if rows == [] {
      NoneSelected(rows, col, xs, r);
    } else {
      assert forall i :: 0 <= i < n ==> col[..n][i] == col[i];
      BranchesPartition(rows[..n], col[..n], xs, r);
      assert col[n] in xs;
      OneMore(rows, col, xs, r);
    }
  }

  lemma {:induction false} NoneSelected<X>(rows: seq<Row>, col: seq<X>, xs: seq<X>, r: Row)
    requires rows == [] && col == []
    ensures SumTimes(rows, col, xs, r) == 0
  {
    if xs != [] { NoneSelected(rows, col, xs[1..], r); }
  }

  /** The last row adds one to the branch of its own entry and to no other. */
  lemma {:induction false} OneMore<X>(rows: seq<Row>, col: seq<X>, xs: seq<X>, r: Row)
    requires |rows| == |col| && rows != [] && Distinct(xs)
    ensures var n := |rows| - 1;
            && SumTimes(rows, col, xs, r)
               == SumTimes(rows[..n], col[..n], xs, r) + if rows[n] == r && col[n] in xs then 1 else 0
  {
    var n := |rows| - 1;
    if xs != [] {
      OneMore(rows, col, xs[1..], r);
      assert xs == [xs[0]] + xs[1..];
      assert col[n] == xs[0] ==> col[n] !in xs[1..];
      var before := Select(rows[..n], col[..n], xs[0]);
      if col[n] == xs[0] {
        assert (before + [rows[n]])[..|before|] == before;
      }
    }
  }

  /** An If sends its true rows and its false rows to its two branches, and its empty rows to neither. */
  lemma {:induction false} IfPartitions(rows: seq<Row>, col: seq<Truth>, r: Row)
    requires |rows| == |col|
    ensures Times(Select(rows, col, True), r) + Times(Select(rows, col, False), r)
          + Times(Select(rows, col, Unknown), r)
         == Times(rows, r)
  {
    var xs := [True, False, Unknown];
    assert True in xs && False in xs && Unknown in xs;
    assert forall i :: 0 <= i < |col| ==> col[i] == True || col[i] == False || col[i] == Unknown;
    BranchesPartition(rows, col, xs, r);
    var two, one := [False, Unknown], [Unknown];
    assert xs[1..] == two && two[1..] == one && one[1..] == [];
    assert SumTimes(rows, col, one, r) == Times(Select(rows, col, Unknown), r) + SumTimes(rows, col, one[1..], r);
    assert SumTimes(rows, col, two, r) == Times(Select(rows, col, False), r) + SumTimes(rows, col, one, r);
  }

  /** A case sends each row to the branch of its first true when, or to the else: over all branches nothing is lost and
      nothing is taken twice. */
  lemma {:induction false} CasePartitions(rows: seq<Row>, cols: seq<seq<Truth>>, branches: seq<int>, r: Row)
    requires forall c :: 0 <= c < |cols| ==> |cols[c]| == |rows|
    requires Distinct(branches) && forall k :: -1 <= k < |cols| ==> k in branches
    ensures SumTimes(rows, Taken(cols, |rows|), branches, r) == Times(rows, r)
  {
    var taken := Taken(cols, |rows|);
    assert forall i :: 0 <= i < |rows| ==> taken[i] == FirstTrue(cols, i);
    BranchesPartition(rows, Taken(cols, |rows|), branches, r);
  }

  /** The rows of one object are one row: then the branch a row takes folds that row too. */
  lemma {:induction false} OwnRowStays<X>(rows: seq<Row>, col: seq<X>, row: Row, p: nat)
    requires |rows| == |col| && row in rows && Place(rows, row) == Some(p)
    requires forall i, j :: 0 <= i < |rows| && 0 <= j < |rows| && rows[i].id == rows[j].id ==> rows[i] == rows[j]
    ensures row in Select(rows, col, col[p])
  {
    SelectHolds(rows, col, p);
  }

  // ---- answering with a row as with none ---------------------------------------------------------------------------

  /** Two runs with one outcome. */
  predicate Same<T(==)>(a: Run<T>, b: Run<T>) {
    match (a, b)
    case (Done(v, _), Done(w, _)) => v == w
    case (Failed(x, _), Failed(y, _)) => x == y
    case _ => false
  }

  /** What a tree is worth with no row when every case judges all its whens before it takes the first that holds. */
  function Whole(L: Lib, t: Tree, rows: seq<Row>): Run<Scalar>
    decreases t, 5, 0
  {
    match t
    case Lit(v) => Done(LiteralValue(L, v), {})
    case Ref(_) => Failed(NoRow, {})
    case Neg(a) => Negation(L, Whole(L, a, rows), None)
    case Not(a) => OnValue(Whole(L, a, rows), v => OfTruth(Negated(TruthOf(v))))
    case Logic(op, a, b) =>
      OnBoth(Both(Whole(L, a, rows), Whole(L, b, rows)), (x, y) => OfTruth(Combined(op, TruthOf(x), TruthOf(y))))
    case Cmp(op, a, b) =>
      OnBoth(Both(Whole(L, a, rows), Whole(L, b, rows)), (x, y) => OfTruth(Compared(L, op, x, y)))
    case Arith(op, a, b) => Operation(L, op, Both(Whole(L, a, rows), Whole(L, b, rows)), None)
    case IsNull(a, negate) => NullTest(Whole(L, a, rows), negate)
    case Case(_, _, _) => WholeCase(L, t, rows)
    case Call(fn, args, _) =>
      if fn !in L.shapes || !Takes(L.shapes[fn], |args|) then Failed(Refused, {})
      else if IsIf(L, t) then WholeIf(L, t, rows)
      else if L.shapes[fn].RowShape? then RowCall(L, fn, WholeArgs(L, t, 0, rows), None)
      else if ManyAtOnce(L, t) then ManyFolded(L, fn, WholeArgs(L, t, 0, rows))
      else Fold(L, t, rows, None)
  }

  function ManyFolded(L: Lib, fn: string, r: Run<seq<Scalar>>): Run<Scalar> {
    match r
    case Failed(why, m) => Failed(why, m)
    case Done(vs, m) => Done(L.fold(fn, ItemsOfValues(vs), []), m)
  }

  function WholeArgs(L: Lib, t: Tree, k: nat, rows: seq<Row>): Run<seq<Scalar>>
    requires t.Call? && k <= |t.args|
    decreases t, 1, |t.args| - k
  {
    if k == |t.args| then Done([], {})
    else
      match Whole(L, t.args[k], rows)
      case Failed(why, m) => Failed(why, m)
      case Done(v, m) =>
        match WholeArgs(L, t, k + 1, rows)
        case Failed(why, n) => Failed(why, m + n)
        case Done(vs, n) => Done([v] + vs, m + n)
  }

  function WholeTest(L: Lib, t: Tree, k: nat, rows: seq<Row>): Run<Truth>
    requires Branches(L, t) && k < Tests(L, t)
    decreases t, 1, 0
  {
    if t.Case? then
      assert t.whens[k].test < t.whens[k];
      if t.subject.Some? then
        match Both(Whole(L, t.subject.value, rows), Whole(L, t.whens[k].test, rows))
        case Failed(why, m) => Failed(why, m)
        case Done(p, m) => Done(if Compared(L, Equal, p.0, p.1) == True then True else False, m)
      else
        match Whole(L, t.whens[k].test, rows)
        case Failed(why, m) => Failed(why, m)
        case Done(v, m) => Done(if TruthOf(v) == True then True else False, m)
    else
      match Whole(L, t.args[0], rows)
      case Failed(why, m) => Failed(why, m)
      case Done(v, m) => Done(TruthOf(v), m)
  }

  /** Every when from the k-th on, or the fault of the first that has none. */
  function WholeTests(L: Lib, t: Tree, k: nat, rows: seq<Row>): (r: Run<seq<Truth>>)
    requires t.Case? && k <= |t.whens|
    ensures r.Done? ==> |r.v| == |t.whens| - k
    decreases t, 2, |t.whens| - k
  {
    if k == |t.whens| then Done([], {})
    else
      match WholeTest(L, t, k, rows)
      case Failed(why, m) => Failed(why, m)
      case Done(x, m) =>
        match WholeTests(L, t, k + 1, rows)
        case Failed(why, n) => Failed(why, m + n)
        case Done(xs, n) => Done([x] + xs, m + n)
  }

  /** The first answer that is true, -1 for none. */
  function FirstHit(xs: seq<Truth>): (h: int)
    ensures -1 <= h < |xs|
  {
    if xs == [] then -1 else if xs[0] == True then 0 else var h := FirstHit(xs[1..]); if h < 0 then -1 else h + 1
  }

  function WholeIf(L: Lib, t: Tree, rows: seq<Row>): Run<Scalar>
    requires IsIf(L, t)
    decreases t, 4, 0
  {
    match WholeTest(L, t, 0, rows)
    case Failed(why, m) => Failed(why, m)
    case Done(c, m) =>
      if c == Unknown then Done(Empty, m)
      else Marked(m, Whole(L, if c == True then t.args[1] else t.args[2], rows))
  }

  function WholeCase(L: Lib, t: Tree, rows: seq<Row>): Run<Scalar>
    requires t.Case?
    decreases t, 4, 0
  {
    match WholeTests(L, t, 0, rows)
    case Failed(why, m) => Failed(why, m)
    case Done(xs, m) => Marked(m, WholeBranch(L, t, FirstHit(xs), rows))
  }

  function WholeBranch(L: Lib, t: Tree, k: int, rows: seq<Row>): Run<Scalar>
    requires t.Case? && -1 <= k < |t.whens|
    decreases t, 3, 0
  {
    if k >= 0 then
      assert t.whens[k].then_ < t.whens[k];
      Whole(L, t.whens[k].then_, rows)
    else if t.otherwise.None? then Done(Empty, {})
    else Whole(L, t.otherwise.value, rows)
  }

  // ---- on a row: the whole tree ------------------------------------------------------------------------------------

  predicate LooseCase(L: Lib, t: Tree)
    requires t.Case?
  {
    || (t.subject.Some? && Loose(L, t.subject.value, false))
    || (t.otherwise.Some? && Loose(L, t.otherwise.value, false))
    || (exists w :: w in t.whens && (Loose(L, w.test, false) || Loose(L, w.then_, false)))
  }

  /** A branching node that can miss no row. */
  predicate Steady(L: Lib, t: Tree) {
    Branches(L, t) && if t.Case? then !LooseCase(L, t) else forall a :: a in t.args ==> !Loose(L, a, false)
  }

  /** A tree that can miss no row has on every row the outcome of the whole tree on none - no row of the list makes a
      difference, and nothing is asked of the whens. */
  lemma {:induction false} WholeOnRow(L: Lib, t: Tree, rows: seq<Row>, row: Row)
    requires !Loose(L, t, false) && Among(rows, Some(row))
    ensures Same(Whole(L, t, rows), Eval(L, t, rows, Some(row)))
    decreases t, 5, 0
  {
    match t
    case Lit(_) =>
    case Ref(_) =>
    case Neg(a) => WholeOnRow(L, a, rows, row);
    case Not(a) => WholeOnRow(L, a, rows, row);
    case IsNull(a, _) => WholeOnRow(L, a, rows, row);
    case Logic(_, a, b) => WholeOnRow(L, a, rows, row); WholeOnRow(L, b, rows, row);
    case Cmp(_, a, b) => WholeOnRow(L, a, rows, row); WholeOnRow(L, b, rows, row);
    case Arith(_, a, b) => WholeOnRow(L, a, rows, row); WholeOnRow(L, b, rows, row);
    case Case(_, _, _) => WholeCaseOnRow(L, t, rows, row);
    case Call(fn, args, _) =>
      if Arity(L, t) { WholeCallOnRow(L, t, rows, row); }
  }

  lemma {:induction false} WholeCallOnRow(L: Lib, t: Tree, rows: seq<Row>, row: Row)
    requires Arity(L, t) && !Loose(L, t, false) && Among(rows, Some(row))
    ensures Same(Whole(L, t, rows), Eval(L, t, rows, Some(row)))
    decreases t, 4, 1
  {
    if IsIf(L, t) {
      WholeIfOnRow(L, t, rows, row);
    } else if L.shapes[t.fn].RowShape? {
      WholeArgsOnRow(L, t, 0, rows, row);
      hide EvalArgs, WholeArgs;
      assert Same(RowCall(L, t.fn, WholeArgs(L, t, 0, rows), None),
                  RowCall(L, t.fn, EvalArgs(L, t, 0, rows, Some(row)), Some(row)));
    } else if ManyAtOnce(L, t) {
      WholeArgsOnRow(L, t, 0, rows, row);
      hide EvalArgs, WholeArgs;
      assert Same(ManyFolded(L, t.fn, WholeArgs(L, t, 0, rows)), Fold(L, t, rows, Some(row)));
    } else {
      hide PairsOver, ItemsOver, Params;
      assert Fold(L, t, rows, None) == Fold(L, t, rows, Some(row));
    }
  }

  lemma {:induction false} WholeArgsOnRow(L: Lib, t: Tree, k: nat, rows: seq<Row>, row: Row)
    requires t.Call? && k <= |t.args| && Among(rows, Some(row))
    requires forall a :: a in t.args ==> !Loose(L, a, false)
    ensures Same(WholeArgs(L, t, k, rows), EvalArgs(L, t, k, rows, Some(row)))
    decreases t, 1, |t.args| - k
  {
    if k < |t.args| {
      assert t.args[k] in t.args;
      WholeOnRow(L, t.args[k], rows, row);
      WholeArgsOnRow(L, t, k + 1, rows, row);
    }
  }

  lemma {:induction false} WholeTestOnRow(L: Lib, t: Tree, k: nat, rows: seq<Row>, row: Row)
    requires Steady(L, t) && k < Tests(L, t) && Among(rows, Some(row))
    ensures Same(WholeTest(L, t, k, rows), Test(L, t, k, rows, Some(row)))
    decreases t, 1, 0
  {
    if t.Case? {
      var w := t.whens[k];
      assert w in t.whens && w.test < w;
      if t.subject.Some? { WholeOnRow(L, t.subject.value, rows, row); }
      WholeOnRow(L, w.test, rows, row);
    } else {
      assert t.args[0] in t.args;
      WholeOnRow(L, t.args[0], rows, row);
    }
  }

  /** Every entry of a condition's column is the answer of the whole condition. */
  lemma {:induction false} WholeColumn(L: Lib, t: Tree, k: nat, rows: seq<Row>, i: nat)
    requires Steady(L, t) && k < Tests(L, t) && i <= |rows|
    ensures var one, col := WholeTest(L, t, k, rows), Column(L, t, k, rows, i);
            && (one.Done? ==> col.Done? && forall j :: 0 <= j < |col.v| ==> col.v[j] == one.v)
            && (one.Failed? && i < |rows| ==> col.Failed? && col.why == one.why)
    decreases t, 2, |rows| - i
  {
    if i < |rows| {
      assert Among(rows, Some(rows[i]));
      WholeTestOnRow(L, t, k, rows, rows[i]);
      WholeColumn(L, t, k, rows, i + 1);
    }
  }

  lemma {:induction false} SelectAll<X>(rows: seq<Row>, col: seq<X>, x: X)
    requires |rows| == |col| && forall j :: 0 <= j < |col| ==> col[j] == x
    ensures Select(rows, col, x) == rows
  {
    var n := |rows| - 1;
    if rows != [] {
      SelectAll(rows[..n], col[..n], x);
      assert rows[..n] + [rows[n]] == rows;
    }
  }

  lemma {:induction false} WholeIfOnRow(L: Lib, t: Tree, rows: seq<Row>, row: Row)
    requires IsIf(L, t) && Steady(L, t) && Among(rows, Some(row))
    ensures Same(WholeIf(L, t, rows), IfOnRow(L, t, rows, row))
    decreases t, 4, 0
  {
    WholeColumn(L, t, 0, rows, 0);
    var one, col := WholeTest(L, t, 0, rows), Column(L, t, 0, rows, 0);
    if one.Done? {
      SelectAll(rows, col.v, one.v);
      assert t.args[1] in t.args && t.args[2] in t.args;
      WholeOnRow(L, t.args[1], rows, row);
      WholeOnRow(L, t.args[2], rows, row);
    }
  }

  lemma {:induction false} WholeColumns(L: Lib, t: Tree, k: nat, rows: seq<Row>)
    requires t.Case? && Steady(L, t) && k <= |t.whens| && rows != []
    ensures var xs, cols := WholeTests(L, t, k, rows), Columns(L, t, k, rows);
            && (xs.Done? ==> cols.Done?)
            && (xs.Done? ==> forall c, i :: 0 <= c < |cols.v| && 0 <= i < |rows| ==> cols.v[c][i] == xs.v[c])
            && (xs.Failed? ==> cols.Failed? && cols.why == xs.why)
    decreases t, 3, |t.whens| - k
  {
    hide WholeTest, Column, Steady;
    if k < |t.whens| {
      WholeColumn(L, t, k, rows, 0);
      WholeColumns(L, t, k + 1, rows);
    }
  }

  lemma {:induction false} HitIsFirstTrue(xs: seq<Truth>, cols: seq<seq<Truth>>, i: nat)
    requires |xs| == |cols| && forall c :: 0 <= c < |cols| ==> i < |cols[c]| && cols[c][i] == xs[c]
    ensures FirstTrue(cols, i) == FirstHit(xs)
    decreases |xs|
  {
    if xs != [] && xs[0] != True {
      forall c | 0 <= c < |cols[1..]| ensures i < |cols[1..][c]| && cols[1..][c][i] == xs[1..][c] {
        assert cols[1..][c] == cols[c + 1] && xs[1..][c] == xs[c + 1];
      }
      HitIsFirstTrue(xs[1..], cols[1..], i);
    }
  }

  lemma {:induction false} AllTakeTheHit(xs: seq<Truth>, cols: seq<seq<Truth>>, n: nat)
    requires |xs| == |cols| && forall c :: 0 <= c < |cols| ==> |cols[c]| == n
    requires forall c, i :: 0 <= c < |cols| && 0 <= i < n ==> cols[c][i] == xs[c]
    ensures forall i :: 0 <= i < n ==> Taken(cols, n)[i] == FirstHit(xs)
  {
    forall i | 0 <= i < n ensures Taken(cols, n)[i] == FirstHit(xs) { HitIsFirstTrue(xs, cols, i); }
  }

  lemma {:induction false} WholeBranchOnRow(L: Lib, t: Tree, k: int, rows: seq<Row>, row: Row)
    requires t.Case? && Steady(L, t) && Among(rows, Some(row)) && -1 <= k < |t.whens|
    ensures Same(WholeBranch(L, t, k, rows), BranchOnRow(L, t, k, rows, row))
    decreases t, 3, 0
  {
    if k >= 0 {
      var w := t.whens[k];
      assert w in t.whens && w.then_ < w;
      WholeOnRow(L, w.then_, rows, row);
    } else if t.otherwise.Some? {
      WholeOnRow(L, t.otherwise.value, rows, row);
    }
  }

  function BranchOnRow(L: Lib, t: Tree, k: int, rows: seq<Row>, row: Row): Run<Scalar>
    requires t.Case? && -1 <= k < |t.whens|
  {
    match Branch(t, k) case None => Done(Empty, {}) case Some(b) => Eval(L, b, rows, Some(row))
  }

  lemma {:induction false} WholeCaseOnRow(L: Lib, t: Tree, rows: seq<Row>, row: Row)
    requires t.Case? && Steady(L, t) && Among(rows, Some(row))
    ensures Same(WholeCase(L, t, rows), CaseOnRow(L, t, rows, row))
    decreases t, 4, 0
  {
    hide WholeTests, WholeBranch, Eval, Columns, Steady, FirstHit;
    WholeColumns(L, t, 0, rows);
    var xs, cols := WholeTests(L, t, 0, rows), Columns(L, t, 0, rows);
    if xs.Done? {
      var h, taken := FirstHit(xs.v), Taken(cols.v, |rows|);
      AllTakeTheHit(xs.v, cols.v, |rows|);
      SelectAll(rows, taken, h);
      WholeBranchOnRow(L, t, h, rows, row);
    }
  }

  // ---- what the analysis is for ------------------------------------------------------------------------------------

  /** A tree judged not row-level, with no loose fold, has one outcome on any two rows of a list - no further
      condition. */
  lemma {:induction false} NotRowLevelTellsNoRows(L: Lib, t: Tree, rows: seq<Row>, row: Row, other: Row)
    requires !ReadsRow(L, t) && !LooseFold(L, t) && Among(rows, Some(row)) && Among(rows, Some(other))
    ensures Same(Eval(L, t, rows, Some(row)), Eval(L, t, rows, Some(other)))
  {
    LooseExactly(L, t);
    WholeOnRow(L, t, rows, row);
    WholeOnRow(L, t, rows, other);
    hide Eval, Whole;
  }

  /** And it is worth the same on a row as on none exactly where stopping at the first when that holds makes no
      difference - a question no row has a part in. */
  lemma {:induction false} NotRowLevelAnswersOnce(L: Lib, t: Tree, rows: seq<Row>, row: Row)
    requires !ReadsRow(L, t) && !LooseFold(L, t) && Among(rows, Some(row))
    ensures Same(Eval(L, t, rows, None), Eval(L, t, rows, Some(row)))
        <==> Same(Eval(L, t, rows, None), Whole(L, t, rows))
  {
    LooseExactly(L, t);
    WholeOnRow(L, t, rows, row);
    hide Eval, Whole;
  }

  // ---- where stopping makes a difference ---------------------------------------------------------------------------

  /** A part of a case is worth the same stopped and whole. */
  predicate Agrees(L: Lib, part: Tree, rows: seq<Row>) { Same(Eval(L, part, rows, None), Whole(L, part, rows)) }

  predicate PartsAgree(L: Lib, t: Tree, rows: seq<Row>)
    requires t.Case?
  {
    && (t.subject.Some? ==> Agrees(L, t.subject.value, rows))
    && (t.otherwise.Some? ==> Agrees(L, t.otherwise.value, rows))
    && (forall w :: w in t.whens ==> Agrees(L, w.test, rows) && Agrees(L, w.then_, rows))
  }

  /** Every when of the case answers with no row. */
  predicate AllAnswer(L: Lib, t: Tree, rows: seq<Row>)
    requires t.Case?
  {
    forall k :: 0 <= k < |t.whens| ==> Test(L, t, k, rows, None).Done?
  }

  /** The first when from the k-th on that does not. */
  predicate FirstFailing(L: Lib, t: Tree, k: nat, j: nat, rows: seq<Row>)
    requires t.Case?
  {
    k <= j < |t.whens| && Test(L, t, j, rows, None).Failed?
    && forall i :: k <= i < j ==> Test(L, t, i, rows, None).Done?
  }

  lemma {:induction false} TestsAgree(L: Lib, t: Tree, k: nat, rows: seq<Row>)
    requires t.Case? && PartsAgree(L, t, rows) && k < |t.whens|
    ensures Same(Test(L, t, k, rows, None), WholeTest(L, t, k, rows))
  {
    hide Eval, Whole;
    assert t.whens[k] in t.whens;
  }

  lemma {:induction false} WholeTestsTell(L: Lib, t: Tree, k: nat, rows: seq<Row>)
    requires t.Case? && PartsAgree(L, t, rows) && k <= |t.whens|
    ensures var xs := WholeTests(L, t, k, rows);
            && (xs.Done? <==> forall j :: k <= j < |t.whens| ==> Test(L, t, j, rows, None).Done?)
            && (xs.Done? ==> forall j :: k <= j < |t.whens| ==> Test(L, t, j, rows, None).v == xs.v[j - k])
            && (xs.Failed? ==> exists j :: FirstFailing(L, t, k, j, rows) && Test(L, t, j, rows, None).why == xs.why)
    decreases |t.whens| - k
  {
    hide Test, WholeTest, PartsAgree;
    if k < |t.whens| {
      TestsAgree(L, t, k, rows);
      WholeTestsTell(L, t, k + 1, rows);
      var xs, rest := WholeTests(L, t, k, rows), WholeTests(L, t, k + 1, rows);
      if xs.Failed? {
        if Test(L, t, k, rows, None).Failed? {
          assert FirstFailing(L, t, k, k, rows);
        } else {
          var j :| FirstFailing(L, t, k + 1, j, rows) && Test(L, t, j, rows, None).why == rest.why;
          assert FirstFailing(L, t, k, j, rows);
        }
      }
    }
  }

  /** With no row a case whose whens all answer is worth the branch of its first hit. */
  lemma {:induction false} OnceHits(L: Lib, t: Tree, k: nat, rows: seq<Row>, xs: seq<Truth>)
    requires t.Case? && PartsAgree(L, t, rows) && k <= |t.whens| && |xs| == |t.whens| - k
    requires forall j :: k <= j < |t.whens| ==>
               Test(L, t, j, rows, None).Done? && Test(L, t, j, rows, None).v == xs[j - k]
    ensures var h := FirstHit(xs);
            Same(CaseOnce(L, t, k, rows), WholeBranch(L, t, if h < 0 then -1 else k + h, rows))
    decreases |t.whens| - k
  {
    hide Test, Eval, Whole;
    if k < |t.whens| {
      assert t.whens[k] in t.whens;
      assert Test(L, t, k, rows, None).v == xs[k - k];
      if xs[0] != True {
        forall j | k + 1 <= j < |t.whens|
          ensures Test(L, t, j, rows, None).Done? && Test(L, t, j, rows, None).v == xs[1..][j - (k + 1)]
        {
          assert xs[1..][j - (k + 1)] == xs[j - k];
        }
        OnceHits(L, t, k + 1, rows, xs[1..]);
      }
    }
  }

  predicate FailsLike(a: Run<Scalar>, b: Run<Truth>) { a.Failed? && b.Failed? && a.why == b.why }

  /** With no row the case is worth what judging all its whens would give. */
  lemma {:induction false} AnsweringCaseOnce(L: Lib, t: Tree, rows: seq<Row>)
    requires t.Case? && PartsAgree(L, t, rows) && AllAnswer(L, t, rows)
    ensures Same(CaseOnce(L, t, 0, rows), WholeCase(L, t, rows))
  {
    WholeTestsTell(L, t, 0, rows);
    var xs := WholeTests(L, t, 0, rows);
    hide Test, Eval, Whole, WholeTests, WholeBranch, CaseOnce, PartsAgree, FirstHit;
    assert xs.Done?;
    forall j | 0 <= j < |t.whens|
      ensures Test(L, t, j, rows, None).Done? && Test(L, t, j, rows, None).v == xs.v[j - 0]
    {
    }
    OnceHits(L, t, 0, rows, xs.v);
    var h := FirstHit(xs.v);
    assert Same(CaseOnce(L, t, 0, rows), WholeBranch(L, t, h, rows));
    assert WholeCase(L, t, rows) == Marked(xs.marks, WholeBranch(L, t, h, rows));
  }

  /** Where a when does not answer, judging them all fails with the fault of the first such. */
  lemma {:induction false} FailingCaseWhole(L: Lib, t: Tree, rows: seq<Row>, k: nat)
    requires t.Case? && PartsAgree(L, t, rows) && FirstFailing(L, t, 0, k, rows)
    ensures WholeCase(L, t, rows).Failed? && WholeCase(L, t, rows).why == Test(L, t, k, rows, None).why
  {
    WholeTestsTell(L, t, 0, rows);
    var xs := WholeTests(L, t, 0, rows);
    hide Test, Eval, Whole, WholeTests, WholeBranch, PartsAgree, FirstHit;
    assert Test(L, t, k, rows, None).Failed?;
    assert xs.Failed?;
    var j :| FirstFailing(L, t, 0, j, rows) && Test(L, t, j, rows, None).why == xs.why;
    assert j == k;
  }

  lemma {:induction false} SomeFirstFailing(L: Lib, t: Tree, k: nat, rows: seq<Row>) returns (j: nat)
    requires t.Case? && k < |t.whens| && Test(L, t, k, rows, None).Failed?
    ensures FirstFailing(L, t, 0, j, rows)
  {
    hide Test;
    j := 0;
    while Test(L, t, j, rows, None).Done?
      invariant j <= k && forall i :: 0 <= i < j ==> Test(L, t, i, rows, None).Done?
      decreases k - j
    {
      j := j + 1;
    }
  }

  /** The when that a case with no row stops at before the k-th. */
  predicate HitBefore(L: Lib, t: Tree, h: nat, k: nat, rows: seq<Row>)
    requires t.Case?
  {
    && h < k <= |t.whens| && Test(L, t, h, rows, None) == Done(True, Test(L, t, h, rows, None).marks)
    && forall i :: 0 <= i < h ==> Test(L, t, i, rows, None).Done? && Test(L, t, i, rows, None).v != True
  }

  /** The first when that does not answer, the k-th, is not stopped before - or at one whose branch fails with the same
      fault. */
  predicate FailsEarlyAlike(L: Lib, t: Tree, k: nat, rows: seq<Row>)
    requires t.Case? && k < |t.whens|
  {
    forall h :: 0 <= h < k && HitBefore(L, t, h, k, rows) ==>
      FailsLike(Eval(L, t.whens[h].then_, rows, None), Test(L, t, k, rows, None))
  }

  /** With no row the first hit decides a case. */
  lemma {:induction false} OnceStopsAt(L: Lib, t: Tree, j: nat, h: nat, k: nat, rows: seq<Row>)
    requires t.Case? && HitBefore(L, t, h, k, rows) && j <= h
    ensures Same(CaseOnce(L, t, j, rows), Eval(L, t.whens[h].then_, rows, None))
    decreases h - j
  {
    hide Test, Eval;
    if j < h { OnceStopsAt(L, t, j + 1, h, k, rows); }
  }

  lemma {:induction false} OnceFailsAt(L: Lib, t: Tree, j: nat, k: nat, rows: seq<Row>)
    requires t.Case? && FirstFailing(L, t, 0, k, rows) && j <= k
    requires forall i :: j <= i < k ==> Test(L, t, i, rows, None).v != True
    ensures CaseOnce(L, t, j, rows).Failed? && CaseOnce(L, t, j, rows).why == Test(L, t, k, rows, None).why
    decreases k - j
  {
    hide Test, Eval;
    if j < k { OnceFailsAt(L, t, j + 1, k, rows); }
  }

  lemma {:induction false} FirstHitBefore(L: Lib, t: Tree, k: nat, rows: seq<Row>, i: nat) returns (h: nat)
    requires t.Case? && FirstFailing(L, t, 0, k, rows) && i < k && Test(L, t, i, rows, None).v == True
    ensures HitBefore(L, t, h, k, rows)
  {
    hide Test;
    h := 0;
    while Test(L, t, h, rows, None).v != True
      invariant h <= i && forall j :: 0 <= j < h ==> Test(L, t, j, rows, None).v != True
      decreases i - h
    {
      h := h + 1;
    }
  }

  /** With no row a case fails as its first failing when does exactly where nothing stops it before, or what does fails
      alike. */
  lemma {:induction false} OnceFailsExactly(L: Lib, t: Tree, k: nat, rows: seq<Row>)
    requires t.Case? && FirstFailing(L, t, 0, k, rows)
    ensures FailsLike(CaseOnce(L, t, 0, rows), Test(L, t, k, rows, None)) <==> FailsEarlyAlike(L, t, k, rows)
  {
    hide Test, Eval, CaseOnce;
    if i: nat :| i < k && Test(L, t, i, rows, None).v == True {
      var h := FirstHitBefore(L, t, k, rows, i);
      OnceStopsAt(L, t, 0, h, k, rows);
      assert forall g :: HitBefore(L, t, g, k, rows) ==> g == h;
    } else {
      OnceFailsAt(L, t, 0, k, rows);
    }
  }

  /** A case whose parts agree is worth the same on a row as on none exactly when all its whens answer, or the first
      that does not answer is not stopped before, or stopped at a branch that fails with its fault. */
  lemma {:induction false} CaseAgreesExactly(L: Lib, t: Tree, rows: seq<Row>, row: Row)
    requires t.Case? && !LooseCase(L, t) && PartsAgree(L, t, rows) && Among(rows, Some(row))
    ensures Same(CaseOnce(L, t, 0, rows), CaseOnRow(L, t, rows, row))
        <==> forall k :: FirstFailing(L, t, 0, k, rows) ==> FailsEarlyAlike(L, t, k, rows)
  {
    WholeCaseOnRow(L, t, rows, row);
    hide Test, Eval, Whole, WholeCase, CaseOnce, CaseOnRow, PartsAgree, LooseCase, FailsEarlyAlike;
    if AllAnswer(L, t, rows) {
      AnsweringCaseOnce(L, t, rows);
    } else {
      var i :| 0 <= i < |t.whens| && !Test(L, t, i, rows, None).Done?;
      var j := SomeFirstFailing(L, t, i, rows);
      FailingCaseWhole(L, t, rows, j);
      OnceFailsExactly(L, t, j, rows);
      assert forall k :: FirstFailing(L, t, 0, k, rows) ==> k == j;
    }
  }

  /** On a row such a case fails as soon as one of its whens does. */
  lemma {:induction false} CaseOnRowNeedsEveryWhen(L: Lib, t: Tree, rows: seq<Row>, row: Row, k: nat)
    requires t.Case? && !LooseCase(L, t) && PartsAgree(L, t, rows) && Among(rows, Some(row)) && k < |t.whens|
    requires Test(L, t, k, rows, None).Failed?
    ensures CaseOnRow(L, t, rows, row).Failed?
  {
    WholeCaseOnRow(L, t, rows, row);
    WholeTestsTell(L, t, 0, rows);
  }

  // ---- a condition that suffices -----------------------------------------------------------------------------------

  /** Every when of every case outside the folds answers with no row. */
  predicate WhensAnswer(L: Lib, t: Tree, rows: seq<Row>)
    decreases t
  {
    match t
    case Lit(_) => true
    case Ref(_) => true
    case Neg(a) => WhensAnswer(L, a, rows)
    case Not(a) => WhensAnswer(L, a, rows)
    case IsNull(a, _) => WhensAnswer(L, a, rows)
    case Logic(_, a, b) => WhensAnswer(L, a, rows) && WhensAnswer(L, b, rows)
    case Cmp(_, a, b) => WhensAnswer(L, a, rows) && WhensAnswer(L, b, rows)
    case Arith(_, a, b) => WhensAnswer(L, a, rows) && WhensAnswer(L, b, rows)
    case Case(subject, whens, otherwise) =>
      && (forall k :: 0 <= k < |whens| ==> Test(L, t, k, rows, None).Done?)
      && PartsAnswer(L, t, rows)
    case Call(_, args, _) =>
      (IsFoldCall(L, t) && !ManyAtOnce(L, t)) || forall a :: a in args ==> WhensAnswer(L, a, rows)
  }

  predicate PartsAnswer(L: Lib, t: Tree, rows: seq<Row>)
    requires t.Case?
    decreases t, 0
  {
    && (t.subject.Some? ==> WhensAnswer(L, t.subject.value, rows))
    && (t.otherwise.Some? ==> WhensAnswer(L, t.otherwise.value, rows))
    && (forall w :: w in t.whens ==> WhensAnswer(L, w.test, rows) && WhensAnswer(L, w.then_, rows))
  }

  /** Where every when answers, stopping makes no difference. */
  lemma {:induction false} AnsweringWhensAgree(L: Lib, t: Tree, rows: seq<Row>)
    requires WhensAnswer(L, t, rows)
    ensures Agrees(L, t, rows)
    decreases t, 1
  {
    match t
    case Lit(_) =>
    case Ref(_) =>
    case Neg(a) => AnsweringWhensAgree(L, a, rows);
    case Not(a) => AnsweringWhensAgree(L, a, rows);
    case IsNull(a, _) => AnsweringWhensAgree(L, a, rows);
    case Logic(_, a, b) => AnsweringWhensAgree(L, a, rows); AnsweringWhensAgree(L, b, rows);
    case Cmp(_, a, b) => AnsweringWhensAgree(L, a, rows); AnsweringWhensAgree(L, b, rows);
    case Arith(_, a, b) => AnsweringWhensAgree(L, a, rows); AnsweringWhensAgree(L, b, rows);
    case Case(subject, whens, otherwise) =>
      if subject.Some? { AnsweringWhensAgree(L, subject.value, rows); }
      if otherwise.Some? { AnsweringWhensAgree(L, otherwise.value, rows); }
      forall w | w in whens ensures Agrees(L, w.test, rows) && Agrees(L, w.then_, rows) {
        assert w.test < w && w.then_ < w;
        AnsweringWhensAgree(L, w.test, rows);
        AnsweringWhensAgree(L, w.then_, rows);
      }
      AnsweringCaseOnce(L, t, rows);
    case Call(fn, args, _) =>
      if Arity(L, t) && !(IsFoldCall(L, t) && !ManyAtOnce(L, t)) {
        forall a | a in args ensures Agrees(L, a, rows) { AnsweringWhensAgree(L, a, rows); }
        if IsIf(L, t) {
          IfAgrees(L, t, rows);
        } else if ManyAtOnce(L, t) {
          ManyAgrees(L, t, rows);
        } else {
          RowCallAgrees(L, t, rows);
        }
      }
  }

  lemma {:induction false} ArgsAgree(L: Lib, t: Tree, k: nat, rows: seq<Row>)
    requires t.Call? && k <= |t.args| && forall a :: a in t.args ==> Agrees(L, a, rows)
    ensures Same(EvalArgs(L, t, k, rows, None), WholeArgs(L, t, k, rows))
    decreases |t.args| - k
  {
    hide Eval, Whole;
    if k < |t.args| {
      assert t.args[k] in t.args;
      ArgsAgree(L, t, k + 1, rows);
    }
  }

  lemma {:induction false} IfTestAgrees(L: Lib, t: Tree, rows: seq<Row>)
    requires IsIf(L, t) && Agrees(L, t.args[0], rows)
    ensures Same(Test(L, t, 0, rows, None), WholeTest(L, t, 0, rows))
  {
    hide Eval, Whole;
  }

  lemma {:induction false} IfAgrees(L: Lib, t: Tree, rows: seq<Row>)
    requires IsIf(L, t) && Arity(L, t) && forall a :: a in t.args ==> Agrees(L, a, rows)
    ensures Agrees(L, t, rows)
  {
    assert t.args[0] in t.args && t.args[1] in t.args && t.args[2] in t.args;
    assert Agrees(L, t.args[1], rows) && Agrees(L, t.args[2], rows);
    IfTestAgrees(L, t, rows);
    assert Eval(L, t, rows, None) == IfOnce(L, t, rows);
    assert Whole(L, t, rows) == WholeIf(L, t, rows);
    hide Eval, Whole, Test, WholeTest;
    var one, whole := Test(L, t, 0, rows, None), WholeTest(L, t, 0, rows);
    if one.Done? && one.v != Unknown {
      var b := if one.v == True then t.args[1] else t.args[2];
      assert Agrees(L, b, rows);
    }
  }

  lemma {:induction false} ManyAgrees(L: Lib, t: Tree, rows: seq<Row>)
    requires Arity(L, t) && ManyAtOnce(L, t) && forall a :: a in t.args ==> Agrees(L, a, rows)
    ensures Agrees(L, t, rows)
  {
    ArgsAgree(L, t, 0, rows);
    assert Eval(L, t, rows, None) == Fold(L, t, rows, None);
    assert Whole(L, t, rows) == ManyFolded(L, t.fn, WholeArgs(L, t, 0, rows));
    hide Eval, Whole, EvalArgs, WholeArgs;
  }

  lemma {:induction false} RowCallAgrees(L: Lib, t: Tree, rows: seq<Row>)
    requires Arity(L, t) && L.shapes[t.fn].RowShape? && forall a :: a in t.args ==> Agrees(L, a, rows)
    ensures Agrees(L, t, rows)
  {
    ArgsAgree(L, t, 0, rows);
    assert Eval(L, t, rows, None) == RowCall(L, t.fn, EvalArgs(L, t, 0, rows, None), None);
    assert Whole(L, t, rows) == RowCall(L, t.fn, WholeArgs(L, t, 0, rows), None);
    hide Eval, Whole, EvalArgs, WholeArgs;
  }

  /** A tree that can miss no row and whose whens all answer is worth the same on a row as on none. */
  lemma {:induction false} SameOnRow(L: Lib, t: Tree, rows: seq<Row>, row: Row)
    requires !Loose(L, t, false) && WhensAnswer(L, t, rows) && Among(rows, Some(row))
    ensures Same(Eval(L, t, rows, None), Eval(L, t, rows, Some(row)))
  {
    AnsweringWhensAgree(L, t, rows);
    WholeOnRow(L, t, rows, row);
    hide Eval, Whole;
  }

  /** Where a later when does not answer the two can differ in the value itself: «case when true then null when
      Sum(-[x]) then "b" end is null» is true with no row, and false on a row that holds several x. */
  lemma {:induction false} LaterWhenTells(L: Lib, x: string, rows: seq<Row>)
    requires "Sum" in L.shapes && L.shapes["Sum"].ManyFold?
    requires rows != [] && OneOf(Held(rows[0], x)) == Failed(Several, {})
    ensures var t := IsNull(LaterFails(x), false);
            && !ReadsRow(L, t) && !LooseFold(L, t)
            && Eval(L, t, rows, None) == Done(Flag(true), {})
            && Eval(L, t, rows, Some(rows[0])) == Done(Flag(false), {})
  {
    hide Eval, ReadsRow, LooseFold;
    LaterOnce(L, x, rows);
    LaterOnRow(L, x, rows);
    LaterJudged(L, x);
    NullSteps(L, LaterFails(x), rows, None);
    NullSteps(L, LaterFails(x), rows, Some(rows[0]));
  }

  lemma {:induction false} NullSteps(L: Lib, a: Tree, rows: seq<Row>, row: Option<Row>)
    ensures Eval(L, IsNull(a, false), rows, row) == NullTest(Eval(L, a, rows, row), false)
    ensures ReadsRow(L, IsNull(a, false)) == ReadsRow(L, a) && LooseFold(L, IsNull(a, false)) == LooseFold(L, a)
  {
  }

  lemma {:induction false} LaterOnce(L: Lib, x: string, rows: seq<Row>)
    ensures Eval(L, LaterFails(x), rows, None) == Done(Empty, {})
  {
    var c := LaterFails(x);
    assert Eval(L, c.whens[0].test, rows, None) == Done(Flag(true), {});
    assert Test(L, c, 0, rows, None) == Done(True, {});
    assert Eval(L, c.whens[0].then_, rows, None) == Done(Empty, {});
    assert CaseOnce(L, c, 0, rows) == Done(Empty, {});
  }

  lemma {:induction false} LaterFold(L: Lib, x: string, rows: seq<Row>)
    requires "Sum" in L.shapes && L.shapes["Sum"].ManyFold?
    requires rows != [] && OneOf(Held(rows[0], x)) == Failed(Several, {})
    ensures Eval(L, Call("Sum", [Neg(Ref(x))], false), rows, Some(rows[0])) == Failed(Several, {})
  {
    var later := Call("Sum", [Neg(Ref(x))], false);
    assert Eval(L, Neg(Ref(x)), rows, Some(rows[0])) == Failed(Several, {});
    assert later.args[0] == Neg(Ref(x));
    assert ItemsOver(L, later.args[0], rows, 0) == Failed(Several, {});
  }

  lemma {:induction false} LaterOnRow(L: Lib, x: string, rows: seq<Row>)
    requires "Sum" in L.shapes && L.shapes["Sum"].ManyFold?
    requires rows != [] && OneOf(Held(rows[0], x)) == Failed(Several, {})
    ensures Eval(L, LaterFails(x), rows, Some(rows[0])) == Failed(Several, {})
  {
    var c := LaterFails(x);
    LaterFold(L, x, rows);
    assert Test(L, c, 1, rows, Some(rows[0])) == Failed(Several, {});
    assert Column(L, c, 1, rows, 0) == Failed(Several, {});
    TrueColumn(L, c, rows, 0);
    assert Columns(L, c, 1, rows) == Failed(Several, {});
    assert Columns(L, c, 0, rows) == Failed(Several, {});
    assert CaseOnRow(L, c, rows, rows[0]) == Failed(Several, {});
  }

  lemma {:induction false} LaterFoldJudged(L: Lib, later: Tree, x: string)
    requires "Sum" in L.shapes && L.shapes["Sum"].ManyFold? && later == Call("Sum", [Neg(Ref(x))], false)
    ensures !ReadsRow(L, later) && !LooseFold(L, later)
  {
    var fn := later.fn;
    assert fn == "Sum" && fn in L.shapes;
    assert L.shapes[fn].ManyFold? && IsFoldCall(L, later) && |later.args| == 1;
    assert later.args[0] == Neg(Ref(x));
    assert !Loose(L, later.args[0].a, true);
    assert !Loose(L, later.args[0], true);
    assert !LooseColumns(L, later);
    assert !LooseParams(L, later);
  }

  lemma {:induction false} LaterJudged(L: Lib, x: string)
    requires "Sum" in L.shapes && L.shapes["Sum"].ManyFold?
    ensures !ReadsRow(L, LaterFails(x)) && !LooseFold(L, LaterFails(x))
  {
    var c := LaterFails(x);
    LaterFoldJudged(L, c.whens[1].test, x);
    assert forall w :: w in c.whens ==> w == c.whens[0] || w == c.whens[1];
  }

  /** case when true then null when Sum(-[x]) then "b" end */
  function LaterFails(x: string): Tree {
    Case(None, [When(Lit(LBool(true)), Lit(LNull)), When(Call("Sum", [Neg(Ref(x))], false), Lit(LStr("b")))], None)
  }

  lemma {:induction false} TrueColumn(L: Lib, t: Tree, rows: seq<Row>, i: nat)
    requires t.Case? && t.subject.None? && t.whens != [] && t.whens[0].test == Lit(LBool(true)) && i <= |rows|
    ensures Column(L, t, 0, rows, i).Done? && Column(L, t, 0, rows, i).marks == {}
    decreases |rows| - i
  {
    if i < |rows| {
      assert Eval(L, t.whens[0].test, rows, Some(rows[i])) == Done(Flag(true), {});
      TrueColumn(L, t, rows, i + 1);
    }
  }
}
