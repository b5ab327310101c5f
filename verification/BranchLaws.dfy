/** Which branch is answered and over which rows, and what a fold is handed: laws of an evaluation, by the answers of
    the conditions alone. */
module BranchLaws {
  import opened Syntax
  import opened Values
  import opened Meaning
  import opened RowLevel
  import opened RowIndependence
  import opened OperatorLaws

  // ---- If ----------------------------------------------------------------------------------------------------------

  /** With no row an If is its second argument where its condition is true, its third where it is false, else nothing.
      */
  lemma {:induction false} IfTakes(L: Lib, t: Tree, rows: seq<Row>, v: Scalar)
    requires IsIf(L, t) && Is(L, t.args[0], rows, None, v)
    ensures v == Flag(true) ==> Same(Eval(L, t, rows, None), Eval(L, t.args[1], rows, None))
    ensures v == Flag(false) ==> Same(Eval(L, t, rows, None), Eval(L, t.args[2], rows, None))
    ensures !v.Flag? ==> Is(L, t, rows, None, Empty)
  {
    assert Eval(L, t, rows, None) == IfOnce(L, t, rows);
    assert Test(L, t, 0, rows, None).Done? && Test(L, t, 0, rows, None).v == TruthOf(v);
    hide Eval, Test;
  }

  /** The condition answers each row of the list with its entry. */
  predicate Answered(L: Lib, c: Tree, rows: seq<Row>, answers: seq<Scalar>) {
    |answers| == |rows| && forall j :: 0 <= j < |rows| ==> Is(L, c, rows, Some(rows[j]), answers[j])
  }

  /** The rows whose entry it is, in order. */
  function Those<X(==)>(rows: seq<Row>, entries: seq<X>, x: X): seq<Row>
    requires |rows| == |entries|
  {
    if rows == [] then []
    else (if entries[0] == x then [rows[0]] else []) + Those(rows[1..], entries[1..], x)
  }

  lemma {:induction false} OneMore<X>(rows: seq<Row>, entries: seq<X>, r: Row, y: X, x: X)
    requires |rows| == |entries|
    ensures Those(rows + [r], entries + [y], x) == Those(rows, entries, x) + if y == x then [r] else []
    decreases |rows|
  {
    if rows != [] {
      OneMore(rows[1..], entries[1..], r, y, x);
      assert (rows + [r])[1..] == rows[1..] + [r] && (entries + [y])[1..] == entries[1..] + [y];
      Glue(if entries[0] == x then [rows[0]] else [], Those(rows[1..], entries[1..], x), if y == x then [r] else []);
    }
  }

  lemma {:induction false} Glue(a: seq<Row>, b: seq<Row>, c: seq<Row>)
    ensures a + (b + c) == a + b + c
  {
  }

  /** The rows a model's column sends one way are those. */
  lemma {:induction false} SelectIsThose<X, Y>(rows: seq<Row>, col: seq<X>, entries: seq<Y>, x: X, y: Y)
    requires |rows| == |col| == |entries| && forall j :: 0 <= j < |rows| ==> (col[j] == x <==> entries[j] == y)
    ensures Select(rows, col, x) == Those(rows, entries, y)
    decreases |rows|
  {
    var n := |rows| - 1;
    if rows != [] {
      SelectIsThose(rows[..n], col[..n], entries[..n], x, y);
      OneMore(rows[..n], entries[..n], rows[n], entries[n], y);
      assert rows[..n] + [rows[n]] == rows && entries[..n] + [entries[n]] == entries;
    }
  }

  /** On a row it is the branch of the row's own answer, over exactly the rows of that answer. */
  lemma {:induction false} IfTakesOnRow(L: Lib, t: Tree, rows: seq<Row>, answers: seq<Scalar>, p: nat)
    requires IsIf(L, t) && Answered(L, t.args[0], rows, answers) && p < |rows| && Place(rows, rows[p]) == Some(p)
    ensures answers[p] == Flag(true) ==>
              Same(Eval(L, t, rows, Some(rows[p])),
                   Eval(L, t.args[1], Those(rows, answers, Flag(true)), Some(rows[p])))
    ensures answers[p] == Flag(false) ==>
              Same(Eval(L, t, rows, Some(rows[p])),
                   Eval(L, t.args[2], Those(rows, answers, Flag(false)), Some(rows[p])))
    ensures !answers[p].Flag? ==> Is(L, t, rows, Some(rows[p]), Empty)
  {
    assert Eval(L, t, rows, Some(rows[p])) == IfOnRow(L, t, rows, rows[p]);
    var col := seq(|rows|, j requires 0 <= j < |rows| => TruthOf(answers[j]));
    forall j | 0 <= j < |rows| ensures TestIs(L, t, 0, rows, rows[j], col[j]) {}
    ColumnIs(L, t, 0, rows, col, 0);
    assert col[0..] == col;
    hide Eval, Column, Test, Answered;
    SelectIsThose(rows, col, answers, True, Flag(true));
    SelectIsThose(rows, col, answers, False, Flag(false));
  }

  predicate TestIs(L: Lib, t: Tree, k: nat, rows: seq<Row>, row: Row, x: Truth)
    requires Branches(L, t) && k < Tests(L, t)
  {
    Test(L, t, k, rows, Some(row)).Done? && Test(L, t, k, rows, Some(row)).v == x
  }

  lemma {:induction false} ColumnIs(L: Lib, t: Tree, k: nat, rows: seq<Row>, col: seq<Truth>, i: nat)
    requires Branches(L, t) && k < Tests(L, t) && |col| == |rows| && i <= |rows|
    requires forall j :: 0 <= j < |rows| ==> TestIs(L, t, k, rows, rows[j], col[j])
    ensures Column(L, t, k, rows, i).Done? && Column(L, t, k, rows, i).v == col[i..]
    decreases |rows| - i
  {
    hide Test;
    if i < |rows| { ColumnIs(L, t, k, rows, col, i + 1); }
  }

  // ---- case --------------------------------------------------------------------------------------------------------

  /** The k-th when of a case answers, and whether it holds: it is true - or, with a subject, equal to it. */
  predicate WhenAnswers(L: Lib, t: Tree, k: nat, rows: seq<Row>, row: Option<Row>, holds: bool)
    requires t.Case? && k < |t.whens|
  {
    var c := if t.subject.Some? then Cmp(Equal, t.subject.value, t.whens[k].test) else t.whens[k].test;
    Eval(L, c, rows, row).Done? && (Eval(L, c, rows, row).v == Flag(true) <==> holds)
  }

  lemma {:induction false} WhenIs(L: Lib, t: Tree, k: nat, rows: seq<Row>, row: Option<Row>, holds: bool)
    requires t.Case? && k < |t.whens| && WhenAnswers(L, t, k, rows, row, holds)
    ensures Test(L, t, k, rows, row).Done? && Test(L, t, k, rows, row).v == if holds then True else False
  {
    hide Compared;
    if t.subject.Some? {
      var a, b := Eval(L, t.subject.value, rows, row), Eval(L, t.whens[k].test, rows, row);
      assert Eval(L, Cmp(Equal, t.subject.value, t.whens[k].test), rows, row)
          == OnBoth(Both(a, b), (x, y) => OfTruth(Compared(L, Equal, x, y)));
    }
  }

  /** What a case is for the when it takes: its then, or for none its else, or nothing. */
  function Taking(L: Lib, t: Tree, k: nat, rows: seq<Row>, row: Option<Row>): Run<Scalar>
    requires t.Case? && k <= |t.whens|
  {
    if k < |t.whens| then Eval(L, t.whens[k].then_, rows, row)
    else if t.otherwise.Some? then Eval(L, t.otherwise.value, rows, row)
    else Done(Empty, {})
  }

  /** With no row a case is the then of its first when that holds, whatever the later ones are. */
  lemma {:induction false} CaseTakes(L: Lib, t: Tree, rows: seq<Row>, k: nat)
    requires t.Case? && k <= |t.whens| && forall j :: 0 <= j < k ==> WhenAnswers(L, t, j, rows, None, false)
    requires k < |t.whens| ==> WhenAnswers(L, t, k, rows, None, true)
    ensures Same(Eval(L, t, rows, None), Taking(L, t, k, rows, None))
  {
    assert Eval(L, t, rows, None) == CaseOnce(L, t, 0, rows);
    hide Eval, WhenAnswers;
    OnceTakes(L, t, rows, 0, k);
  }

  lemma {:induction false} OnceTakes(L: Lib, t: Tree, rows: seq<Row>, i: nat, k: nat)
    requires t.Case? && i <= k <= |t.whens| && forall j :: i <= j < k ==> WhenAnswers(L, t, j, rows, None, false)
    requires k < |t.whens| ==> WhenAnswers(L, t, k, rows, None, true)
    ensures Same(CaseOnce(L, t, i, rows), Taking(L, t, k, rows, None))
    decreases k - i
  {
    hide Eval, WhenAnswers, Test;
    if i < k {
      WhenIs(L, t, i, rows, None, false);
      OnceTakes(L, t, rows, i + 1, k);
    } else if k < |t.whens| {
      WhenIs(L, t, k, rows, None, true);
    }
  }

  /** Every when answers every row, and `first` is each row's first that holds, |whens| for none. */
  predicate Judged(L: Lib, t: Tree, rows: seq<Row>, first: seq<nat>)
    requires t.Case?
  {
    && |first| == |rows|
    && (forall j :: 0 <= j < |rows| ==> first[j] <= |t.whens|)
    && (forall j, k :: 0 <= j < |rows| && 0 <= k < |t.whens| ==> JudgedAt(L, t, rows, first[j], j, k))
  }

  predicate JudgedAt(L: Lib, t: Tree, rows: seq<Row>, first: nat, j: nat, k: nat)
    requires t.Case? && j < |rows| && k < |t.whens|
  {
    && (k < first ==> WhenAnswers(L, t, k, rows, Some(rows[j]), false))
    && (k == first ==> WhenAnswers(L, t, k, rows, Some(rows[j]), true))
    && (k > first ==> exists holds :: WhenAnswers(L, t, k, rows, Some(rows[j]), holds))
  }

  /** On a row it is the branch of the row's own first when that holds, over exactly the rows whose first it is too. */
  lemma {:induction false} CaseTakesOnRow(L: Lib, t: Tree, rows: seq<Row>, first: seq<nat>, p: nat)
    requires t.Case? && Judged(L, t, rows, first) && p < |rows| && Place(rows, rows[p]) == Some(p)
    ensures Same(Eval(L, t, rows, Some(rows[p])),
                 Taking(L, t, first[p], Those(rows, first, first[p]), Some(rows[p])))
  {
    assert Eval(L, t, rows, Some(rows[p])) == CaseOnRow(L, t, rows, rows[p]);
    hide Eval, Columns, WhenAnswers, JudgedAt;
    ColumnsJudged(L, t, rows, first, 0);
    RowTakes(L, t, rows, first, p);
  }

  lemma {:induction false} RowTakes(L: Lib, t: Tree, rows: seq<Row>, first: seq<nat>, p: nat)
    requires t.Case? && |first| == |rows| && p < |rows| && Place(rows, rows[p]) == Some(p)
    requires forall j :: 0 <= j < |rows| ==> first[j] <= |t.whens|
    requires var cols := Columns(L, t, 0, rows);
             && cols.Done? && |cols.v| == |t.whens|
             && forall c, j :: 0 <= c < |cols.v| && 0 <= j < |rows| ==>
                  (c < first[j] ==> cols.v[c][j] != True) && (c == first[j] ==> cols.v[c][j] == True)
    ensures Same(CaseOnRow(L, t, rows, rows[p]),
                 Taking(L, t, first[p], Those(rows, first, first[p]), Some(rows[p])))
  {
    hide Eval, Columns, FirstTrue;
    var cols := Columns(L, t, 0, rows).v;
    var taken := Taken(cols, |rows|);
    forall j | 0 <= j < |rows| ensures taken[j] == Code(t, first[j]) { FirstIs(cols, j, first[j]); }
    SelectIsThose(rows, taken, first, taken[p], first[p]);
    hide Taken;
    assert taken[p] == Code(t, first[p]);
  }

  /** The model's -1 for none. */
  function Code(t: Tree, k: nat): int
    requires t.Case?
  {
    if k < |t.whens| then k else -1
  }

  lemma {:induction false} ColumnsJudged(L: Lib, t: Tree, rows: seq<Row>, first: seq<nat>, k: nat)
    requires t.Case? && Judged(L, t, rows, first) && k <= |t.whens|
    ensures var cols := Columns(L, t, k, rows);
            && cols.Done? && |cols.v| == |t.whens| - k
            && forall c, j :: 0 <= c < |cols.v| && 0 <= j < |rows| ==>
                 (k + c < first[j] ==> cols.v[c][j] != True) && (k + c == first[j] ==> cols.v[c][j] == True)
    decreases |t.whens| - k
  {
    hide WhenAnswers, Column;
    if k < |t.whens| {
      ColumnJudged(L, t, rows, first, k, 0);
      ColumnsJudged(L, t, rows, first, k + 1);
      hide Judged;
    }
  }

  lemma {:induction false} ColumnJudged(L: Lib, t: Tree, rows: seq<Row>, first: seq<nat>, k: nat, i: nat)
    requires t.Case? && Judged(L, t, rows, first) && k < |t.whens| && i <= |rows|
    ensures var col := Column(L, t, k, rows, i);
            && col.Done?
            && forall j :: i <= j < |rows| ==>
                 (k < first[j] ==> col.v[j - i] != True) && (k == first[j] ==> col.v[j - i] == True)
    decreases |rows| - i
  {
    hide WhenAnswers, Test;
    if i < |rows| {
      assert JudgedAt(L, t, rows, first[i], i, k);
      var holds :| WhenAnswers(L, t, k, rows, Some(rows[i]), holds)
                && (k < first[i] ==> !holds) && (k == first[i] ==> holds);
      WhenIs(L, t, k, rows, Some(rows[i]), holds);
      ColumnJudged(L, t, rows, first, k, i + 1);
    }
  }

  lemma {:induction false} FirstIs(cols: seq<seq<Truth>>, j: nat, k: nat)
    requires k <= |cols| && forall c :: 0 <= c < |cols| ==> j < |cols[c]|
    requires forall c :: 0 <= c < k ==> cols[c][j] != True
    requires k < |cols| ==> cols[k][j] == True
    ensures FirstTrue(cols, j) == if k < |cols| then k else -1
  {
  }
}
