/** `run`: one answer, or one per row when the tree reads a row's value outside the folds, with the counts of rows an
    operator met no number on and a date function no time on. */
module Calculator {
  import opened Syntax
  import opened Values
  import opened Meaning
  import opened RowLevel
  import opened EvaluatorMachine

  /** `Crashed` is a row missing from its own index: nothing in `run` catches it. */
  datatype Result =
    | Single(value: Scalar, notNumber: nat, notTime: nat)
    | PerRow(values: seq<Scalar>, notNumber: nat, notTime: nat)
    | SeveralHeld
    | Refusal
    | Crashed

  function NumberMarks(m: set<Mark>): nat { |set k | k in m && k.NotNumberOn?| }
  function TimeMarks(m: set<Mark>): nat { |set k | k in m && k.NotTimeOn?| }

  function Stopped(why: Fault): Result {
    match why case Several => SeveralHeld case Lost => Crashed case _ => Refusal
  }

  /** The tree's value on each row from the i-th on. */
  function ValuesOver(L: Lib, t: Tree, rows: seq<Row>, i: nat): Run<seq<Scalar>>
    requires i <= |rows|
    decreases |rows| - i
  {
    if i == |rows| then Done([], {})
    else
      match Eval(L, t, rows, Some(rows[i]))
      case Failed(why, m) => Failed(why, m)
      case Done(v, m) =>
        match ValuesOver(L, t, rows, i + 1)
        case Failed(why, n) => Failed(why, m + n)
        case Done(vs, n) => Done([v] + vs, m + n)
  }

  /** What a run answers, by `Meaning`. */
  function Ran(L: Lib, t: Tree, rows: seq<Row>): Result {
    if ReadsRow(L, t) then
      match ValuesOver(L, t, rows, 0)
      case Failed(why, _) => Stopped(why)
      case Done(vs, m) => PerRow(vs, NumberMarks(m), TimeMarks(m))
    else
      match Eval(L, t, rows, None)
      case Failed(why, _) => Stopped(why)
      case Done(v, m) => Single(v, NumberMarks(m), TimeMarks(m))
  }

  /** The memoised run answers what the meaning says: the value or the values, the outcome and both counts. */
  method RunTree(L: Lib, t: Tree, rows: seq<Row>) returns (r: Result)
    ensures r == Ran(L, t, rows)
  {
    hide Eval;
    var e := new Evaluator(L, t);
    var held: map<nat, seq<Row>> := map[0 := rows];
    if !ReadsRow(L, t) {
      var v := e.Value(t, [], rows, 0, None, held);
      assert e.marks == Eval(L, t, rows, None).marks;
      return if v.Raised? then Stopped(v.why) else Single(v.v, NumberMarks(e.marks), TimeMarks(e.marks));
    }
    var vs: seq<Scalar> := [];
    var i := 0;
    ghost var m: set<Mark> := {};
    PrefixNone(ValuesOver(L, t, rows, 0));
    while i < |rows|
      invariant 0 <= i <= |rows| && e.Sound() && e.Keeps(held) && e.marks == m
      invariant e.L == L && e.root == t
      invariant ValuesOver(L, t, rows, 0) == Prefix(vs, m, ValuesOver(L, t, rows, i))
      modifies e
    {
      ghost var g := Eval(L, t, rows, Some(rows[i]));
      var v := e.Value(t, [], rows, 0, Some(rows[i]), held);
      if v.Raised? { return Stopped(v.why); }
      PrefixMore(vs, m, [v.v], g.marks, ValuesOver(L, t, rows, i + 1));
      m := m + g.marks;
      vs := vs + [v.v];
      i := i + 1;
    }
    PrefixAll(vs, m);
    r := PerRow(vs, NumberMarks(e.marks), TimeMarks(e.marks));
  }

  lemma {:induction false} ValuesSafe(L: Lib, t: Tree, rows: seq<Row>, i: nat)
    requires i <= |rows|
    ensures Safe(ValuesOver(L, t, rows, i), Loose(L, t, true))
    decreases |rows| - i
  {
    if i < |rows| {
      assert Among(rows, Some(rows[i]));
      EvalSafe(L, t, rows, Some(rows[i]));
      ValuesSafe(L, t, rows, i + 1);
    }
  }

  /** No run, on any tree and any rows, looks a row up and misses it. */
  lemma {:induction false} NeverCrashes(L: Lib, t: Tree, rows: seq<Row>)
    ensures Ran(L, t, rows) != Crashed
  {
    if ReadsRow(L, t) { ValuesSafe(L, t, rows, 0); } else { EvalSafe(L, t, rows, None); }
  }

  /** What a run answers: one value over the rows where the tree reads no row's value, else each row's own value in
      order; the first row that fails stops it; and each count is of the different rows the values marked. */
  lemma {:induction false} RunAnswers(L: Lib, t: Tree, rows: seq<Row>)
    ensures var r := Ran(L, t, rows);
            match r
            case Single(v, n, m) =>
              var e := Eval(L, t, rows, None);
              !ReadsRow(L, t) && e.Done? && e.v == v && MarksCounted(e.marks, n, m)
            case PerRow(vs, n, m) =>
              && ReadsRow(L, t) && |vs| == |rows|
              && (forall i :: 0 <= i < |rows| ==> RowAnswers(L, t, rows, i, vs[i]))
              && exists marks :: MarksCounted(marks, n, m) && MarkedBy(L, t, rows, marks)
            case _ =>
              if ReadsRow(L, t) then exists i :: 0 <= i < |rows| && RowStops(L, t, rows, i, r)
              else Eval(L, t, rows, None).Failed? && StopsWith(r, Eval(L, t, rows, None).why)
  {
    hide Eval, ReadsRow;
    if ReadsRow(L, t) { ValuesAre(L, t, rows, 0); }
    var all := ValuesOver(L, t, rows, 0);
    if ReadsRow(L, t) && all.Done? {
      assert MarksCounted(all.marks, NumberMarks(all.marks), TimeMarks(all.marks)) && MarkedBy(L, t, rows, all.marks);
    } else if ReadsRow(L, t) {
      var i :| 0 <= i < |rows| && Eval(L, t, rows, Some(rows[i])).Failed?
            && Eval(L, t, rows, Some(rows[i])).why == all.why
            && forall j :: 0 <= j < i ==> Eval(L, t, rows, Some(rows[j])).Done?;
      assert RowStops(L, t, rows, i, Stopped(all.why));
    }
  }

  predicate RowAnswers(L: Lib, t: Tree, rows: seq<Row>, i: nat, v: Scalar)
    requires i < |rows|
  {
    Eval(L, t, rows, Some(rows[i])).Done? && Eval(L, t, rows, Some(rows[i])).v == v
  }

  /** Several values of a name are told apart from every other refusal. */
  predicate StopsWith(r: Result, why: Fault) {
    (r == SeveralHeld && why == Several) || (r == Refusal && (why == NoRow || why == Refused))
    || (r == Crashed && why == Lost)
  }

  predicate RowStops(L: Lib, t: Tree, rows: seq<Row>, i: nat, r: Result)
    requires i < |rows|
  {
    && Eval(L, t, rows, Some(rows[i])).Failed? && StopsWith(r, Eval(L, t, rows, Some(rows[i])).why)
    && forall j :: 0 <= j < i ==> Eval(L, t, rows, Some(rows[j])).Done?
  }

  ghost predicate MarkedBy(L: Lib, t: Tree, rows: seq<Row>, marks: set<Mark>) {
    forall k :: k in marks <==> exists i :: 0 <= i < |rows| && k in Eval(L, t, rows, Some(rows[i])).marks
  }

  /** The counts are of the rows an operator, or a date function, met nothing it could use on. */
  ghost predicate MarksCounted(marks: set<Mark>, n: nat, m: nat) {
    n == |set k | k in marks && k.NotNumberOn?| && m == |set k | k in marks && k.NotTimeOn?|
  }

  lemma {:induction false} ValuesAre(L: Lib, t: Tree, rows: seq<Row>, i: nat)
    requires i <= |rows|
    ensures var r := ValuesOver(L, t, rows, i);
            && (r.Done? ==>
                  && |r.v| == |rows| - i
                  && (forall j :: 0 <= j < |r.v| ==> RowAnswers(L, t, rows, i + j, r.v[j]))
                  && (forall k :: k in r.marks <==>
                        exists j :: i <= j < |rows| && k in Eval(L, t, rows, Some(rows[j])).marks))
            && (r.Failed? ==>
                  exists j :: i <= j < |rows| && Eval(L, t, rows, Some(rows[j])).Failed?
                           && Eval(L, t, rows, Some(rows[j])).why == r.why
                           && forall g :: i <= g < j ==> Eval(L, t, rows, Some(rows[g])).Done?)
    decreases |rows| - i
  {
    hide Eval;
    if i < |rows| {
      ValuesAre(L, t, rows, i + 1);
      var e, r := Eval(L, t, rows, Some(rows[i])), ValuesOver(L, t, rows, i);
      if e.Failed? {
        assert Eval(L, t, rows, Some(rows[i])).why == r.why;
      }
    }
  }
}
