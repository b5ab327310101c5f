/** What a tree is worth over a list of rows, with no memory between one part of the answer and another: the
    reference the running evaluator is held to. */
module Meaning {
  import opened Syntax
  import opened Values

  /** Why there is no value: a name holds several, a row's value is asked with no row, a row is not among the rows it
      is asked in, or a function refuses. */
  datatype Fault = Several | NoRow | Lost | Refused

  /** A row an operator met no number on, or a date function no time on (None: no row). */
  datatype Mark = NotNumberOn(row: Option<nat>) | NotTimeOn(who: Option<nat>)

  datatype Run<+T> = Done(v: T, marks: set<Mark>) | Failed(why: Fault, marks: set<Mark>)

  function Marked<T>(m: set<Mark>, r: Run<T>): Run<T> {
    match r
    case Done(v, n) => Done(v, m + n)
    case Failed(why, n) => Failed(why, m + n)
  }

  function Both(a: Run<Scalar>, b: Run<Scalar>): Run<(Scalar, Scalar)> {
    match a
    case Failed(why, m) => Failed(why, m)
    case Done(x, m) =>
      match b
      case Failed(why, n) => Failed(why, m + n)
      case Done(y, n) => Done((x, y), m + n)
  }

  function IdOf(row: Option<Row>): Option<nat> {
    if row.Some? then Some(row.value.id) else None
  }

  function Counted(c: bool, row: Option<Row>): set<Mark> { if c then {NotNumberOn(IdOf(row))} else {} }

  /** `_one_of`: a row's one value of a name. */
  function OneOf(c: Cell): Run<Scalar> {
    match c
    case One(v) => Done(if Blank(v) then Empty else v, {})
    case Many(_) =>
      var vs := DistinctValues(ItemsOf(c, None));
      if |vs| > 1 then Failed(Several, {}) else Done(if vs == [] then Empty else vs[0], {})
  }

  /** Where `row` stands in `rows` - the last place, when the object stands twice. */
  function Place(rows: seq<Row>, row: Row): (p: Option<nat>)
    ensures p.Some? ==> p.value < |rows| && rows[p.value].id == row.id
    ensures p.None? ==> forall i :: 0 <= i < |rows| ==> rows[i].id != row.id
  {
    if rows == [] then None
    else if rows[|rows| - 1].id == row.id then Some(|rows| - 1)
    else Place(rows[..|rows| - 1], row)
  }

  /** The rows whose entry in `col` is `x`, in order. */
  function Select<X(==)>(rows: seq<Row>, col: seq<X>, x: X): (out: seq<Row>)
    requires |rows| == |col|
  {
    if rows == [] then []
    else
      var before := Select(rows[..|rows| - 1], col[..|rows| - 1], x);
      if col[|rows| - 1] == x then before + [rows[|rows| - 1]] else before
  }

  /** The first of `cols` true at `i`, -1 for none. */
  function FirstTrue(cols: seq<seq<Truth>>, i: nat): (k: int)
    requires forall c :: 0 <= c < |cols| ==> i < |cols[c]|
    ensures -1 <= k < |cols|
    ensures k >= 0 ==> cols[k][i] == True
    ensures forall c :: 0 <= c < (if k >= 0 then k else |cols|) ==> cols[c][i] != True
  {
    if cols == [] then -1
    else if cols[0][i] == True then 0
    else
      var k := FirstTrue(cols[1..], i);
      if k < 0 then -1 else k + 1
  }

  predicate IsIf(L: Lib, t: Tree) {
    t.Call? && t.fn in L.shapes && L.shapes[t.fn].IfShape? && |t.args| == 3
  }

  /** A node whose conditions are judged over a column of rows. */
  predicate Branches(L: Lib, t: Tree) { t.Case? || IsIf(L, t) }

  /** How many conditions it has. */
  function Tests(L: Lib, t: Tree): nat
    requires Branches(L, t)
  {
    if t.Case? then |t.whens| else 1
  }

  function Eval(L: Lib, t: Tree, rows: seq<Row>, row: Option<Row>): Run<Scalar>
    decreases t, 5, 0
  {
    match t
    case Lit(v) => Done(LiteralValue(L, v), {})
    case Ref(name) => if row.None? then Failed(NoRow, {}) else OneOf(Held(row.value, name))
    case Neg(a) => Negation(L, Eval(L, a, rows, row), row)
    case Not(a) => OnValue(Eval(L, a, rows, row), v => OfTruth(Negated(TruthOf(v))))
    case Logic(op, a, b) =>
      OnBoth(Both(Eval(L, a, rows, row), Eval(L, b, rows, row)),
             (x, y) => OfTruth(Combined(op, TruthOf(x), TruthOf(y))))
    case Cmp(op, a, b) =>
      OnBoth(Both(Eval(L, a, rows, row), Eval(L, b, rows, row)), (x, y) => OfTruth(Compared(L, op, x, y)))
    case Arith(op, a, b) => Operation(L, op, Both(Eval(L, a, rows, row), Eval(L, b, rows, row)), row)
    case IsNull(a, negate) => NullTest(Eval(L, a, rows, row), negate)
    case Case(_, _, _) => if row.None? then CaseOnce(L, t, 0, rows) else CaseOnRow(L, t, rows, row.value)
    case Call(fn, args, distinct) =>
      if fn !in L.shapes || !Takes(L.shapes[fn], |args|) then Failed(Refused, {})   // the parser builds no such call
      else if IsIf(L, t) then (if row.None? then IfOnce(L, t, rows) else IfOnRow(L, t, rows, row.value))
      else if L.shapes[fn].RowShape? then RowCall(L, fn, EvalArgs(L, t, 0, rows, row), row)
      else Fold(L, t, rows, row)
  }

  function OnValue(r: Run<Scalar>, f: Scalar -> Scalar): Run<Scalar> {
    match r case Failed(_, _) => r case Done(v, m) => Done(f(v), m)
  }

  function OnBoth(r: Run<(Scalar, Scalar)>, f: (Scalar, Scalar) -> Scalar): Run<Scalar> {
    match r case Failed(why, m) => Failed(why, m) case Done(v, m) => Done(f(v.0, v.1), m)
  }

  function Negation(L: Lib, r: Run<Scalar>, row: Option<Row>): Run<Scalar> {
    match r
    case Failed(_, _) => r
    case Done(v, m) =>
      var x := NumberOf(L, v);
      Done(if x.None? then Empty else Number(-x.value), m + Counted(NotNumber(L, v), row))
  }

  function Operation(L: Lib, op: ArithOp, r: Run<(Scalar, Scalar)>, row: Option<Row>): Run<Scalar> {
    match r
    case Failed(why, m) => Failed(why, m)
    case Done(v, m) => Done(Calculated(L, op, v.0, v.1), m + Counted(NotNumber(L, v.0) || NotNumber(L, v.1), row))
  }

  /** `is null` takes a name that holds several as not empty. */
  function NullTest(r: Run<Scalar>, negate: bool): Run<Scalar> {
    match r
    case Failed(why, m) => if why == Several then Done(Flag(negate), m) else r
    case Done(v, m) => Done(Flag(Blank(v) != negate), m)
  }

  function RowCall(L: Lib, fn: string, r: Run<seq<Scalar>>, row: Option<Row>): Run<Scalar> {
    match r
    case Failed(why, m) => Failed(why, m)
    case Done(vs, m) =>
      var a := L.rowFn(fn, vs);
      var n := m + (if a.notTime then {NotTimeOn(IdOf(row))} else {});
      if a.value.None? then Failed(Refused, n) else Done(a.value.value, n)
  }

  /** The values of a call's arguments from the k-th on. */
  function EvalArgs(L: Lib, t: Tree, k: nat, rows: seq<Row>, row: Option<Row>): (r: Run<seq<Scalar>>)
    requires t.Call? && k <= |t.args|
    ensures r.Done? ==> |r.v| == |t.args| - k
    decreases t, 1, |t.args| - k
  {
    if k == |t.args| then Done([], {})
    else
      match Eval(L, t.args[k], rows, row)
      case Failed(why, m) => Failed(why, m)
      case Done(v, m) =>
        match EvalArgs(L, t, k + 1, rows, row)
        case Failed(why, n) => Failed(why, m + n)
        case Done(vs, n) => Done([v] + vs, m + n)
  }

  // ---- folds -------------------------------------------------------------------------------------------------------

  /** A fold's column at a row: a name's cell as the row holds it, any other tree's value on the row. */
  function Across(L: Lib, arg: Tree, rows: seq<Row>, r: Row): Run<Cell>
    decreases arg, 6, 0
  {
    if arg.Ref? then Done(Held(r, arg.name), {})
    else
      match Eval(L, arg, rows, Some(r))
      case Failed(why, m) => Failed(why, m)
      case Done(v, m) => Done(One(v), m)
  }

  /** The items of a fold's column over the rows from the i-th on. */
  function ItemsOver(L: Lib, arg: Tree, rows: seq<Row>, i: nat): Run<seq<Item>>
    requires i <= |rows|
    decreases arg, 7, |rows| - i
  {
    if i == |rows| then Done([], {})
    else
      match Across(L, arg, rows, rows[i])
      case Failed(why, m) => Failed(why, m)
      case Done(c, m) =>
        match ItemsOver(L, arg, rows, i + 1)
        case Failed(why, n) => Failed(why, m + n)
        case Done(items, n) => Done(ItemsOf(c, rows[i].time) + items, m + n)
  }

  function OneAcross(L: Lib, arg: Tree, rows: seq<Row>, r: Row): Run<Scalar>
    decreases arg, 7, 0
  {
    match Across(L, arg, rows, r)
    case Failed(why, m) => Failed(why, m)
    case Done(c, m) => Marked(m, OneOf(c))
  }

  /** The pairs of two columns from the i-th row on, a row with an empty side left out. */
  function PairsOver(L: Lib, t: Tree, rows: seq<Row>, i: nat): Run<seq<(Scalar, Scalar)>>
    requires t.Call? && |t.args| == 2 && i <= |rows|
    decreases t, 1, |rows| - i
  {
    if i == |rows| then Done([], {})
    else
      match Both(OneAcross(L, t.args[0], rows, rows[i]), OneAcross(L, t.args[1], rows, rows[i]))
      case Failed(why, m) => Failed(why, m)
      case Done(p, m) =>
        match PairsOver(L, t, rows, i + 1)
        case Failed(why, n) => Failed(why, m + n)
        case Done(ps, n) => Done((if Blank(p.0) || Blank(p.1) then [] else [p]) + ps, m + n)
  }

  /** A fold's parameters from the k-th argument on - each worked with no row. */
  function Params(L: Lib, t: Tree, k: nat, rows: seq<Row>): Run<seq<Option<real>>>
    requires t.Call? && k <= |t.args|
    decreases t, 1, |t.args| - k
  {
    if k == |t.args| then Done([], {})
    else
      match Eval(L, t.args[k], rows, None)
      case Failed(why, m) => Failed(why, m)
      case Done(v, m) =>
        match Params(L, t, k + 1, rows)
        case Failed(why, n) => Failed(why, m + n)
        case Done(ps, n) => Done([NumberOf(L, v)] + ps, m + n)
  }

  function ItemsOfValues(vs: seq<Scalar>): seq<Item> {
    if vs == [] then [] else ItemsOf(One(vs[0]), None) + ItemsOfValues(vs[1..])
  }

  /** Min and Max over a datetime column compare instants. */
  predicate ByTime(L: Lib, t: Tree)
    requires t.Call? && |t.args| > 0
  {
    && (t.fn == "Min" || t.fn == "Max")
    && t.args[0].Ref? && t.args[0].name in L.columnTypes && L.columnTypes[t.args[0].name] == "datetime"
  }

  function Fold(L: Lib, t: Tree, rows: seq<Row>, row: Option<Row>): Run<Scalar>
    requires t.Call? && t.fn in L.shapes && Takes(L.shapes[t.fn], |t.args|) && IsFold(L.shapes[t.fn])
    decreases t, 4, 0
  {
    var shape := L.shapes[t.fn];
    if shape.CountFold? && t.args == [] then Done(Number(|rows| as real), {})
    else if shape.ManyFold? && |t.args| > 1 then
      match EvalArgs(L, t, 0, rows, row)
      case Failed(why, m) => Failed(why, m)
      case Done(vs, m) => Done(L.fold(t.fn, ItemsOfValues(vs), []), m)
    else if shape.PairFold? then
      match PairsOver(L, t, rows, 0)
      case Failed(why, m) => Failed(why, m)
      case Done(ps, m) => Done(L.pairFold(t.fn, ps), m)
    else
      match ItemsOver(L, t.args[0], rows, 0)
      case Failed(why, m) => Failed(why, m)
      case Done(items, m) =>
        match Params(L, t, 1, rows)
        case Failed(why, n) => Failed(why, m + n)
        case Done(ps, n) =>
          var kept := if t.distinct then DistinctItems(items) else items;
          Done(if ByTime(L, t) then L.foldByTime(t.fn, kept) else L.fold(t.fn, kept, ps), m + n)
  }

  // ---- branches ----------------------------------------------------------------------------------------------------

  /** The k-th condition of a branching node: an If's is its first argument's truth, a when's is whether it is true -
      or, with a subject, whether it equals it. */
  function Test(L: Lib, t: Tree, k: nat, rows: seq<Row>, row: Option<Row>): Run<Truth>
    requires Branches(L, t) && k < Tests(L, t)
    decreases t, 1, 0
  {
    if t.Case? then
      assert t.whens[k].test < t.whens[k];
      if t.subject.Some? then
        match Both(Eval(L, t.subject.value, rows, row), Eval(L, t.whens[k].test, rows, row))
        case Failed(why, m) => Failed(why, m)
        case Done(p, m) => Done(if Compared(L, Equal, p.0, p.1) == True then True else False, m)
      else
        match Eval(L, t.whens[k].test, rows, row)
        case Failed(why, m) => Failed(why, m)
        case Done(v, m) => Done(if TruthOf(v) == True then True else False, m)
    else
      match Eval(L, t.args[0], rows, row)
      case Failed(why, m) => Failed(why, m)
      case Done(v, m) => Done(TruthOf(v), m)
  }

  /** The k-th condition on every row from the i-th on. */
  function Column(L: Lib, t: Tree, k: nat, rows: seq<Row>, i: nat): (r: Run<seq<Truth>>)
    requires Branches(L, t) && k < Tests(L, t) && i <= |rows|
    ensures r.Done? ==> |r.v| == |rows| - i
    decreases t, 2, |rows| - i
  {
    if i == |rows| then Done([], {})
    else
      match Test(L, t, k, rows, Some(rows[i]))
      case Failed(why, m) => Failed(why, m)
      case Done(x, m) =>
        match Column(L, t, k, rows, i + 1)
        case Failed(why, n) => Failed(why, m + n)
        case Done(xs, n) => Done([x] + xs, m + n)
  }

  /** Every condition's column, from the k-th on. */
  function Columns(L: Lib, t: Tree, k: nat, rows: seq<Row>): (r: Run<seq<seq<Truth>>>)
    requires Branches(L, t) && k <= Tests(L, t)
    ensures r.Done? ==> |r.v| == Tests(L, t) - k && forall c :: 0 <= c < |r.v| ==> |r.v[c]| == |rows|
    decreases t, 3, Tests(L, t) - k
  {
    if k == Tests(L, t) then Done([], {})
    else
      match Column(L, t, k, rows, 0)
      case Failed(why, m) => Failed(why, m)
      case Done(c, m) =>
        match Columns(L, t, k + 1, rows)
        case Failed(why, n) => Failed(why, m + n)
        case Done(cs, n) => Done([c] + cs, m + n)
  }

  function IfOnce(L: Lib, t: Tree, rows: seq<Row>): Run<Scalar>
    requires IsIf(L, t)
    decreases t, 4, 0
  {
    match Test(L, t, 0, rows, None)
    case Failed(why, m) => Failed(why, m)
    case Done(c, m) =>
      if c == Unknown then Done(Empty, m)
      else Marked(m, Eval(L, if c == True then t.args[1] else t.args[2], rows, None))
  }

  /** On a row the branch folds only the rows the condition sends it. */
  function IfOnRow(L: Lib, t: Tree, rows: seq<Row>, row: Row): Run<Scalar>
    requires IsIf(L, t)
    decreases t, 4, 0
  {
    match Column(L, t, 0, rows, 0)
    case Failed(why, m) => Failed(why, m)
    case Done(col, m) =>
      match Place(rows, row)
      case None => Failed(Lost, m)
      case Some(p) =>
        if col[p] == Unknown then Done(Empty, m)
        else Marked(m, Eval(L, if col[p] == True then t.args[1] else t.args[2], Select(rows, col, col[p]), Some(row)))
  }

  /** With no row the whens are judged one after another, up to the first that holds. */
  function CaseOnce(L: Lib, t: Tree, k: nat, rows: seq<Row>): Run<Scalar>
    requires t.Case? && k <= |t.whens|
    decreases t, 4, |t.whens| - k
  {
    if k == |t.whens| then
      if t.otherwise.None? then Done(Empty, {}) else Eval(L, t.otherwise.value, rows, None)
    else
      match Test(L, t, k, rows, None)
      case Failed(why, m) => Failed(why, m)
      case Done(x, m) =>
        assert t.whens[k].then_ < t.whens[k];
        Marked(m, if x == True then Eval(L, t.whens[k].then_, rows, None) else CaseOnce(L, t, k + 1, rows))
  }

  /** Which when each row takes, -1 for none. */
  function Taken(cols: seq<seq<Truth>>, n: nat): (f: seq<int>)
    requires forall c :: 0 <= c < |cols| ==> |cols[c]| == n
    ensures |f| == n && forall i :: 0 <= i < n ==> f[i] == FirstTrue(cols, i)
  {
    seq(n, i requires 0 <= i < n => FirstTrue(cols, i))
  }

  /** The tree a case answers with for the when it took, if it says. */
  function Branch(t: Tree, k: int): Option<Tree>
    requires t.Case? && -1 <= k < |t.whens|
  {
    if k >= 0 then Some(t.whens[k].then_) else t.otherwise
  }

  /** On a row every when is judged on the whole column; the branch folds the rows that took it too. */
  function CaseOnRow(L: Lib, t: Tree, rows: seq<Row>, row: Row): Run<Scalar>
    requires t.Case?
    decreases t, 4, 0
  {
    match Columns(L, t, 0, rows)
    case Failed(why, m) => Failed(why, m)
    case Done(cols, m) =>
      var taken := Taken(cols, |rows|);
      match Place(rows, row)
      case None => Failed(Lost, m)
      case Some(p) =>
        var k := taken[p];
        if k >= 0 then
          assert t.whens[k].then_ < t.whens[k];
          Marked(m, Eval(L, t.whens[k].then_, Select(rows, taken, k), Some(row)))
        else if t.otherwise.None? then Done(Empty, m)
        else Marked(m, Eval(L, t.otherwise.value, Select(rows, taken, k), Some(row)))
  }
}
