/** The evaluator as it runs: a memo of condition columns keyed by the node and by the row list's identity, an index of
    each list's rows, and the marks of the run, all updated in place. Every method is proved to answer what `Meaning`
    says, whichever identity each new row list is given among those not in use. */
module EvaluatorMachine {
  import opened Syntax
  import opened Values
  import opened Meaning

  /** The place of a node in its tree - its identity, every node being built once. */
  type Path = seq<nat>

  function ChildAt(t: Tree, i: nat): Option<Tree> {
    match t
    case Neg(a) => if i == 0 then Some(a) else None
    case Not(a) => if i == 0 then Some(a) else None
    case IsNull(a, _) => if i == 0 then Some(a) else None
    case Logic(_, a, b) => if i == 0 then Some(a) else if i == 1 then Some(b) else None
    case Cmp(_, a, b) => if i == 0 then Some(a) else if i == 1 then Some(b) else None
    case Arith(_, a, b) => if i == 0 then Some(a) else if i == 1 then Some(b) else None
    case Case(subject, whens, otherwise) =>
      if i == 0 then subject
      else if i == 1 then otherwise
      else if (i - 2) / 2 < |whens| then
        Some(if i % 2 == 0 then whens[(i - 2) / 2].test else whens[(i - 2) / 2].then_)
      else None
    case Call(_, args, _) => if i < |args| then Some(args[i]) else None
    case _ => None
  }

  function NodeAt(t: Tree, path: Path): Option<Tree>
    decreases |path|
  {
    if path == [] then Some(t)
    else
      match NodeAt(t, path[..|path| - 1])
      case None => None
      case Some(n) => ChildAt(n, path[|path| - 1])
  }

  lemma {:induction false} ChildPlace(root: Tree, path: Path, t: Tree, i: nat, c: Tree)
    requires NodeAt(root, path) == Some(t) && ChildAt(t, i) == Some(c)
    ensures NodeAt(root, path + [i]) == Some(c)
  {
    assert (path + [i])[..|path|] == path;
  }

  /** A condition's column over one list of rows. */
  datatype Key = Key(node: Path, test: nat, list: nat)
  datatype Entry = Entry(rows: seq<Row>, column: seq<Truth>)
  datatype Index = Index(rows: seq<Row>, places: map<nat, nat>)

  datatype Answer<+T> = Got(v: T) | Raised(why: Fault)

  ghost predicate Agrees<T(!new)>(r: Answer<T>, g: Run<T>, before: set<Mark>, after: set<Mark>) {
    after == before + g.marks && match g case Done(v, _) => r == Got(v) case Failed(why, _) => r == Raised(why)
  }

  /** What is worked so far, put before what is left. */
  function Prefix<T>(xs: seq<T>, m: set<Mark>, r: Run<seq<T>>): Run<seq<T>> {
    match r
    case Done(ys, n) => Done(xs + ys, m + n)
    case Failed(why, n) => Failed(why, m + n)
  }

  lemma {:induction false} PrefixNone<T>(r: Run<seq<T>>)
    ensures Prefix([], {}, r) == r
  {
    if r.Done? { assert [] + r.v == r.v; }
  }

  lemma {:induction false} PrefixAll<T>(xs: seq<T>, m: set<Mark>)
    ensures Prefix(xs, m, Done([], {})) == Done(xs, m)
  {
    assert xs + [] == xs;
  }

  lemma {:induction false} PrefixMore<T>(xs: seq<T>, m: set<Mark>, ys: seq<T>, n: set<Mark>, r: Run<seq<T>>)
    ensures Prefix(xs + ys, m + n, r) == Prefix(xs, m, Prefix(ys, n, r))
  {
    assert m + (n + r.marks) == m + n + r.marks;
    if r.Done? { assert xs + (ys + r.v) == xs + ys + r.v; }
  }

  /** Each row's place, the last when its object stands twice. */
  ghost predicate IndexFits(rows: seq<Row>, places: map<nat, nat>) {
    forall r: Row {:trigger Place(rows, r)} ::
      Place(rows, r) == if r.id in places then Some(places[r.id]) else None
  }

  class Evaluator {
    const L: Lib
    const root: Tree
    var memo: map<Key, Entry>
    var indexes: map<nat, Index>
    var marks: set<Mark>

    constructor (L: Lib, root: Tree)
      ensures this.L == L && this.root == root && marks == {} && Sound() && forall held :: Keeps(held)
    {
      this.L := L;
      this.root := root;
      memo, indexes, marks := map[], map[], {};
    }

    /** Every entry is the column of its condition over the rows it keeps, its marks already made. */
    ghost predicate Sound()
      reads this
    {
      && (forall key :: key in memo ==> SoundEntry(key, memo[key]))
      && (forall id :: id in indexes ==> IndexFits(indexes[id].rows, indexes[id].places))
    }

    ghost predicate SoundEntry(key: Key, e: Entry)
      reads this
    {
      match NodeAt(root, key.node)
      case None => false
      case Some(n) =>
        && Branches(L, n) && key.test < Tests(L, n)
        && var c := Column(L, n, key.test, e.rows, 0);
           c.Done? && c.v == e.column && c.marks <= marks
    }

    /** The lists in use are the ones the memo and the indexes know under their identities. */
    ghost predicate Keeps(held: map<nat, seq<Row>>)
      reads this
    {
      && (forall key :: key in memo && key.list in held ==> memo[key].rows == held[key.list])
      && (forall id :: id in indexes && id in held ==> indexes[id].rows == held[id])
    }

    predicate Uses(id: nat)
      reads this
    {
      id in indexes || exists key :: key in memo && key.list == id
    }

    /** A new list's identity: any that nothing alive has. */
    method NewIdentity(held: map<nat, seq<Row>>) returns (id: nat)
      ensures id !in held && !Uses(id)
    {
      var used := held.Keys + indexes.Keys + set key | key in memo :: key.list;
      Unused(used);
      id :| id !in used;
    }

    method Note(c: bool, row: Option<Row>)
      requires Sound()
      modifies this`marks
      ensures Sound() && marks == old(marks) + Counted(c, row)
    {
      if c { marks := marks + {NotNumberOn(IdOf(row))}; }
    }

    method Value(t: Tree, path: Path, rows: seq<Row>, list: nat, row: Option<Row>, held: map<nat, seq<Row>>)
      returns (r: Answer<Scalar>)
      requires NodeAt(root, path) == Some(t) && list in held && held[list] == rows && Sound() && Keeps(held)
      modifies this
      ensures Sound() && Keeps(held)
      ensures Agrees(r, Eval(L, t, rows, row), old(marks), marks)
      decreases t, 5, 0
    {
      hide Sound, Fold, EvalArgs, RowCall, CaseOnce, CaseOnRow, IfOnce, IfOnRow;
      hide NodeAt, Compared, Calculated, Combined, Negated;
      match t
      case Lit(v) => r := Got(LiteralValue(L, v));
      case Ref(name) =>
        if row.None? { return Raised(NoRow); }
        r := Single(Held(row.value, name));
      case Neg(a) =>
        ChildPlace(root, path, t, 0, a);
        r := Value(a, path + [0], rows, list, row, held);
        if r.Got? {
          Note(NotNumber(L, r.v), row);
          var x := NumberOf(L, r.v);
          r := Got(if x.None? then Empty else Number(-x.value));
        }
      case Not(a) =>
        ChildPlace(root, path, t, 0, a);
        r := Value(a, path + [0], rows, list, row, held);
        if r.Got? { r := Got(OfTruth(Negated(TruthOf(r.v)))); }
      case Logic(_, _, _) => r := OperatorValue(t, path, rows, list, row, held);
      case Cmp(_, _, _) => r := OperatorValue(t, path, rows, list, row, held);
      case Arith(_, _, _) => r := OperatorValue(t, path, rows, list, row, held);
      case IsNull(a, negate) =>
        ChildPlace(root, path, t, 0, a);
        r := Value(a, path + [0], rows, list, row, held);
        if r == Raised(Several) {
          r := Got(Flag(negate));
        } else if r.Got? {
          r := Got(Flag(Blank(r.v) != negate));
        }
      case Case(_, _, _) =>
        if row.None? {
          r := CaseWithoutRow(t, path, rows, list, held);
        } else {
          r := CaseWithRow(t, path, rows, list, row.value, held);
        }
      case Call(_, _, _) => r := CallValue(t, path, rows, list, row, held);
    }

    /** The operators of `_value` with two sides. */
    method OperatorValue(t: Tree, path: Path, rows: seq<Row>, list: nat, row: Option<Row>, held: map<nat, seq<Row>>)
      returns (r: Answer<Scalar>)
      requires t.Logic? || t.Cmp? || t.Arith?
      requires NodeAt(root, path) == Some(t) && list in held && held[list] == rows && Sound() && Keeps(held)
      modifies this
      ensures Sound() && Keeps(held)
      ensures Agrees(r, Eval(L, t, rows, row), old(marks), marks)
      decreases t, 4, 1
    {
      hide Sound, NodeAt, Compared, Calculated, Combined, Fold, EvalArgs, RowCall, CaseOnce, CaseOnRow, IfOnce, IfOnRow;
      match t
      case Logic(op, a, b) =>
        var p := TwoValues(a, b, t, path, rows, list, row, held);
        r := if p.Raised? then Raised(p.why) else Got(OfTruth(Combined(op, TruthOf(p.v.0), TruthOf(p.v.1))));
      case Cmp(op, a, b) =>
        var p := TwoValues(a, b, t, path, rows, list, row, held);
        r := if p.Raised? then Raised(p.why) else Got(OfTruth(Compared(L, op, p.v.0, p.v.1)));
      case Arith(op, a, b) =>
        var p := TwoValues(a, b, t, path, rows, list, row, held);
        if p.Raised? { return Raised(p.why); }
        Note(NotNumber(L, p.v.0) || NotNumber(L, p.v.1), row);
        r := Got(Calculated(L, op, p.v.0, p.v.1));
    }

    /** The calls of `_value`: a branch, a row function or a fold. */
    method CallValue(t: Tree, path: Path, rows: seq<Row>, list: nat, row: Option<Row>, held: map<nat, seq<Row>>)
      returns (r: Answer<Scalar>)
      requires t.Call?
      requires NodeAt(root, path) == Some(t) && list in held && held[list] == rows && Sound() && Keeps(held)
      modifies this
      ensures Sound() && Keeps(held)
      ensures Agrees(r, Eval(L, t, rows, row), old(marks), marks)
      decreases t, 4, 1
    {
      hide Sound, Keeps, Fold, EvalArgs, IfOnce, IfOnRow, NodeAt;
      if t.fn !in L.shapes || !Takes(L.shapes[t.fn], |t.args|) { return Raised(Refused); }
      if IsIf(L, t) {
        if row.None? {
          r := IfWithoutRow(t, path, rows, list, held);
        } else {
          r := IfWithRow(t, path, rows, list, row.value, held);
        }
      } else if L.shapes[t.fn].RowShape? {
        r := RowFunction(t, path, rows, list, row, held);
      } else {
        r := FoldValue(t, path, rows, list, row, held);
      }
    }

    /** `_one_of`. */
    method Single(c: Cell) returns (r: Answer<Scalar>)
      ensures Agrees(r, OneOf(c), {}, {})
    {
      if c.One? { return Got(if Blank(c.v) then Empty else c.v); }
      var vs := DistinctValues(ItemsOf(c, None));
      r := if |vs| > 1 then Raised(Several) else Got(if vs == [] then Empty else vs[0]);
    }

    method TwoValues(a: Tree, b: Tree, t: Tree, path: Path, rows: seq<Row>, list: nat, row: Option<Row>,
                     held: map<nat, seq<Row>>)
      returns (r: Answer<(Scalar, Scalar)>)
      requires ChildAt(t, 0) == Some(a) && ChildAt(t, 1) == Some(b) && a < t && b < t
      requires NodeAt(root, path) == Some(t) && list in held && held[list] == rows && Sound() && Keeps(held)
      modifies this
      ensures Sound() && Keeps(held)
      ensures Agrees(r, Both(Eval(L, a, rows, row), Eval(L, b, rows, row)), old(marks), marks)
      decreases t, 4, 0
    {
      hide Eval, NodeAt;
      ChildPlace(root, path, t, 0, a);
      ChildPlace(root, path, t, 1, b);
      var x := Value(a, path + [0], rows, list, row, held);
      if x.Raised? { return Raised(x.why); }
      var y := Value(b, path + [1], rows, list, row, held);
      r := if y.Raised? then Raised(y.why) else Got((x.v, y.v));
    }

    method ArgValues(t: Tree, path: Path, rows: seq<Row>, list: nat, row: Option<Row>, held: map<nat, seq<Row>>)
      returns (r: Answer<seq<Scalar>>)
      requires t.Call?
      requires NodeAt(root, path) == Some(t) && list in held && held[list] == rows && Sound() && Keeps(held)
      modifies this
      ensures Sound() && Keeps(held)
      ensures Agrees(r, EvalArgs(L, t, 0, rows, row), old(marks), marks)
      decreases t, 1, 0
    {
      hide Eval, NodeAt;
      var vs: seq<Scalar> := [];
      var k := 0;
      PrefixNone(EvalArgs(L, t, 0, rows, row));
      ghost var m: set<Mark> := {};
      while k < |t.args|
        invariant 0 <= k <= |t.args| && Sound() && Keeps(held) && marks == old(marks) + m
        invariant EvalArgs(L, t, 0, rows, row) == Prefix(vs, m, EvalArgs(L, t, k, rows, row))
      {
        ghost var g := Eval(L, t.args[k], rows, row);
        ChildPlace(root, path, t, k, t.args[k]);
        var v := Value(t.args[k], path + [k], rows, list, row, held);
        if v.Raised? { return Raised(v.why); }
        PrefixMore(vs, m, [v.v], g.marks, EvalArgs(L, t, k + 1, rows, row));
        m := m + g.marks;
        vs := vs + [v.v];
        k := k + 1;
      }
      PrefixAll(vs, m);
      r := Got(vs);
    }

    method RowFunction(t: Tree, path: Path, rows: seq<Row>, list: nat, row: Option<Row>, held: map<nat, seq<Row>>)
      returns (r: Answer<Scalar>)
      requires t.Call?
      requires NodeAt(root, path) == Some(t) && list in held && held[list] == rows && Sound() && Keeps(held)
      modifies this
      ensures Sound() && Keeps(held)
      ensures Agrees(r, RowCall(L, t.fn, EvalArgs(L, t, 0, rows, row), row), old(marks), marks)
      decreases t, 3, 0
    {
      hide EvalArgs;
      var vs := ArgValues(t, path, rows, list, row, held);
      if vs.Raised? { return Raised(vs.why); }
      var a := L.rowFn(t.fn, vs.v);
      if a.notTime { marks := marks + {NotTimeOn(IdOf(row))}; }
      r := if a.value.None? then Raised(Refused) else Got(a.value.value);
    }

    // ---- folds -----------------------------------------------------------------------------------------------------

    method AcrossRow(arg: Tree, path: Path, rows: seq<Row>, list: nat, row: Row, held: map<nat, seq<Row>>)
      returns (r: Answer<Cell>)
      requires NodeAt(root, path) == Some(arg) && list in held && held[list] == rows && Sound() && Keeps(held)
      modifies this
      ensures Sound() && Keeps(held)
      ensures Agrees(r, Across(L, arg, rows, row), old(marks), marks)
      decreases arg, 6, 0
    {
      if arg.Ref? { return Got(Held(row, arg.name)); }
      hide Eval, NodeAt;
      var v := Value(arg, path, rows, list, Some(row), held);
      r := if v.Raised? then Raised(v.why) else Got(One(v.v));
    }

    method OneAcrossRow(arg: Tree, path: Path, rows: seq<Row>, list: nat, row: Row, held: map<nat, seq<Row>>)
      returns (r: Answer<Scalar>)
      requires NodeAt(root, path) == Some(arg) && list in held && held[list] == rows && Sound() && Keeps(held)
      modifies this
      ensures Sound() && Keeps(held)
      ensures Agrees(r, OneAcross(L, arg, rows, row), old(marks), marks)
      decreases arg, 7, 0
    {
      hide Across, NodeAt;
      var c := AcrossRow(arg, path, rows, list, row, held);
      if c.Raised? { return Raised(c.why); }
      r := Single(c.v);
    }

    method ItemsAcross(arg: Tree, path: Path, rows: seq<Row>, list: nat, held: map<nat, seq<Row>>)
      returns (r: Answer<seq<Item>>)
      requires NodeAt(root, path) == Some(arg) && list in held && held[list] == rows && Sound() && Keeps(held)
      modifies this
      ensures Sound() && Keeps(held)
      ensures Agrees(r, ItemsOver(L, arg, rows, 0), old(marks), marks)
      decreases arg, 7, 0
    {
      hide Across, NodeAt;
      var items: seq<Item> := [];
      var i := 0;
      PrefixNone(ItemsOver(L, arg, rows, 0));
      ghost var m: set<Mark> := {};
      while i < |rows|
        invariant 0 <= i <= |rows| && Sound() && Keeps(held) && marks == old(marks) + m
        invariant ItemsOver(L, arg, rows, 0) == Prefix(items, m, ItemsOver(L, arg, rows, i))
      {
        ghost var g := Across(L, arg, rows, rows[i]);
        var c := AcrossRow(arg, path, rows, list, rows[i], held);
        if c.Raised? { return Raised(c.why); }
        PrefixMore(items, m, ItemsOf(c.v, rows[i].time), g.marks, ItemsOver(L, arg, rows, i + 1));
        m := m + g.marks;
        items := items + ItemsOf(c.v, rows[i].time);
        i := i + 1;
      }
      PrefixAll(items, m);
      r := Got(items);
    }

    method PairsAcross(t: Tree, path: Path, rows: seq<Row>, list: nat, held: map<nat, seq<Row>>)
      returns (r: Answer<seq<(Scalar, Scalar)>>)
      requires t.Call? && |t.args| == 2
      requires NodeAt(root, path) == Some(t) && list in held && held[list] == rows && Sound() && Keeps(held)
      modifies this
      ensures Sound() && Keeps(held)
      ensures Agrees(r, PairsOver(L, t, rows, 0), old(marks), marks)
      decreases t, 1, 0
    {
      hide OneAcross, NodeAt;
      ChildPlace(root, path, t, 0, t.args[0]);
      ChildPlace(root, path, t, 1, t.args[1]);
      var pairs: seq<(Scalar, Scalar)> := [];
      var i := 0;
      PrefixNone(PairsOver(L, t, rows, 0));
      ghost var m: set<Mark> := {};
      while i < |rows|
        invariant 0 <= i <= |rows| && Sound() && Keeps(held) && marks == old(marks) + m
        invariant PairsOver(L, t, rows, 0) == Prefix(pairs, m, PairsOver(L, t, rows, i))
      {
        ghost var g := Both(OneAcross(L, t.args[0], rows, rows[i]), OneAcross(L, t.args[1], rows, rows[i]));
        var x := OneAcrossRow(t.args[0], path + [0], rows, list, rows[i], held);
        if x.Raised? { return Raised(x.why); }
        var y := OneAcrossRow(t.args[1], path + [1], rows, list, rows[i], held);
        if y.Raised? { return Raised(y.why); }
        var more := if Blank(x.v) || Blank(y.v) then [] else [(x.v, y.v)];
        PrefixMore(pairs, m, more, g.marks, PairsOver(L, t, rows, i + 1));
        m := m + g.marks;
        pairs := pairs + more;
        i := i + 1;
      }
      PrefixAll(pairs, m);
      r := Got(pairs);
    }

    method ParamValues(t: Tree, path: Path, rows: seq<Row>, list: nat, held: map<nat, seq<Row>>)
      returns (r: Answer<seq<Option<real>>>)
      requires t.Call? && |t.args| > 0
      requires NodeAt(root, path) == Some(t) && list in held && held[list] == rows && Sound() && Keeps(held)
      modifies this
      ensures Sound() && Keeps(held)
      ensures Agrees(r, Params(L, t, 1, rows), old(marks), marks)
      decreases t, 1, 0
    {
      hide Eval, NodeAt;
      var ps: seq<Option<real>> := [];
      var k := 1;
      PrefixNone(Params(L, t, 1, rows));
      ghost var m: set<Mark> := {};
      while k < |t.args|
        invariant 1 <= k <= |t.args| && Sound() && Keeps(held) && marks == old(marks) + m
        invariant Params(L, t, 1, rows) == Prefix(ps, m, Params(L, t, k, rows))
      {
        ghost var g := Eval(L, t.args[k], rows, None);
        ChildPlace(root, path, t, k, t.args[k]);
        var v := Value(t.args[k], path + [k], rows, list, None, held);
        if v.Raised? { return Raised(v.why); }
        PrefixMore(ps, m, [NumberOf(L, v.v)], g.marks, Params(L, t, k + 1, rows));
        m := m + g.marks;
        ps := ps + [NumberOf(L, v.v)];
        k := k + 1;
      }
      PrefixAll(ps, m);
      r := Got(ps);
    }

    method FoldValue(t: Tree, path: Path, rows: seq<Row>, list: nat, row: Option<Row>, held: map<nat, seq<Row>>)
      returns (r: Answer<Scalar>)
      requires t.Call? && t.fn in L.shapes && Takes(L.shapes[t.fn], |t.args|) && IsFold(L.shapes[t.fn])
      requires NodeAt(root, path) == Some(t) && list in held && held[list] == rows && Sound() && Keeps(held)
      modifies this
      ensures Sound() && Keeps(held)
      ensures Agrees(r, Fold(L, t, rows, row), old(marks), marks)
      decreases t, 4, 0
    {
      hide EvalArgs, PairsOver, ItemsOver, Params, NodeAt;
      var shape := L.shapes[t.fn];
      if shape.CountFold? && t.args == [] { return Got(Number(|rows| as real)); }
      if shape.ManyFold? && |t.args| > 1 {
        var vs := ArgValues(t, path, rows, list, row, held);
        return if vs.Raised? then Raised(vs.why) else Got(L.fold(t.fn, ItemsOfValues(vs.v), []));
      }
      if shape.PairFold? {
        var pairs := PairsAcross(t, path, rows, list, held);
        return if pairs.Raised? then Raised(pairs.why) else Got(L.pairFold(t.fn, pairs.v));
      }
      ChildPlace(root, path, t, 0, t.args[0]);
      var items := ItemsAcross(t.args[0], path + [0], rows, list, held);
      if items.Raised? { return Raised(items.why); }
      var ps := ParamValues(t, path, rows, list, held);
      if ps.Raised? { return Raised(ps.why); }
      var kept := if t.distinct then DistinctItems(items.v) else items.v;
      r := Got(if ByTime(L, t) then L.foldByTime(t.fn, kept) else L.fold(t.fn, kept, ps.v));
    }

    // ---- branches --------------------------------------------------------------------------------------------------

    method TestOf(t: Tree, path: Path, k: nat, rows: seq<Row>, list: nat, row: Option<Row>, held: map<nat, seq<Row>>)
      returns (r: Answer<Truth>)
      requires Branches(L, t) && k < Tests(L, t)
      requires NodeAt(root, path) == Some(t) && list in held && held[list] == rows && Sound() && Keeps(held)
      modifies this
      ensures Sound() && Keeps(held)
      ensures Agrees(r, Test(L, t, k, rows, row), old(marks), marks)
      decreases t, 1, 0
    {
      hide Eval, NodeAt;
      if t.Call? {
        ChildPlace(root, path, t, 0, t.args[0]);
        var v := Value(t.args[0], path + [0], rows, list, row, held);
        return if v.Raised? then Raised(v.why) else Got(TruthOf(v.v));
      }
      var w := t.whens[k];
      assert w.test < w;
      assert (2 + 2 * k - 2) / 2 == k && (2 + 2 * k) % 2 == 0;
      ChildPlace(root, path, t, 2 + 2 * k, w.test);
      if t.subject.Some? {
        ChildPlace(root, path, t, 0, t.subject.value);
        var s := Value(t.subject.value, path + [0], rows, list, row, held);
        if s.Raised? { return Raised(s.why); }
        var v := Value(w.test, path + [2 + 2 * k], rows, list, row, held);
        return if v.Raised? then Raised(v.why) else Got(if Compared(L, Equal, s.v, v.v) == True then True else False);
      }
      var v := Value(w.test, path + [2 + 2 * k], rows, list, row, held);
      r := if v.Raised? then Raised(v.why) else Got(if TruthOf(v.v) == True then True else False);
    }

    /** `_column_of`: the same column of a condition over the same rows, worked once. */
    method ColumnOf(t: Tree, path: Path, k: nat, rows: seq<Row>, list: nat, held: map<nat, seq<Row>>)
      returns (r: Answer<seq<Truth>>)
      requires Branches(L, t) && k < Tests(L, t)
      requires NodeAt(root, path) == Some(t) && list in held && held[list] == rows && Sound() && Keeps(held)
      modifies this
      ensures Sound() && Keeps(held)
      ensures Agrees(r, Column(L, t, k, rows, 0), old(marks), marks)
      decreases t, 2, 0
    {
      hide Test, NodeAt;
      var key := Key(path, k, list);
      if key in memo {
        assert SoundEntry(key, memo[key]);
        return Got(memo[key].column);
      }
      var col: seq<Truth> := [];
      var i := 0;
      PrefixNone(Column(L, t, k, rows, 0));
      ghost var m: set<Mark> := {};
      while i < |rows|
        invariant 0 <= i <= |rows| && Sound() && Keeps(held) && marks == old(marks) + m
        invariant Column(L, t, k, rows, 0) == Prefix(col, m, Column(L, t, k, rows, i))
      {
        ghost var g := Test(L, t, k, rows, Some(rows[i]));
        var x := TestOf(t, path, k, rows, list, Some(rows[i]), held);
        if x.Raised? { return Raised(x.why); }
        PrefixMore(col, m, [x.v], g.marks, Column(L, t, k, rows, i + 1));
        m := m + g.marks;
        col := col + [x.v];
        i := i + 1;
      }
      PrefixAll(col, m);
      assert Column(L, t, k, rows, 0) == Done(col, m);
      memo := memo[key := Entry(rows, col)];
      r := Got(col);
    }

    /** `_index_of_row`, the places of a list's rows worked once. */
    method PlaceOf(rows: seq<Row>, list: nat, row: Row, held: map<nat, seq<Row>>) returns (p: Option<nat>)
      requires list in held && held[list] == rows && Sound() && Keeps(held)
      modifies this`indexes
      ensures Sound() && Keeps(held) && p == Place(rows, row)
    {
      if list !in indexes {
        var places: map<nat, nat> := map[];
        var i := 0;
        while i < |rows|
          invariant 0 <= i <= |rows| && IndexFits(rows[..i], places)
        {
          assert rows[..i + 1][..i] == rows[..i];
          places := places[rows[i].id := i];
          i := i + 1;
        }
        assert rows[..i] == rows;
        indexes := indexes[list := Index(rows, places)];
      }
      var places := indexes[list].places;
      assert Place(rows, row) == if row.id in places then Some(places[row.id]) else None;
      p := if row.id in places then Some(places[row.id]) else None;
    }

    /** The rows whose entry is `x`, as a new list. */
    method Chosen<X(==)>(rows: seq<Row>, col: seq<X>, x: X) returns (out: seq<Row>)
      requires |rows| == |col|
      ensures out == Select(rows, col, x)
    {
      out := [];
      var i := 0;
      while i < |rows|
        invariant 0 <= i <= |rows| && out == Select(rows[..i], col[..i], x)
      {
        assert rows[..i + 1][..i] == rows[..i] && col[..i + 1][..i] == col[..i];
        if col[i] == x { out := out + [rows[i]]; }
        i := i + 1;
      }
      assert rows[..i] == rows && col[..i] == col;
    }

    /** A branch over the rows it is sent, kept alive under a new identity while it is worked. */
    method BranchValue(t: Tree, path: Path, sent: seq<Row>, row: Row, held: map<nat, seq<Row>>)
      returns (r: Answer<Scalar>)
      requires NodeAt(root, path) == Some(t) && Sound() && Keeps(held)
      modifies this
      ensures Sound() && Keeps(held)
      ensures Agrees(r, Eval(L, t, sent, Some(row)), old(marks), marks)
      decreases t, 6, 0
    {
      hide Eval, NodeAt;
      var id := NewIdentity(held);
      var wider := held[id := sent];
      assert Keeps(wider);
      r := Value(t, path, sent, id, Some(row), wider);
      assert forall other :: other in held ==> other in wider && wider[other] == held[other];
    }

    method IfWithoutRow(t: Tree, path: Path, rows: seq<Row>, list: nat, held: map<nat, seq<Row>>)
      returns (r: Answer<Scalar>)
      requires IsIf(L, t)
      requires NodeAt(root, path) == Some(t) && list in held && held[list] == rows && Sound() && Keeps(held)
      modifies this
      ensures Sound() && Keeps(held)
      ensures Agrees(r, IfOnce(L, t, rows), old(marks), marks)
      decreases t, 4, 0
    {
      hide Eval, NodeAt, Test;
      var c := TestOf(t, path, 0, rows, list, None, held);
      if c.Raised? { return Raised(c.why); }
      if c.v == Unknown { return Got(Empty); }
      var i := if c.v == True then 1 else 2;
      ChildPlace(root, path, t, i, t.args[i]);
      r := Value(t.args[i], path + [i], rows, list, None, held);
    }

    method IfWithRow(t: Tree, path: Path, rows: seq<Row>, list: nat, row: Row, held: map<nat, seq<Row>>)
      returns (r: Answer<Scalar>)
      requires IsIf(L, t)
      requires NodeAt(root, path) == Some(t) && list in held && held[list] == rows && Sound() && Keeps(held)
      modifies this
      ensures Sound() && Keeps(held)
      ensures Agrees(r, IfOnRow(L, t, rows, row), old(marks), marks)
      decreases t, 4, 0
    {
      hide Eval, NodeAt, Column;
      var col := ColumnOf(t, path, 0, rows, list, held);
      if col.Raised? { return Raised(col.why); }
      var p := PlaceOf(rows, list, row, held);
      if p.None? { return Raised(Lost); }
      var c := col.v[p.value];
      if c == Unknown { return Got(Empty); }
      var i := if c == True then 1 else 2;
      var sent := Chosen(rows, col.v, c);
      ChildPlace(root, path, t, i, t.args[i]);
      r := BranchValue(t.args[i], path + [i], sent, row, held);
    }

    method CaseWithoutRow(t: Tree, path: Path, rows: seq<Row>, list: nat, held: map<nat, seq<Row>>)
      returns (r: Answer<Scalar>)
      requires t.Case?
      requires NodeAt(root, path) == Some(t) && list in held && held[list] == rows && Sound() && Keeps(held)
      modifies this
      ensures Sound() && Keeps(held)
      ensures Agrees(r, CaseOnce(L, t, 0, rows), old(marks), marks)
      decreases t, 4, 0
    {
      hide Eval, NodeAt, Test;
      var k := 0;
      ghost var m: set<Mark> := {};
      while k < |t.whens|
        invariant 0 <= k <= |t.whens| && Sound() && Keeps(held) && marks == old(marks) + m
        invariant CaseOnce(L, t, 0, rows) == Marked(m, CaseOnce(L, t, k, rows))
      {
        ghost var g := Test(L, t, k, rows, None);
        var x := TestOf(t, path, k, rows, list, None, held);
        if x.Raised? { return Raised(x.why); }
        if x.v == True {
          var w := t.whens[k];
          assert w.then_ < w;
          assert (3 + 2 * k - 2) / 2 == k && (3 + 2 * k) % 2 == 1;
          ChildPlace(root, path, t, 3 + 2 * k, w.then_);
          r := Value(w.then_, path + [3 + 2 * k], rows, list, None, held);
          return;
        }
        m := m + g.marks;
        k := k + 1;
      }
      if t.otherwise.None? { return Got(Empty); }
      ChildPlace(root, path, t, 1, t.otherwise.value);
      r := Value(t.otherwise.value, path + [1], rows, list, None, held);
    }

    method AllColumns(t: Tree, path: Path, rows: seq<Row>, list: nat, held: map<nat, seq<Row>>)
      returns (r: Answer<seq<seq<Truth>>>)
      requires t.Case?
      requires NodeAt(root, path) == Some(t) && list in held && held[list] == rows && Sound() && Keeps(held)
      modifies this
      ensures Sound() && Keeps(held)
      ensures Agrees(r, Columns(L, t, 0, rows), old(marks), marks)
      decreases t, 3, 0
    {
      hide Column, NodeAt;
      var cols: seq<seq<Truth>> := [];
      var k := 0;
      PrefixNone(Columns(L, t, 0, rows));
      ghost var m: set<Mark> := {};
      while k < |t.whens|
        invariant 0 <= k <= |t.whens| && Sound() && Keeps(held) && marks == old(marks) + m
        invariant Columns(L, t, 0, rows) == Prefix(cols, m, Columns(L, t, k, rows))
      {
        ghost var g := Column(L, t, k, rows, 0);
        var c := ColumnOf(t, path, k, rows, list, held);
        if c.Raised? { return Raised(c.why); }
        PrefixMore(cols, m, [c.v], g.marks, Columns(L, t, k + 1, rows));
        m := m + g.marks;
        cols := cols + [c.v];
        k := k + 1;
      }
      PrefixAll(cols, m);
      r := Got(cols);
    }

    method CaseWithRow(t: Tree, path: Path, rows: seq<Row>, list: nat, row: Row, held: map<nat, seq<Row>>)
      returns (r: Answer<Scalar>)
      requires t.Case?
      requires NodeAt(root, path) == Some(t) && list in held && held[list] == rows && Sound() && Keeps(held)
      modifies this
      ensures Sound() && Keeps(held)
      ensures Agrees(r, CaseOnRow(L, t, rows, row), old(marks), marks)
      decreases t, 4, 0
    {
      hide Eval, NodeAt, Columns, Sound, Keeps, FirstTrue;
      var cols := AllColumns(t, path, rows, list, held);
      if cols.Raised? { return Raised(cols.why); }
      var taken := Taken(cols.v, |rows|);
      var p := PlaceOf(rows, list, row, held);
      if p.None? { return Raised(Lost); }
      var k := taken[p.value];
      if k < 0 && t.otherwise.None? { return Got(Empty); }
      var sent := Chosen(rows, taken, k);
      if k >= 0 {
        var w := t.whens[k];
        assert w.then_ < w;
        assert (3 + 2 * k - 2) / 2 == k && (3 + 2 * k) % 2 == 1;
        ChildPlace(root, path, t, 3 + 2 * k, w.then_);
        r := BranchValue(w.then_, path + [3 + 2 * k], sent, row, held);
      } else {
        ChildPlace(root, path, t, 1, t.otherwise.value);
        r := BranchValue(t.otherwise.value, path + [1], sent, row, held);
      }
    }
  }

  /** There is always an identity nothing has. */
  lemma {:induction false} Unused(used: set<nat>)
    ensures exists id: nat :: id !in used
  {
    var top := Top(used);
    assert top !in used;
  }

  ghost function Top(used: set<nat>): (n: nat)
    ensures forall x :: x in used ==> x < n
  {
    if used == {} then 0
    else
      var x :| x in used;
      var n := Top(used - {x});
      assert forall y :: y in used ==> y == x || y in used - {x};
      if x < n then n else x + 1
  }
}
