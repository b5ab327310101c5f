/** The grid filter's translator and SQL's three-valued reading of what it writes
    (column_filter.filter_column, get_column_filter_condition). */
module ColumnFilter {
  import opened Syntax

  // ---- SQL's logic -------------------------------------------------------------------------------------------------

  datatype Sql = Yes | No | Unknown

  function Of(b: bool): Sql { if b then Yes else No }
  function And3(a: Sql, b: Sql): Sql {
    if a == No || b == No then No else if a == Unknown || b == Unknown then Unknown else Yes
  }
  function Or3(a: Sql, b: Sql): Sql {
    if a == Yes || b == Yes then Yes else if a == Unknown || b == Unknown then Unknown else No
  }

  /** A cell of the column: no value, a text, or a number. */
  datatype Cell = Null | Txt(text: string) | Num(n: real)

  /** The column as it compares: its numbers as numbers or its text, and the three things the database brings - a
      number's text, ILIKE, and what reads as a number. */
  datatype Column = Column(numeric: bool, spell: real -> string, like: (string, string) -> bool,
                           read: string -> Option<real>)

  /** A column holds texts or numbers, and a number's text is not empty. */
  ghost predicate Fits(col: Column, c: Cell) {
    (c.Num? ==> col.numeric && col.spell(c.n) != "") && (c.Txt? ==> !col.numeric)
  }

  /** The cell as the search text - cast to a text. */
  function AsText(col: Column, c: Cell): Option<string> {
    match c case Null => None case Txt(t) => Some(t) case Num(n) => Some(col.spell(n))
  }

  datatype Compare = Eq | Ne | Lt | Le | Gt | Ge

  predicate Compares(op: Compare, a: real, b: real) {
    match op case Eq => a == b case Ne => a != b case Lt => a < b case Le => a <= b case Gt => a > b case Ge => a >= b
  }

  /** The conditions the translator writes. */
  datatype Expr =
    | AnyOfTexts(texts: seq<string>) | AnyOfNumbers(numbers: seq<real>)
    | IsBlank | IsNotBlank | Never
    | NumberIs(op: Compare, to: real) | TextIs(equal: bool, given: string)
    | Like(pattern: string) | NotLike(pattern: string)
    | All(each: seq<Expr>) | Any(each: seq<Expr>)

  /** SQL's answer for one row. */
  function Eval(col: Column, e: Expr, c: Cell): Sql {
    match e
    case AnyOfTexts(texts) => (match AsText(col, c) case None => Unknown case Some(t) => Of(t in texts))
    case AnyOfNumbers(numbers) => if c.Num? then Of(c.n in numbers) else Unknown
    case IsBlank => (match AsText(col, c) case None => Yes case Some(t) => Of(t == ""))
    case IsNotBlank => (match AsText(col, c) case None => No case Some(t) => Of(t != ""))
    case Never => No
    case NumberIs(op, to) => if c.Num? then Of(Compares(op, c.n, to)) else Unknown
    case TextIs(equal, to) => (match AsText(col, c) case None => Unknown case Some(t) => Of((t == to) == equal))
    case Like(pattern) => (match AsText(col, c) case None => Unknown case Some(t) => Of(col.like(t, pattern)))
    case NotLike(pattern) => (match AsText(col, c) case None => Unknown case Some(t) => Of(!col.like(t, pattern)))
    case All(each) => EvalAll(col, each, c)
    case Any(each) => EvalAny(col, each, c)
  }

  function EvalAll(col: Column, each: seq<Expr>, c: Cell): Sql {
    if each == [] then Yes else And3(Eval(col, each[0], c), EvalAll(col, each[1..], c))
  }

  function EvalAny(col: Column, each: seq<Expr>, c: Cell): Sql {
    if each == [] then No else Or3(Eval(col, each[0], c), EvalAny(col, each[1..], c))
  }

  /** WHERE keeps a row its condition is true of; no condition keeps every row. */
  predicate Kept(col: Column, e: Option<Expr>, c: Cell) { e.None? || Eval(col, e.value, c) == Yes }

  // ---- the filter's grammar ----------------------------------------------------------------------------------------

  datatype Kind = Contains | StartsWith | EndsWith | NotContains | Equals | NotEqual | LessThan | LessThanOrEqual
    | GreaterThan | GreaterThanOrEqual | InRange | BlankKind | NotBlankKind

  /** A filter as the grid sends it; `Strange` is a shape it does not read. */
  datatype Spec =
    | Compound(isAnd: bool, conditions: seq<Spec>)
    | SetOf(values: seq<Option<string>>, typedBlank: bool)   // typed «blank» too: only a pivot reads it
    | Simple(kind: Kind, filter: Option<string>, filterTo: Option<string>)
    | Strange

  datatype Translated = Refused | Condition(e: Option<Expr>)

  function Pattern(kind: Kind, f: string): string {
    match kind
    case StartsWith => f + "%" case EndsWith => "%" + f case _ => "%" + f + "%"
  }

  function CompareOf(kind: Kind): Option<Compare> {
    match kind
    case Equals => Some(Eq) case NotEqual => Some(Ne) case LessThan => Some(Lt) case LessThanOrEqual => Some(Le)
    case GreaterThan => Some(Gt) case GreaterThanOrEqual => Some(Ge) case _ => None
  }

  function ReadAll(col: Column, texts: seq<string>): Option<seq<real>> {
    if texts == [] then Some([])
    else
      match col.read(texts[0])
      case None => None
      case Some(n) => (match ReadAll(col, texts[1..]) case None => None case Some(rest) => Some([n] + rest))
  }

  function Given(values: seq<Option<string>>): seq<string> {
    if values == [] then []
    else match values[0] case None => Given(values[1..]) case Some(v) => [v] + Given(values[1..])
  }

  /** A set filter: each value as equals reads it, a null the blank cells, nothing given nothing kept. */
  function TranslateSet(col: Column, values: seq<Option<string>>): Translated {
    var given := Given(values);
    var blank := if |given| < |values| then [IsBlank] else [];
    if col.numeric then
      match ReadAll(col, given)
      case None => Refused
      case Some(numbers) =>
        var met := (if numbers == [] then [] else [AnyOfNumbers(numbers)]) + blank;
        Condition(Some(if met == [] then Never else Any(met)))
    else
      var met := (if given == [] then [] else [AnyOfTexts(given)]) + blank;
      Condition(Some(if met == [] then Never else Any(met)))
  }

  function TranslateSimple(col: Column, kind: Kind, filter: Option<string>, filterTo: Option<string>): Translated {
    if kind == BlankKind then Condition(Some(IsBlank))
    else if kind == NotBlankKind then Condition(Some(IsNotBlank))
    else if filter.None? then Condition(None)
    else if col.numeric && kind == InRange then
      match (col.read(filter.value), if filterTo.Some? then col.read(filterTo.value) else None)
      case (Some(low), Some(high)) => Condition(Some(All([NumberIs(Ge, low), NumberIs(Le, high)])))
      case _ => Refused
    else if col.numeric && CompareOf(kind).Some? then
      match col.read(filter.value)
      case None => Refused
      case Some(n) => Condition(Some(NumberIs(CompareOf(kind).value, n)))
    else
      match kind
      case Contains => Condition(Some(Like(Pattern(kind, filter.value))))
      case StartsWith => Condition(Some(Like(Pattern(kind, filter.value))))
      case EndsWith => Condition(Some(Like(Pattern(kind, filter.value))))
      case NotContains => Condition(Some(NotLike(Pattern(kind, filter.value))))
      case Equals => Condition(Some(TextIs(true, filter.value)))
      case NotEqual => Condition(Some(TextIs(false, filter.value)))
      case _ => Refused
  }

  /** `get_column_filter_condition` */
  function Translate(col: Column, s: Spec): Translated {
    match s
    case Compound(isAnd, conditions) =>
      (match TranslateEach(col, conditions)
       case None => Refused
       case Some(each) => Condition(if each == [] then None else Some(if isAnd then All(each) else Any(each))))
    case SetOf(values, _) => TranslateSet(col, values)
    case Simple(kind, filter, filterTo) => TranslateSimple(col, kind, filter, filterTo)
    case Strange => Refused
  }

  /** The conditions of a compound filter that narrow; one refused refuses it. */
  function TranslateEach(col: Column, conditions: seq<Spec>): Option<seq<Expr>> {
    if conditions == [] then Some([])
    else
      match Translate(col, conditions[0])
      case Refused => None
      case Condition(e) =>
        match TranslateEach(col, conditions[1..])
        case None => None
        case Some(rest) => Some((match e case None => [] case Some(x) => [x]) + rest)
  }

  /** What is collected so far and what is left make the whole. */
  predicate Collected(whole: Option<seq<Expr>>, each: seq<Expr>, left: Option<seq<Expr>>) {
    if left.None? then whole.None? else whole == Some(each + left.value)
  }

  /** The compound branch as it runs: the conditions collected one by one. */
  method TranslateCompound(col: Column, isAnd: bool, conditions: seq<Spec>) returns (t: Translated)
    ensures t == Translate(col, Compound(isAnd, conditions))
  {
    hide Translate;
    var each: seq<Expr> := [];
    assert conditions[0..] == conditions;
    assert Collected(TranslateEach(col, conditions), each, TranslateEach(col, conditions)) by {
      var whole := TranslateEach(col, conditions);
      if whole.Some? { assert [] + whole.value == whole.value; }
    }
    for i := 0 to |conditions|
      invariant Collected(TranslateEach(col, conditions), each, TranslateEach(col, conditions[i..]))
    {
      var sub := Translate(col, conditions[i]);
      assert conditions[i..] != [] && conditions[i..][0] == conditions[i]
             && conditions[i..][1..] == conditions[i + 1..];
      EachStep(col, conditions[i..]);
      ghost var left := TranslateEach(col, conditions[i + 1..]);
      match sub {
        case Refused =>
          CompoundIs(col, isAnd, conditions);
          return Refused;
        case Condition(e) =>
          if e.Some? {
            if left.Some? { assert each + ([e.value] + left.value) == each + [e.value] + left.value; }
            each := each + [e.value];
          } else if left.Some? {
            assert [] + left.value == left.value;
          }
      }
    }
    t := Condition(if each == [] then None else Some(if isAnd then All(each) else Any(each)));
    assert conditions[|conditions|..] == [];
    assert TranslateEach(col, []) == Some([]) && each + [] == each;
    CompoundIs(col, isAnd, conditions);
  }

  lemma {:induction false} EachStep(col: Column, conditions: seq<Spec>)
    requires conditions != []
    ensures var first, rest := Translate(col, conditions[0]), TranslateEach(col, conditions[1..]);
            TranslateEach(col, conditions) ==
              if first.Refused? || rest.None? then None
              else Some((match first.e case None => [] case Some(x) => [x]) + rest.value)
  {
  }

  lemma {:induction false} CompoundIs(col: Column, isAnd: bool, conditions: seq<Spec>)
    ensures Translate(col, Compound(isAnd, conditions)) ==
              match TranslateEach(col, conditions)
              case None => Refused
              case Some(each) => Condition(if each == [] then None else Some(if isAnd then All(each) else Any(each)))
  {
  }

  // ---- what the user sees ------------------------------------------------------------------------------------------

  /** The cell shows nothing. */
  predicate ShowsBlank(col: Column, c: Cell) { AsText(col, c) == None || AsText(col, c) == Some("") }

  /** A value equals the cell as the column compares. */
  predicate ShowsValue(col: Column, v: string, c: Cell) {
    if col.numeric then c.Num? && col.read(v) == Some(c.n) else c.Txt? && c.text == v
  }

  /** The kinds a number column compares as numbers. */
  predicate InNumbers(kind: Kind) {
    match kind
    case Equals | NotEqual | LessThan | LessThanOrEqual | GreaterThan | GreaterThanOrEqual => true
    case _ => false
  }

  predicate PassesSimple(col: Column, kind: Kind, f: string, filterTo: Option<string>, c: Cell) {
    if col.numeric && kind == InRange then
      c.Num? && filterTo.Some?
      && (match (col.read(f), col.read(filterTo.value)) case (Some(a), Some(b)) => a <= c.n <= b case _ => false)
    else if col.numeric && InNumbers(kind) then
      c.Num? && col.read(f).Some? &&
      var n := col.read(f).value;
      match kind
      case Equals => c.n == n
      case NotEqual => c.n != n
      case LessThan => c.n < n
      case LessThanOrEqual => c.n <= n
      case GreaterThan => c.n > n
      case GreaterThanOrEqual => c.n >= n
      case _ => false
    else
      AsText(col, c).Some? &&
      var t := AsText(col, c).value;
      match kind
      case Contains => col.like(t, "%" + f + "%")
      case StartsWith => col.like(t, f + "%")
      case EndsWith => col.like(t, "%" + f)
      case NotContains => !col.like(t, "%" + f + "%")
      case Equals => t == f
      case NotEqual => t != f
      case _ => false
  }

  /** A filter that narrows nothing: no value to compare with, or a compound of such. */
  predicate Idle(s: Spec) {
    match s
    case Compound(_, conditions) => AllIdle(conditions)
    case Simple(kind, filter, _) => kind != BlankKind && kind != NotBlankKind && filter.None?
    case _ => false
  }

  predicate AllIdle(conditions: seq<Spec>) { conditions == [] || (Idle(conditions[0]) && AllIdle(conditions[1..])) }

  predicate PassesAll(col: Column, conditions: seq<Spec>, c: Cell) {
    conditions == [] || ((Idle(conditions[0]) || Passes(col, conditions[0], c)) && PassesAll(col, conditions[1..], c))
  }

  predicate PassesAny(col: Column, conditions: seq<Spec>, c: Cell) {
    conditions != [] && ((!Idle(conditions[0]) && Passes(col, conditions[0], c)) || PassesAny(col, conditions[1..], c))
  }

  /** Whether a filter takes a cell, in two values: every condition that narrows for AND, one of them for OR, and a cell
      without a value meets no comparison - not even «not equal». */
  predicate Passes(col: Column, s: Spec, c: Cell) {
    match s
    case Compound(isAnd, conditions) =>
      AllIdle(conditions) || if isAnd then PassesAll(col, conditions, c) else PassesAny(col, conditions, c)
    case SetOf(values, _) =>
      (None in values && ShowsBlank(col, c))
      || exists i :: 0 <= i < |values| && values[i].Some? && ShowsValue(col, values[i].value, c)
    case Simple(kind, filter, filterTo) =>
      if kind == BlankKind then ShowsBlank(col, c)
      else if kind == NotBlankKind then !ShowsBlank(col, c)
      else filter.None? || PassesSimple(col, kind, filter.value, filterTo, c)
    case Strange => false
  }

  // ---- the two agree -----------------------------------------------------------------------------------------------

  lemma {:induction false} AllYes(col: Column, each: seq<Expr>, c: Cell)
    ensures EvalAll(col, each, c) == Yes <==> forall i :: 0 <= i < |each| ==> Eval(col, each[i], c) == Yes
    decreases |each|
  {
    hide Eval;
    if each != [] {
      AllYes(col, each[1..], c);
      assert each == [each[0]] + each[1..];
    }
  }

  lemma {:induction false} AnyYes(col: Column, each: seq<Expr>, c: Cell)
    ensures EvalAny(col, each, c) == Yes <==> exists i :: 0 <= i < |each| && Eval(col, each[i], c) == Yes
    decreases |each|
  {
    hide Eval;
    if each != [] {
      AnyYes(col, each[1..], c);
      var rest := each[1..];
      if EvalAny(col, rest, c) == Yes {
        var i :| 0 <= i < |rest| && Eval(col, rest[i], c) == Yes;
        assert each[i + 1] == rest[i];
      }
      if exists i :: 0 < i < |each| && Eval(col, each[i], c) == Yes {
        var i :| 0 < i < |each| && Eval(col, each[i], c) == Yes;
        assert rest[i - 1] == each[i];
      }
    }
  }

  lemma {:induction false} GivenAre(values: seq<Option<string>>)
    ensures |Given(values)| <= |values| && (|Given(values)| < |values| <==> None in values)
    ensures forall v :: v in Given(values) <==> Some(v) in values
    decreases |values|
  {
    if values != [] { GivenAre(values[1..]); }
  }

  lemma {:induction false} ReadAre(col: Column, texts: seq<string>)
    ensures ReadAll(col, texts).Some? ==>
              forall n :: n in ReadAll(col, texts).value
                <==> exists i :: 0 <= i < |texts| && col.read(texts[i]) == Some(n)
    decreases |texts|
  {
    if texts != [] && ReadAll(col, texts).Some? {
      ReadAre(col, texts[1..]);
      var rest := ReadAll(col, texts[1..]).value;
      forall n
        ensures n in ReadAll(col, texts).value <==> exists i :: 0 <= i < |texts| && col.read(texts[i]) == Some(n)
      {
        if n in rest {
          var i :| 0 <= i < |texts[1..]| && col.read(texts[1..][i]) == Some(n);
          assert texts[i + 1] == texts[1..][i];
        }
        if exists i :: 0 < i < |texts| && col.read(texts[i]) == Some(n) {
          var i :| 0 < i < |texts| && col.read(texts[i]) == Some(n);
          assert texts[1..][i - 1] == texts[i];
        }
      }
    }
  }

  /** The set filter's condition, by what its parts say. */
  lemma {:induction false} SetEval(col: Column, met: seq<Expr>, blank: seq<Expr>, c: Cell)
    requires |met| <= 1 && (blank == [] || blank == [IsBlank])
    ensures Eval(col, if met + blank == [] then Never else Any(met + blank), c) == Yes
        <==> (met != [] && Eval(col, met[0], c) == Yes) || (blank != [] && Eval(col, IsBlank, c) == Yes)
  {
    AnyYes(col, met + blank, c);
    if met + blank == [] { assert met == [] && blank == []; }
  }

  lemma {:induction false} SetKeeps(col: Column, values: seq<Option<string>>, c: Cell)
    requires Fits(col, c) && TranslateSet(col, values).Condition?
    ensures TranslateSet(col, values).e.Some?
    ensures forall typed :: Kept(col, TranslateSet(col, values).e, c) <==> Passes(col, SetOf(values, typed), c)
  {
    GivenAre(values);
    var given := Given(values);
    ReadAre(col, given);
    var blank := if |given| < |values| then [IsBlank] else [];
    var met := if col.numeric then (var n := ReadAll(col, given).value; if n == [] then [] else [AnyOfNumbers(n)])
               else if given == [] then [] else [AnyOfTexts(given)];
    SetEval(col, met, blank, c);
    ShownAmong(col, values, c);
    MetShows(col, given, met, c);
    hide Given, ReadAll, Fits;
  }

  lemma {:induction false} MetShows(col: Column, given: seq<string>, met: seq<Expr>, c: Cell)
    requires Fits(col, c) && (col.numeric ==> ReadAll(col, given).Some?)
    requires met == (if col.numeric then (var n := ReadAll(col, given).value; if n == [] then [] else [AnyOfNumbers(n)])
                     else if given == [] then [] else [AnyOfTexts(given)])
    ensures (met != [] && Eval(col, met[0], c) == Yes) <==> exists v :: v in given && ShowsValue(col, v, c)
  {
    ReadAre(col, given);
    if col.numeric {
      var n := ReadAll(col, given).value;
      if c.Num? && c.n in n {
        var i :| 0 <= i < |given| && col.read(given[i]) == Some(c.n);
        assert given[i] in given && ShowsValue(col, given[i], c);
      }
      if exists v :: v in given && ShowsValue(col, v, c) {
        var v :| v in given && ShowsValue(col, v, c);
        var i :| 0 <= i < |given| && given[i] == v;
        assert c.n in n;
      }
    } else if c.Txt? && c.text in given {
      assert ShowsValue(col, c.text, c);
    }
  }

  /** A listed value equals the cell, said of the list without its nulls. */
  lemma {:induction false} ShownAmong(col: Column, values: seq<Option<string>>, c: Cell)
    ensures (exists i :: 0 <= i < |values| && values[i].Some? && ShowsValue(col, values[i].value, c))
        <==> (exists v :: v in Given(values) && ShowsValue(col, v, c))
  {
    GivenAre(values);
    hide Given;
    if exists v :: v in Given(values) && ShowsValue(col, v, c) {
      var v :| v in Given(values) && ShowsValue(col, v, c);
      var i :| 0 <= i < |values| && values[i] == Some(v);
    }
    if exists i :: 0 <= i < |values| && values[i].Some? && ShowsValue(col, values[i].value, c) {
      var i :| 0 <= i < |values| && values[i].Some? && ShowsValue(col, values[i].value, c);
      assert values[i].value in Given(values);
    }
  }

  lemma {:induction false} SimpleKeeps(col: Column, kind: Kind, filter: Option<string>, filterTo: Option<string>,
                                       c: Cell)
    requires Fits(col, c) && TranslateSimple(col, kind, filter, filterTo).Condition?
    ensures var e := TranslateSimple(col, kind, filter, filterTo).e;
            && (e.None? <==> Idle(Simple(kind, filter, filterTo)))
            && (Kept(col, e, c) <==> Passes(col, Simple(kind, filter, filterTo), c))
  {
    if filter.Some? && col.numeric && kind == InRange && filterTo.Some?
       && col.read(filter.value).Some? && col.read(filterTo.value).Some?
    {
      AllYes(col, [NumberIs(Ge, col.read(filter.value).value), NumberIs(Le, col.read(filterTo.value).value)], c);
    }
  }

  /** The rows SQL keeps are the rows the filter takes: three-valued logic and the dropped conditions change nothing the
      user could see, whatever the filter, the column and the cell. */
  lemma {:induction false} KeepsWhatPasses(col: Column, s: Spec, c: Cell)
    requires Fits(col, c) && Translate(col, s).Condition?
    ensures Translate(col, s).e.None? <==> Idle(s)
    ensures Kept(col, Translate(col, s).e, c) <==> Passes(col, s, c)
    decreases s, if s.Compound? then |s.conditions| + 2 else 0
  {
    match s
    case Compound(isAnd, conditions) => CompoundKeeps(col, s, c);
    case SetOf(values, _) => SetKeeps(col, values, c);
    case Simple(kind, filter, filterTo) => SimpleKeeps(col, kind, filter, filterTo, c);
    case Strange =>
  }

  /** What a list of conditions collects: kept by all and by any, in terms of the ones that narrow. */
  lemma {:induction false} EachKeeps(col: Column, whole: Spec, conditions: seq<Spec>, c: Cell)
    requires Fits(col, c) && TranslateEach(col, conditions).Some?
    requires forall s :: s in conditions ==> s < whole
    ensures var each := TranslateEach(col, conditions).value;
            && (each == [] <==> AllIdle(conditions))
            && (EvalAll(col, each, c) == Yes <==> PassesAll(col, conditions, c))
            && (EvalAny(col, each, c) == Yes <==> PassesAny(col, conditions, c))
    decreases whole, |conditions|
  {
    if conditions != [] {
      var first, rest := conditions[0], conditions[1..];
      assert forall s :: s in rest ==> s in conditions;
      assert first in conditions;
      KeepsWhatPasses(col, first, c);
      EachKeeps(col, whole, rest, c);
      hide Idle, Passes, Eval, Translate;
      var each, e := TranslateEach(col, rest).value, Translate(col, first).e;
      if e.Some? { assert ([e.value] + each)[1..] == each; } else { assert [] + each == each; }
    }
  }

  lemma {:induction false} CompoundKeeps(col: Column, s: Spec, c: Cell)
    requires s.Compound? && Fits(col, c) && Translate(col, s).Condition?
    ensures Translate(col, s).e.None? <==> Idle(s)
    ensures Kept(col, Translate(col, s).e, c) <==> Passes(col, s, c)
    decreases s, |s.conditions| + 1
  {
    assert forall x :: x in s.conditions ==> x < s;
    EachKeeps(col, s, s.conditions, c);
    hide TranslateEach;
  }
}
