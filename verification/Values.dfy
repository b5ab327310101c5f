/** What rows hold and what operators answer: empties, comparisons, arithmetic and three-valued logic. */
module Values {
  import opened Syntax
  import opened Words

  /** A value a tree is answered with. Numbers are exact. */
  datatype Scalar = Empty | Flag(b: bool) | Number(n: real) | Text(s: string)

  /** What a row holds under a name: one value or several, nested as they come. */
  datatype Cell = One(v: Scalar) | Many(cells: seq<Cell>)

  /** A row: which object it is, what it holds, and its time (`_time_of_row`). One object is one row. */
  datatype Row = Row(id: nat, cells: map<string, Cell>, time: Option<real>)

  /** One value for a fold, with its row's time. */
  datatype Item = Item(v: Scalar, t: Option<real>)

  /** True, false, or neither - what a condition is. */
  datatype Truth = True | False | Unknown

  /** Empty: no value, or a text of blanks only. */
  predicate Blank(v: Scalar) {
    v.Empty? || (v.Text? && forall i :: 0 <= i < |v.s| ==> IsSpace(v.s[i]))
  }

  /** A cell's items, nested lists opened, empties left out. */
  function ItemsOf(c: Cell, t: Option<real>): seq<Item> {
    match c
    case One(v) => if Blank(v) then [] else [Item(v, t)]
    case Many(cells) => ItemsOfAll(cells, t)
  }

  function ItemsOfAll(cells: seq<Cell>, t: Option<real>): seq<Item> {
    if cells == [] then [] else ItemsOf(cells[0], t) + ItemsOfAll(cells[1..], t)
  }

  /** The values of items, each once, in the order met. */
  function DistinctValues(items: seq<Item>): seq<Scalar> {
    if items == [] then []
    else
      var before := DistinctValues(items[..|items| - 1]);
      var v := items[|items| - 1].v;
      if v in before then before else before + [v]
  }

  /** `distinct` in a fold: the place of the first of a value, the item of the last. */
  function DistinctItems(items: seq<Item>): seq<Item> {
    if items == [] then []
    else PutItem(DistinctItems(items[..|items| - 1]), items[|items| - 1])
  }

  function PutItem(kept: seq<Item>, it: Item): seq<Item> {
    if kept == [] then [it]
    else if kept[0].v == it.v then [it] + kept[1..]
    else [kept[0]] + PutItem(kept[1..], it)
  }

  function TruthOf(v: Scalar): Truth {
    if v == Flag(true) then True else if v == Flag(false) then False else Unknown
  }

  function OfTruth(t: Truth): Scalar {
    match t case True => Flag(true) case False => Flag(false) case Unknown => Empty
  }

  function Negated(t: Truth): Truth {
    match t case True => False case False => True case Unknown => Unknown
  }

  function Combined(op: LogicOp, a: Truth, b: Truth): Truth {
    match op
    case And => if a == False || b == False then False else if a == True && b == True then True else Unknown
    case Or => if a == True || b == True then True else if a == False && b == False then False else Unknown
    case Xor => if a == Unknown || b == Unknown then Unknown else if a != b then True else False
  }

  /** Text by character: below, equal or above. */
  function TextOrder(a: string, b: string): int {
    if a == "" && b == "" then 0 else if a == "" then -1 else if b == "" then 1
    else if a[0] < b[0] then -1 else if a[0] > b[0] then 1 else TextOrder(a[1..], b[1..])
  }

  function FlagText(b: bool): string { if b then "true" else "false" }

  /** The order of two values of one kind. */
  function Order(a: Scalar, b: Scalar): int
    requires !a.Empty? && (a.Number? <==> b.Number?) && (a.Flag? <==> b.Flag?) && (a.Text? <==> b.Text?)
  {
    match a
    case Number(x) => if x < b.n then -1 else if x > b.n then 1 else 0
    case Flag(x) => TextOrder(FlagText(x), FlagText(b.b))
    case Text(x) => TextOrder(x, b.s)
  }

  function Holds(op: CmpOp, c: int): bool {
    match op
    case Equal => c == 0 case NullEqual => c == 0 case NotEqual => c != 0
    case Less => c < 0 case Greater => c > 0 case LessEqual => c <= 0 case GreaterEqual => c >= 0
  }

  /** What the library outside this model answers: number texts, powers, the row functions and the folds of the
      function table. A row function may refuse its arguments and may meet a value that is not a time. */
  datatype RowAnswer = RowAnswer(value: Option<Scalar>, notTime: bool)

  datatype Lib = Lib(
    shapes: map<string, Shape>,
    columnTypes: map<string, string>,
    numberText: string -> Option<real>,
    power: (real, real) -> Option<real>,
    rowFn: (string, seq<Scalar>) -> RowAnswer,
    fold: (string, seq<Item>, seq<Option<real>>) -> Scalar,
    foldByTime: (string, seq<Item>) -> Scalar,
    pairFold: (string, seq<(Scalar, Scalar)>) -> Scalar)

  function NumberOf(L: Lib, v: Scalar): Option<real> {
    match v
    case Number(x) => Some(x)
    case Text(s) => L.numberText(s)
    case _ => None
  }

  /** Not empty and no number: an operator's row is counted. */
  predicate NotNumber(L: Lib, v: Scalar) { !Blank(v) && NumberOf(L, v).None? }

  function OfNumber(x: Option<real>): Scalar {
    match x case None => Empty case Some(n) => Number(n)
  }

  function Calculated(L: Lib, op: ArithOp, a: Scalar, b: Scalar): Scalar {
    match (NumberOf(L, a), NumberOf(L, b))
    case (Some(x), Some(y)) =>
      (match op
       case Add => Number(x + y)
       case Subtract => Number(x - y)
       case Multiply => Number(x * y)
       case Divide => if y == 0.0 then Empty else Number(x / y)
       case Modulo => if y == 0.0 then Empty else Number(x - y * (x / y).Floor as real)
       case Power => OfNumber(L.power(x, y)))
    case _ => Empty
  }

  predicate SameKind(a: Scalar, b: Scalar) {
    (a.Number? && b.Number?) || (a.Flag? && b.Flag?) || (a.Text? && b.Text?)
  }

  /** `_compare`: «<=>» takes empties, any other comparison with an empty is neither true nor false. */
  function Compared(L: Lib, op: CmpOp, a: Scalar, b: Scalar): Truth {
    if op == NullEqual && (Blank(a) || Blank(b)) then (if Blank(a) && Blank(b) then True else False)
    else if Blank(a) || Blank(b) then Unknown
    else if SameKind(a, b) then (if Holds(op, Order(a, b)) then True else False)
    else
      match (NumberOf(L, a), NumberOf(L, b))
      case (Some(x), Some(y)) => if Holds(op, Order(Number(x), Number(y))) then True else False
      case _ => Unknown
  }

  /** A row's value under a name, or nothing. */
  function Held(r: Row, name: string): Cell {
    if name in r.cells then r.cells[name] else One(Empty)
  }

  function LiteralValue(L: Lib, v: Literal): Scalar {
    match v
    case LNum(l) => OfNumber(L.numberText(l))
    case LStr(s) => Text(s)
    case LBool(b) => Flag(b)
    case LNull => Empty
  }
}
