/** The tokens and the trees of the expression calculator (server/expression.py). */
module Syntax {

  datatype Option<+T> = None | Some(value: T)

  datatype Keyword =
    | KwOr | KwXor | KwAnd | KwNot | KwIs | KwNull | KwTrue | KwFalse
    | KwCase | KwWhen | KwThen | KwElse | KwEnd | KwDistinct

  datatype Op =
    | OpNullEq | OpLe | OpGe | OpNe | OpBangEq | OpLt | OpGt | OpEq
    | OpPlus | OpMinus | OpTimes | OpDivide | OpPercent | OpCaret
    | OpOpen | OpClose | OpComma | OpColon

  /** A number keeps the text it was written with; its value is read by whoever evaluates it. */
  datatype Token =
    | TNum(lexeme: string)
    | TStr(text: string)
    | TRef(name: string)
    | TKw(kw: Keyword)
    | TId(word: string)
    | TOp(op: Op)

  datatype Literal = LNum(lexeme: string) | LStr(text: string) | LBool(b: bool) | LNull

  datatype LogicOp = Or | Xor | And
  datatype CmpOp = Equal | NotEqual | NullEqual | Less | Greater | LessEqual | GreaterEqual
  datatype ArithOp = Add | Subtract | Multiply | Divide | Modulo | Power

  datatype When = When(test: Tree, then_: Tree)

  datatype Tree =
    | Lit(v: Literal)
    | Ref(name: string)
    | Neg(a: Tree)
    | Not(a: Tree)
    | Logic(lop: LogicOp, a: Tree, b: Tree)
    | Cmp(cop: CmpOp, a: Tree, b: Tree)
    | Arith(aop: ArithOp, a: Tree, b: Tree)
    | IsNull(a: Tree, negate: bool)
    | Case(subject: Option<Tree>, whens: seq<When>, otherwise: Option<Tree>)
    | Call(fn: string, args: seq<Tree>, distinct: bool)

  /** How a function of the table takes its arguments (the `kind`, `pair`, `params`, `rowwise`, `none`
      cells of FUNCTIONS). `formatted`: the row function whose second argument is a format in quotes. */
  datatype Shape =
    | IfShape
    | RowShape(arity: nat, formatted: bool)
    | PairFold
    | ParamFold(params: nat)
    | ManyFold            // rowwise: one column over the rows, or two arguments and more over one row
    | CountFold           // none: zero or one argument
    | ColumnFold

  predicate IsFold(s: Shape) {
    s.PairFold? || s.ParamFold? || s.ManyFold? || s.CountFold? || s.ColumnFold?
  }

  /** `_arity`: does a call of this shape take `n` arguments. */
  predicate Takes(s: Shape, n: nat) {
    match s
    case IfShape => n == 3
    case RowShape(arity, _) => n == arity
    case PairFold => n == 2
    case ParamFold(params) => n == 1 + params
    case ManyFold => n >= 1
    case CountFold => n <= 1
    case ColumnFold => n == 1
  }

  /** `_arity`: where `distinct` may stand - a fold of one column. */
  predicate TakesDistinct(s: Shape, n: nat) {
    IsFold(s) && !s.PairFold? && !(s.ManyFold? && n > 1)
  }

  /** The function table: names by their lower-case spelling, each name's shape, and the date formats read. */
  datatype Table = Table(byName: map<string, string>, shapes: map<string, Shape>, formats: string -> bool)

  /** `_net_format_given`: the format is a text in quotes, in the closed set. */
  predicate FormatGiven(T: Table, args: seq<Tree>) {
    |args| >= 2 && args[1].Lit? && args[1].v.LStr? && T.formats(args[1].v.text)
  }

  /** `_arity` with its `check`: the call a parser may build. */
  predicate CallFits(T: Table, name: string, args: seq<Tree>, distinct: bool) {
    && name in T.shapes
    && var s := T.shapes[name];
    && Takes(s, |args|)
    && (s.RowShape? && s.formatted ==> FormatGiven(T, args))
    && (distinct ==> TakesDistinct(s, |args|))
  }
}
