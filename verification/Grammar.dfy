/** The reading of the calculator's grammar as one recursive function over the tokens left to read, level by
    level: or 0 . xor 1 . and 2 . not 3 . equality 4 . relational 5 . is null 6 . additive 7 . multiplicative 8 .
    unary 9 . power 10 . primary 11. `ParserMachine` is the cursor that computes it. */
module Grammar {
  import opened Syntax
  import opened Words

  datatype Why = Expected | NotExpected | EndsTooSoon | WayFromTheRow | SheetCell | NotAFunction | CallRefused

  datatype Parse = Ok(tree: Tree, rest: seq<Token>) | Err(why: Why)
  datatype ParseMany = Oks(trees: seq<Tree>, rest: seq<Token>) | Errs(why: Why)
  datatype ParseWhens = OkWhens(whens: seq<When>, rest: seq<Token>) | ErrWhens(why: Why)

  predicate StartsKw(ts: seq<Token>, kw: Keyword) { |ts| > 0 && ts[0] == TKw(kw) }
  predicate StartsOp(ts: seq<Token>, op: Op) { |ts| > 0 && ts[0] == TOp(op) }

  /** The left-associative levels: a loop of one operator class over the level above. */
  predicate LeftLevel(k: nat) { k == 0 || k == 1 || k == 2 || k == 4 || k == 5 || k == 7 || k == 8 }

  /** The level whose loop (or tail) `tok` continues. */
  function ContinuesAt(tok: Token): Option<nat> {
    match tok
    case TKw(KwOr) => Some(0)
    case TKw(KwXor) => Some(1)
    case TKw(KwAnd) => Some(2)
    case TKw(KwIs) => Some(6)
    case TOp(op) =>
      (match op
       case OpEq | OpNe | OpBangEq | OpNullEq => Some(4)
       case OpLt | OpGt | OpLe | OpGe => Some(5)
       case OpPlus | OpMinus => Some(7)
       case OpTimes | OpDivide | OpPercent => Some(8)
       case OpCaret => Some(10)
       case _ => None)
    case _ => None
  }

  predicate Continues(ts: seq<Token>, k: nat) { |ts| > 0 && ContinuesAt(ts[0]) == Some(k) }

  /** The tree of `a <tok> b` - «!=» is written down as «<>». */
  function Join(tok: Token, a: Tree, b: Tree): (t: Tree)
    requires ContinuesAt(tok).Some? && ContinuesAt(tok) != Some(6)
    ensures (t.Logic? || t.Cmp? || t.Arith?) && t.a == a && t.b == b
  {
    match tok
    case TKw(kw) => Logic(if kw == KwOr then Or else if kw == KwXor then Xor else And, a, b)
    case TOp(op) =>
      match op
      case OpEq => Cmp(Equal, a, b)
      case OpNe => Cmp(NotEqual, a, b)
      case OpBangEq => Cmp(NotEqual, a, b)
      case OpNullEq => Cmp(NullEqual, a, b)
      case OpLt => Cmp(Less, a, b)
      case OpGt => Cmp(Greater, a, b)
      case OpLe => Cmp(LessEqual, a, b)
      case OpGe => Cmp(GreaterEqual, a, b)
      case OpPlus => Arith(Add, a, b)
      case OpMinus => Arith(Subtract, a, b)
      case OpTimes => Arith(Multiply, a, b)
      case OpDivide => Arith(Divide, a, b)
      case OpPercent => Arith(Modulo, a, b)
      case OpCaret => Arith(Power, a, b)
  }

  function Level(T: Table, k: nat, ts: seq<Token>): (r: Parse)
    requires k <= 11
    ensures r.Ok? ==> |r.rest| < |ts|
    decreases |ts|, 12 - k, 2
  {
    if LeftLevel(k) then
      match Level(T, k + 1, ts)
      case Err(e) => Err(e)
      case Ok(a, rest) => Loop(T, k, a, rest)
    else if k == 3 then
      if StartsKw(ts, KwNot) then
        match Level(T, 3, ts[1..])
        case Err(e) => Err(e)
        case Ok(a, rest) => Ok(Not(a), rest)
      else Level(T, 4, ts)
    else if k == 6 then
      match Level(T, 7, ts)
      case Err(e) => Err(e)
      case Ok(a, rest) => NullTail(a, rest)
    else if k == 9 then
      if StartsOp(ts, OpMinus) then
        match Level(T, 9, ts[1..])
        case Err(e) => Err(e)
        case Ok(a, rest) => Ok(Neg(a), rest)
      else if StartsOp(ts, OpPlus) then Level(T, 9, ts[1..])
      else Level(T, 10, ts)
    else if k == 10 then
      match Level(T, 11, ts)
      case Err(e) => Err(e)
      case Ok(a, rest) =>
        if StartsOp(rest, OpCaret) then
          match Level(T, 9, rest[1..])
          case Err(e) => Err(e)
          case Ok(b, rest') => Ok(Arith(Power, a, b), rest')
        else Ok(a, rest)
    else Primary(T, ts)
  }

  function Loop(T: Table, k: nat, a: Tree, ts: seq<Token>): (r: Parse)
    requires LeftLevel(k)
    ensures r.Ok? ==> |r.rest| <= |ts|
    decreases |ts|, 12 - k, 1
  {
    if !Continues(ts, k) then Ok(a, ts)
    else
      match Level(T, k + 1, ts[1..])
      case Err(e) => Err(e)
      case Ok(b, rest) => Loop(T, k, Join(ts[0], a, b), rest)
  }

  function NullTail(a: Tree, ts: seq<Token>): (r: Parse)
    ensures r.Ok? ==> |r.rest| <= |ts|
  {
    if !StartsKw(ts, KwIs) then Ok(a, ts)
    else
      var negate := StartsKw(ts[1..], KwNot);
      var left := if negate then ts[2..] else ts[1..];
      if StartsKw(left, KwNull) then Ok(IsNull(a, negate), left[1..]) else Err(Expected)
  }

  function Primary(T: Table, ts: seq<Token>): (r: Parse)
    ensures r.Ok? ==> |r.rest| < |ts|
    decreases |ts|, 1, 0
  {
    if ts == [] then Err(EndsTooSoon)
    else
      match ts[0]
      case TNum(l) => Ok(Lit(LNum(l)), ts[1..])
      case TStr(s) => Ok(Lit(LStr(s)), ts[1..])
      case TRef(name) => if IsWay(name) then Err(WayFromTheRow) else Ok(Ref(name), ts[1..])
      case TKw(kw) =>
        (match kw
         case KwNull => Ok(Lit(LNull), ts[1..])
         case KwTrue => Ok(Lit(LBool(true)), ts[1..])
         case KwFalse => Ok(Lit(LBool(false)), ts[1..])
         case KwCase => CaseOf(T, ts[1..])
         case _ => Err(NotExpected))
      case TOp(op) =>
        if op == OpOpen then
          match Level(T, 0, ts[1..])
          case Err(e) => Err(e)
          case Ok(a, rest) => if StartsOp(rest, OpClose) then Ok(a, rest[1..]) else Err(Expected)
        else Err(NotExpected)
      case TId(word) =>
        if IsCell(word) && !StartsOp(ts[1..], OpOpen) then Err(SheetCell)
        else if Lower(word) !in T.byName then Err(NotAFunction)
        else CallOf(T, T.byName[Lower(word)], ts[1..])
  }

  function CallOf(T: Table, name: string, ts: seq<Token>): (r: Parse)
    ensures r.Ok? ==> |r.rest| < |ts|
    decreases |ts|, 13, 0
  {
    if !StartsOp(ts, OpOpen) then Err(Expected)
    else
      var distinct := StartsKw(ts[1..], KwDistinct);
      var left := if distinct then ts[2..] else ts[1..];
      match Args(T, left)
      case Errs(e) => Err(e)
      case Oks(args, rest) =>
        if !StartsOp(rest, OpClose) then Err(Expected)
        else if !CallFits(T, name, args, distinct) then Err(CallRefused)
        else Ok(Call(name, args, distinct), rest[1..])
  }

  function Args(T: Table, ts: seq<Token>): (r: ParseMany)
    ensures r.Oks? ==> |r.rest| <= |ts|
    decreases |ts|, 13, 1
  {
    if StartsOp(ts, OpClose) then Oks([], ts)
    else
      match Level(T, 0, ts)
      case Err(e) => Errs(e)
      case Ok(a, rest) => ArgsLoop(T, [a], rest)
  }

  function ArgsLoop(T: Table, acc: seq<Tree>, ts: seq<Token>): (r: ParseMany)
    ensures r.Oks? ==> |r.rest| <= |ts|
    decreases |ts|, 13, 0
  {
    if !StartsOp(ts, OpComma) then Oks(acc, ts)
    else
      match Level(T, 0, ts[1..])
      case Err(e) => Errs(e)
      case Ok(a, rest) => ArgsLoop(T, acc + [a], rest)
  }

  function CaseOf(T: Table, ts: seq<Token>): (r: Parse)
    ensures r.Ok? ==> |r.rest| < |ts|
    decreases |ts|, 14, 0
  {
    if StartsKw(ts, KwWhen) then CaseTail(T, None, ts)
    else
      match Level(T, 0, ts)
      case Err(e) => Err(e)
      case Ok(s, rest) => CaseTail(T, Some(s), rest)
  }

  function CaseTail(T: Table, subject: Option<Tree>, ts: seq<Token>): (r: Parse)
    ensures r.Ok? ==> |r.rest| < |ts|
    decreases |ts|, 13, 1
  {
    match WhensLoop(T, [], ts)
    case ErrWhens(e) => Err(e)
    case OkWhens(whens, rest) =>
      if whens == [] then Err(Expected)
      else if StartsKw(rest, KwElse) then
        match Level(T, 0, rest[1..])
        case Err(e) => Err(e)
        case Ok(o, rest') =>
          if StartsKw(rest', KwEnd) then Ok(Case(subject, whens, Some(o)), rest'[1..]) else Err(Expected)
      else if StartsKw(rest, KwEnd) then Ok(Case(subject, whens, None), rest[1..])
      else Err(Expected)
  }

  function WhensLoop(T: Table, acc: seq<When>, ts: seq<Token>): (r: ParseWhens)
    ensures r.OkWhens? ==> |r.rest| <= |ts|
    decreases |ts|, 13, 0
  {
    if !StartsKw(ts, KwWhen) then OkWhens(acc, ts)
    else
      match Level(T, 0, ts[1..])
      case Err(e) => ErrWhens(e)
      case Ok(w, rest) =>
        if !StartsKw(rest, KwThen) then ErrWhens(Expected)
        else
          match Level(T, 0, rest[1..])
          case Err(e) => ErrWhens(e)
          case Ok(t, rest') => WhensLoop(T, acc + [When(w, t)], rest')
  }

  /** `_parse` over the tokens: the whole list is one expression. */
  function ParseTokens(T: Table, ts: seq<Token>): (r: Parse)
  {
    match Level(T, 0, ts)
    case Err(e) => Err(e)
    case Ok(t, rest) => if rest == [] then Ok(t, []) else Err(NotExpected)
  }
}
