/** Printing a tree with the parentheses its level asks for, and the law that reading it back gives the tree. */
module Printer {
  import opened Syntax
  import opened Words
  import opened Grammar

  /** The grammar level a tree is an instance of. */
  function LevelOf(t: Tree): (k: nat)
    ensures k <= 11
  {
    match t
    case Logic(Or, _, _) => 0
    case Logic(Xor, _, _) => 1
    case Logic(And, _, _) => 2
    case Not(_) => 3
    case Cmp(op, _, _) => if op == Equal || op == NotEqual || op == NullEqual then 4 else 5
    case IsNull(_, _) => 6
    case Arith(op, _, _) => if op == Add || op == Subtract then 7 else if op == Power then 10 else 8
    case Neg(_) => 9
    case _ => 11
  }

  function LogicToken(op: LogicOp): Token {
    TKw(match op case Or => KwOr case Xor => KwXor case And => KwAnd)
  }

  function CmpToken(op: CmpOp): Token {
    TOp(match op
        case Equal => OpEq case NotEqual => OpNe case NullEqual => OpNullEq
        case Less => OpLt case Greater => OpGt case LessEqual => OpLe case GreaterEqual => OpGe)
  }

  function ArithToken(op: ArithOp): Token {
    TOp(match op
        case Add => OpPlus case Subtract => OpMinus case Multiply => OpTimes
        case Divide => OpDivide case Modulo => OpPercent case Power => OpCaret)
  }

  function LiteralToken(v: Literal): Token {
    match v
    case LNum(l) => TNum(l)
    case LStr(s) => TStr(s)
    case LBool(b) => TKw(if b then KwTrue else KwFalse)
    case LNull => TKw(KwNull)
  }

  /** `t` where the grammar reads level `k`: in parentheses when its own level is lower. */
  function Print(t: Tree, k: nat): (ts: seq<Token>)
    ensures |ts| > 0
    decreases t, 1
  {
    if LevelOf(t) < k then [TOp(OpOpen)] + Bare(t) + [TOp(OpClose)] else Bare(t)
  }

  function Bare(t: Tree): (ts: seq<Token>)
    ensures |ts| > 0
    decreases t, 0
  {
    match t
    case Lit(v) => [LiteralToken(v)]
    case Ref(name) => [TRef(name)]
    case Neg(a) => [TOp(OpMinus)] + Print(a, 9)
    case Not(a) => [TKw(KwNot)] + Print(a, 3)
    case Logic(op, a, b) => Print(a, LevelOf(t)) + [LogicToken(op)] + Print(b, LevelOf(t) + 1)
    case Cmp(op, a, b) => Print(a, LevelOf(t)) + [CmpToken(op)] + Print(b, LevelOf(t) + 1)
    case Arith(op, a, b) =>
      if op == Power then Print(a, 11) + [TOp(OpCaret)] + Print(b, 9)
      else Print(a, LevelOf(t)) + [ArithToken(op)] + Print(b, LevelOf(t) + 1)
    case IsNull(a, negate) =>
      Print(a, 7) + (if negate then [TKw(KwIs), TKw(KwNot), TKw(KwNull)] else [TKw(KwIs), TKw(KwNull)])
    case Case(subject, whens, otherwise) =>
      [TKw(KwCase)]
      + (if subject.Some? then Print(subject.value, 0) else [])
      + PrintWhens(whens)
      + (if otherwise.Some? then [TKw(KwElse)] + Print(otherwise.value, 0) else [])
      + [TKw(KwEnd)]
    case Call(fn, args, distinct) =>
      [TId(fn), TOp(OpOpen)] + (if distinct then [TKw(KwDistinct)] else []) + PrintArgs(args) + [TOp(OpClose)]
  }

  function PrintWhens(whens: seq<When>): seq<Token>
    decreases whens
  {
    if whens == [] then []
    else
      var w := whens[0];
      assert w.test < w && w.then_ < w;
      [TKw(KwWhen)] + Print(w.test, 0) + [TKw(KwThen)] + Print(w.then_, 0) + PrintWhens(whens[1..])
  }

  /** The arguments between commas. */
  function PrintArgs(args: seq<Tree>): seq<Token>
    decreases args
  {
    if args == [] then [] else Print(args[0], 0) + PrintMore(args[1..])
  }

  /** Each argument after its comma. */
  function PrintMore(args: seq<Tree>): seq<Token>
    decreases args
  {
    if args == [] then [] else [TOp(OpComma)] + Print(args[0], 0) + PrintMore(args[1..])
  }

  /** What `_tokens` can hand the parser: `Scanner` proves it. */
  predicate TokenFits(tok: Token) {
    match tok
    case TNum(l) => IsNumber(l)
    case TStr(s) => !('"' in s && '\'' in s)
    case TId(w) => IsName(w)
    case _ => true
  }

  predicate AllFit(ts: seq<Token>) { forall i :: 0 <= i < |ts| ==> TokenFits(ts[i]) }

  /** The trees a parser over the table `T` builds. */
  predicate Built(T: Table, t: Tree)
    decreases t
  {
    match t
    case Lit(v) => TokenFits(LiteralToken(v))
    case Ref(name) => !IsWay(name)
    case Neg(a) => Built(T, a)
    case Not(a) => Built(T, a)
    case Logic(_, a, b) => Built(T, a) && Built(T, b)
    case Cmp(_, a, b) => Built(T, a) && Built(T, b)
    case Arith(_, a, b) => Built(T, a) && Built(T, b)
    case IsNull(a, _) => Built(T, a)
    case Case(subject, whens, otherwise) =>
      && whens != []
      && (subject.Some? ==> Built(T, subject.value))
      && (forall w :: w in whens ==> Built(T, w.test) && Built(T, w.then_))
      && (otherwise.Some? ==> Built(T, otherwise.value))
    case Call(fn, args, distinct) =>
      && Canonical(T, fn)
      && CallFits(T, fn, args, distinct)
      && forall a :: a in args ==> Built(T, a)
  }

  /** `fn` is a name of the table, found again by its own lower case. */
  predicate Canonical(T: Table, fn: string) {
    Lower(fn) in T.byName && T.byName[Lower(fn)] == fn && IsName(fn)
  }

  /** `_BY_NAME`: every entry's name is a word, no keyword, found by its lower case. */
  ghost predicate TableFits(T: Table) {
    forall k :: k in T.byName ==> Canonical(T, T.byName[k])
  }

  // ---- every tree the parser returns is one of those ---------------------------------------------------------------

  /** Everything a level returns is buildable, and what is left are the last tokens it was given. */
  lemma {:induction false} LevelBuilds(T: Table, k: nat, ts: seq<Token>)
    requires k <= 11 && TableFits(T) && AllFit(ts)
    ensures var r := Level(T, k, ts); r.Ok? ==> Built(T, r.tree) && AllFit(r.rest)
    decreases |ts|, 12 - k, 2
  {
    if LeftLevel(k) {
      LevelBuilds(T, k + 1, ts);
      var r := Level(T, k + 1, ts);
      if r.Ok? { LoopBuilds(T, k, r.tree, r.rest); }
    } else if k == 3 {
      if StartsKw(ts, KwNot) { LevelBuilds(T, 3, ts[1..]); } else { LevelBuilds(T, 4, ts); }
    } else if k == 6 {
      LevelBuilds(T, 7, ts);
    } else if k == 9 {
      if StartsOp(ts, OpMinus) || StartsOp(ts, OpPlus) { LevelBuilds(T, 9, ts[1..]); } else { LevelBuilds(T, 10, ts); }
    } else if k == 10 {
      LevelBuilds(T, 11, ts);
      var r := Level(T, 11, ts);
      if r.Ok? && StartsOp(r.rest, OpCaret) { LevelBuilds(T, 9, r.rest[1..]); }
    } else {
      PrimaryBuilds(T, ts);
    }
  }

  lemma {:induction false} JoinBuilds(T: Table, tok: Token, a: Tree, b: Tree)
    requires ContinuesAt(tok).Some? && ContinuesAt(tok) != Some(6) && Built(T, a) && Built(T, b)
    ensures Built(T, Join(tok, a, b))
  {
  }

  lemma {:induction false} LoopBuilds(T: Table, k: nat, a: Tree, ts: seq<Token>)
    requires LeftLevel(k) && TableFits(T) && AllFit(ts) && Built(T, a)
    ensures var r := Loop(T, k, a, ts); r.Ok? ==> Built(T, r.tree) && AllFit(r.rest)
    decreases |ts|, 12 - k, 1
  {
    if Continues(ts, k) {
      LevelBuilds(T, k + 1, ts[1..]);
      var r := Level(T, k + 1, ts[1..]);
      if r.Ok? {
        JoinBuilds(T, ts[0], a, r.tree);
        LoopBuilds(T, k, Join(ts[0], a, r.tree), r.rest);
      }
    }
  }

  lemma {:induction false} PrimaryBuilds(T: Table, ts: seq<Token>)
    requires TableFits(T) && AllFit(ts)
    ensures var r := Primary(T, ts); r.Ok? ==> Built(T, r.tree) && AllFit(r.rest)
    decreases |ts|, 1, 0
  {
    hide Level, CallOf, CaseOf, Canonical, IsCell;
    if ts != [] {
      match ts[0]
      case TNum(l) => assert TokenFits(ts[0]);
      case TStr(s) => assert TokenFits(ts[0]);
      case TRef(name) =>
      case TKw(kw) => if kw == KwCase { CaseBuilds(T, ts[1..]); }
      case TOp(op) => if op == OpOpen { LevelBuilds(T, 0, ts[1..]); }
      case TId(word) => if Lower(word) in T.byName { CallBuilds(T, T.byName[Lower(word)], ts[1..]); }
    }
  }

  lemma {:induction false} CallBuilds(T: Table, name: string, ts: seq<Token>)
    requires TableFits(T) && AllFit(ts) && Canonical(T, name)
    ensures var r := CallOf(T, name, ts); r.Ok? ==> Built(T, r.tree) && AllFit(r.rest)
    decreases |ts|, 13, 0
  {
    if StartsOp(ts, OpOpen) {
      ArgsBuild(T, if StartsKw(ts[1..], KwDistinct) then ts[2..] else ts[1..]);
    }
  }

  lemma {:induction false} ArgsBuild(T: Table, ts: seq<Token>)
    requires TableFits(T) && AllFit(ts)
    ensures var r := Args(T, ts); r.Oks? ==> (forall a :: a in r.trees ==> Built(T, a)) && AllFit(r.rest)
    decreases |ts|, 13, 1
  {
    if !StartsOp(ts, OpClose) {
      LevelBuilds(T, 0, ts);
      var r := Level(T, 0, ts);
      if r.Ok? { ArgsLoopBuilds(T, [r.tree], r.rest); }
    }
  }

  lemma {:induction false} ArgsLoopBuilds(T: Table, acc: seq<Tree>, ts: seq<Token>)
    requires TableFits(T) && AllFit(ts) && forall a :: a in acc ==> Built(T, a)
    ensures var r := ArgsLoop(T, acc, ts); r.Oks? ==> (forall a :: a in r.trees ==> Built(T, a)) && AllFit(r.rest)
    decreases |ts|, 13, 0
  {
    if StartsOp(ts, OpComma) {
      LevelBuilds(T, 0, ts[1..]);
      var r := Level(T, 0, ts[1..]);
      if r.Ok? { ArgsLoopBuilds(T, acc + [r.tree], r.rest); }
    }
  }

  lemma {:induction false} CaseBuilds(T: Table, ts: seq<Token>)
    requires TableFits(T) && AllFit(ts)
    ensures var r := CaseOf(T, ts); r.Ok? ==> Built(T, r.tree) && AllFit(r.rest)
    decreases |ts|, 14, 0
  {
    if StartsKw(ts, KwWhen) {
      CaseTailBuilds(T, None, ts);
    } else {
      LevelBuilds(T, 0, ts);
      var r := Level(T, 0, ts);
      if r.Ok? { CaseTailBuilds(T, Some(r.tree), r.rest); }
    }
  }

  lemma {:induction false} CaseTailBuilds(T: Table, subject: Option<Tree>, ts: seq<Token>)
    requires TableFits(T) && AllFit(ts) && (subject.Some? ==> Built(T, subject.value))
    ensures var r := CaseTail(T, subject, ts); r.Ok? ==> Built(T, r.tree) && AllFit(r.rest)
    decreases |ts|, 13, 1
  {
    WhensBuild(T, [], ts);
    var r := WhensLoop(T, [], ts);
    if r.OkWhens? && r.whens != [] && StartsKw(r.rest, KwElse) { LevelBuilds(T, 0, r.rest[1..]); }
  }

  lemma {:induction false} WhensBuild(T: Table, acc: seq<When>, ts: seq<Token>)
    requires TableFits(T) && AllFit(ts) && forall w :: w in acc ==> Built(T, w.test) && Built(T, w.then_)
    ensures var r := WhensLoop(T, acc, ts);
            r.OkWhens? ==> (forall w :: w in r.whens ==> Built(T, w.test) && Built(T, w.then_)) && AllFit(r.rest)
    decreases |ts|, 13, 0
  {
    if StartsKw(ts, KwWhen) {
      LevelBuilds(T, 0, ts[1..]);
      var w := Level(T, 0, ts[1..]);
      if w.Ok? && StartsKw(w.rest, KwThen) {
        LevelBuilds(T, 0, w.rest[1..]);
        var t := Level(T, 0, w.rest[1..]);
        if t.Ok? { WhensBuild(T, acc + [When(w.tree, t.tree)], t.rest); }
      }
    }
  }

  // ---- reading a printed tree --------------------------------------------------------------------------------------

  /** `rest` does not go on with anything level `k` or a higher one would take. */
  predicate Stops(k: nat, rest: seq<Token>) {
    rest == [] || var c := ContinuesAt(rest[0]); c.None? || c.value < k
  }

  /** A printed tree never starts with «not» above level 3, never with a sign above level 9. */
  lemma {:induction false} FirstToken(t: Tree, k: nat)
    requires k <= 11
    ensures k >= 4 ==> Print(t, k)[0] != TKw(KwNot)
    ensures k >= 10 ==> Print(t, k)[0] != TOp(OpMinus) && Print(t, k)[0] != TOp(OpPlus)
    ensures Print(t, k)[0] != TKw(KwWhen) && Print(t, k)[0] != TKw(KwDistinct) && Print(t, k)[0] != TOp(OpClose)
    decreases t
  {
    if LevelOf(t) >= k {
      match t
      case Logic(_, a, _) => FirstToken(a, LevelOf(t));
      case Cmp(_, a, _) => FirstToken(a, LevelOf(t));
      case Arith(op, a, _) => FirstToken(a, if op == Power then 11 else LevelOf(t));
      case IsNull(a, _) => FirstToken(a, 7);
      case _ =>
    }
  }

  /** One level down: what level `k + 1` reads, level `k` reads too, when nothing of level `k` stands around it. */
  lemma {:induction false} Climb(T: Table, k: nat, ts: seq<Token>, t: Tree, rest: seq<Token>)
    requires k <= 10 && Level(T, k + 1, ts) == Ok(t, rest) && Stops(k, rest)
    requires k == 3 ==> !StartsKw(ts, KwNot)
    requires k == 9 ==> !StartsOp(ts, OpMinus) && !StartsOp(ts, OpPlus)
    ensures Level(T, k, ts) == Ok(t, rest)
  {
    if LeftLevel(k) {
      assert !Continues(rest, k);
    }
  }

  lemma {:induction false} PrintOwn(t: Tree)
    ensures Print(t, LevelOf(t)) == Bare(t)
  {
    hide Bare;
  }

  lemma {:induction false} PrintBetween(t: Tree, k: nat)
    requires LevelOf(t) != k
    ensures Print(t, k) == Print(t, k + 1)
  {
    hide Bare;
  }

  /** Parentheses are read at the top level. */
  lemma {:induction false} Parentheses(T: Table, t: Tree, ts: seq<Token>, rest: seq<Token>)
    requires Level(T, 0, ts) == Ok(t, [TOp(OpClose)] + rest)
    ensures Level(T, 11, [TOp(OpOpen)] + ts) == Ok(t, rest)
  {
    assert ([TOp(OpClose)] + rest)[1..] == rest;
    assert ([TOp(OpOpen)] + ts)[1..] == ts;
    assert Primary(T, [TOp(OpOpen)] + ts) == Ok(t, rest);
  }

  /** The heart of the round trip: printed at level `k`, read at level `k`, for every tree and every tail that
      does not go on at that level. */
  lemma {:induction false} ReadsBack(T: Table, t: Tree, k: nat, rest: seq<Token>)
    requires k <= 11 && Built(T, t) && Stops(k, rest)
    ensures Level(T, k, Print(t, k) + rest) == Ok(t, rest)
    decreases t, if LevelOf(t) < k then 25 - k else 12 - k, 1
  {
    hide Level, Bare, Print, Built;
    if LevelOf(t) == k {
      PrintOwn(t);
      BareReadsBack(T, t, rest);
    } else if k == 11 {
      InParentheses(T, t, rest);
    } else {
      OneLevelDown(T, t, k, rest);
    }
  }

  lemma {:induction false} InParentheses(T: Table, t: Tree, rest: seq<Token>)
    requires LevelOf(t) < 11 && Built(T, t)
    ensures Level(T, 11, Print(t, 11) + rest) == Ok(t, rest)
    decreases t, 14, 0
  {
    hide Level, Bare, Print, Built;
    var inner := [TOp(OpClose)] + rest;
    ReadsBack(T, t, 0, inner);
    Parentheses(T, t, Print(t, 0) + inner, rest);
    ParenthesesPrinted(t, rest);
  }

  lemma {:induction false} ParenthesesPrinted(t: Tree, rest: seq<Token>)
    requires LevelOf(t) < 11
    ensures Print(t, 11) + rest == [TOp(OpOpen)] + (Print(t, 0) + ([TOp(OpClose)] + rest))
  {
    hide Bare;
  }

  lemma {:induction false} OneLevelDown(T: Table, t: Tree, k: nat, rest: seq<Token>)
    requires k <= 10 && LevelOf(t) != k && Built(T, t) && Stops(k, rest)
    ensures Level(T, k, Print(t, k) + rest) == Ok(t, rest)
    decreases t, if LevelOf(t) < k then 25 - k else 12 - k, 0
  {
    hide Level, Bare, Print, Built;
    ReadsBack(T, t, k + 1, rest);
    PrintBetween(t, k);
    FirstToken(t, k + 1);
    Climb(T, k, Print(t, k + 1) + rest, t, rest);
  }

  /** A tree at its own level. */
  lemma {:induction false} BareReadsBack(T: Table, t: Tree, rest: seq<Token>)
    requires Built(T, t) && Stops(LevelOf(t), rest)
    ensures Level(T, LevelOf(t), Bare(t) + rest) == Ok(t, rest)
    decreases t, 0, 2
  {
    hide Level, Bare, Print;
    match t
    case Lit(_) => LeafReadsBack(T, t, rest);
    case Ref(_) => LeafReadsBack(T, t, rest);
    case Neg(a) => NegReadsBack(T, a, rest);
    case Not(a) => NotReadsBack(T, a, rest);
    case Logic(_, _, _) => LoopReadsBack(T, t, rest);
    case Cmp(_, _, _) => LoopReadsBack(T, t, rest);
    case Arith(op, a, b) => if op == Power { PowerReadsBack(T, a, b, rest); } else { LoopReadsBack(T, t, rest); }
    case IsNull(a, negate) => NullReadsBack(T, a, negate, rest);
    case Case(_, _, _) => CaseReadsBack(T, t, rest);
    case Call(_, _, _) => CallReadsBack(T, t, rest);
  }

  lemma {:induction false} LeafReadsBack(T: Table, t: Tree, rest: seq<Token>)
    requires Built(T, t) && (t.Lit? || t.Ref?)
    ensures Level(T, 11, Bare(t) + rest) == Ok(t, rest)
  {
    var ts := Bare(t) + rest;
    assert ts[1..] == rest;
    assert Primary(T, ts) == Ok(t, rest);
  }

  lemma {:induction false} NegReadsBack(T: Table, a: Tree, rest: seq<Token>)
    requires Built(T, a) && Stops(9, rest)
    ensures Level(T, 9, Bare(Neg(a)) + rest) == Ok(Neg(a), rest)
    decreases Neg(a), 0, 0
  {
    hide Level, Bare, Print, Built;
    ReadsBack(T, a, 9, rest);
    NegTurn(T, Print(a, 9) + rest, a, rest);
    NegPrinted(a, rest);
  }

  lemma {:induction false} NegTurn(T: Table, ts: seq<Token>, a: Tree, rest: seq<Token>)
    requires Level(T, 9, ts) == Ok(a, rest)
    ensures Level(T, 9, [TOp(OpMinus)] + ts) == Ok(Neg(a), rest)
  {
    assert ([TOp(OpMinus)] + ts)[1..] == ts;
  }

  lemma {:induction false} NegPrinted(a: Tree, rest: seq<Token>)
    ensures Bare(Neg(a)) + rest == [TOp(OpMinus)] + (Print(a, 9) + rest)
  {
    hide Print;
  }

  lemma {:induction false} NotReadsBack(T: Table, a: Tree, rest: seq<Token>)
    requires Built(T, a) && Stops(3, rest)
    ensures Level(T, 3, Bare(Not(a)) + rest) == Ok(Not(a), rest)
    decreases Not(a), 0, 0
  {
    hide Level, Bare, Print, Built;
    ReadsBack(T, a, 3, rest);
    NotTurn(T, Print(a, 3) + rest, a, rest);
    NotPrinted(a, rest);
  }

  lemma {:induction false} NotTurn(T: Table, ts: seq<Token>, a: Tree, rest: seq<Token>)
    requires Level(T, 3, ts) == Ok(a, rest)
    ensures Level(T, 3, [TKw(KwNot)] + ts) == Ok(Not(a), rest)
  {
    assert ([TKw(KwNot)] + ts)[1..] == ts;
  }

  lemma {:induction false} NotPrinted(a: Tree, rest: seq<Token>)
    ensures Bare(Not(a)) + rest == [TKw(KwNot)] + (Print(a, 3) + rest)
  {
    hide Print;
  }

  lemma {:induction false} PowerReadsBack(T: Table, a: Tree, b: Tree, rest: seq<Token>)
    requires Built(T, a) && Built(T, b) && Stops(10, rest)
    ensures Level(T, 10, Bare(Arith(Power, a, b)) + rest) == Ok(Arith(Power, a, b), rest)
    decreases Arith(Power, a, b), 0, 0
  {
    hide Level, Built, Print, Bare;
    var right := Print(b, 9) + rest;
    ReadsBack(T, a, 11, [TOp(OpCaret)] + right);
    ReadsBack(T, b, 9, rest);
    PowerTurn(T, Print(a, 11) + ([TOp(OpCaret)] + right), a, right, b, rest);
    PowerPrinted(a, b, rest);
  }

  lemma {:induction false} PowerPrinted(a: Tree, b: Tree, rest: seq<Token>)
    ensures Bare(Arith(Power, a, b)) + rest == Print(a, 11) + ([TOp(OpCaret)] + (Print(b, 9) + rest))
  {
    hide Print;
  }

  lemma {:induction false} PowerTurn(T: Table, ts: seq<Token>, a: Tree, right: seq<Token>, b: Tree, rest: seq<Token>)
    requires Level(T, 11, ts) == Ok(a, [TOp(OpCaret)] + right) && Level(T, 9, right) == Ok(b, rest)
    ensures Level(T, 10, ts) == Ok(Arith(Power, a, b), rest)
  {
    assert ([TOp(OpCaret)] + right)[1..] == right;
  }

  function NullMark(negate: bool): seq<Token> {
    if negate then [TKw(KwIs), TKw(KwNot), TKw(KwNull)] else [TKw(KwIs), TKw(KwNull)]
  }

  lemma {:induction false} NullReadsBack(T: Table, a: Tree, negate: bool, rest: seq<Token>)
    requires Built(T, a) && Stops(6, rest)
    ensures Level(T, 6, Bare(IsNull(a, negate)) + rest) == Ok(IsNull(a, negate), rest)
    decreases IsNull(a, negate), 0, 0
  {
    hide Level, Bare, Print, Built;
    var tail := NullMark(negate) + rest;
    ReadsBack(T, a, 7, tail);
    NullTurn(T, Print(a, 7) + tail, a, negate, rest);
    NullPrinted(a, negate, rest);
  }

  lemma {:induction false} NullTurn(T: Table, ts: seq<Token>, a: Tree, negate: bool, rest: seq<Token>)
    requires Level(T, 7, ts) == Ok(a, NullMark(negate) + rest)
    ensures Level(T, 6, ts) == Ok(IsNull(a, negate), rest)
  {
    var tail := NullMark(negate) + rest;
    var left := if negate then tail[2..] else tail[1..];
    assert tail[1..][0] == NullMark(negate)[1];
    assert left == [TKw(KwNull)] + rest;
    assert left[1..] == rest;
    assert NullTail(a, tail) == Ok(IsNull(a, negate), rest);
  }

  lemma {:induction false} NullPrinted(a: Tree, negate: bool, rest: seq<Token>)
    ensures Bare(IsNull(a, negate)) + rest == Print(a, 7) + (NullMark(negate) + rest)
  {
    hide Print;
  }

  /** The operator between the two sides of a left-associative tree. */
  function OpToken(t: Tree): Token
    requires t.Logic? || t.Cmp? || t.Arith?
  {
    match t
    case Logic(op, _, _) => LogicToken(op)
    case Cmp(op, _, _) => CmpToken(op)
    case Arith(op, _, _) => ArithToken(op)
  }

  lemma {:induction false} OperatorFits(t: Tree)
    requires t.Logic? || t.Cmp? || (t.Arith? && t.aop != Power)
    ensures LeftLevel(LevelOf(t)) && ContinuesAt(OpToken(t)) == Some(LevelOf(t))
    ensures Join(OpToken(t), t.a, t.b) == t
  {
    match t
    case Logic(op, _, _) => { match op case Or => case Xor => case And => }
    case Cmp(op, _, _) =>
      { match op case Equal => case NotEqual => case NullEqual =>
        case Less => case Greater => case LessEqual => case GreaterEqual => }
    case Arith(op, _, _) =>
      { match op case Add => case Subtract => case Multiply => case Divide => case Modulo => case Power => }
  }

  /** How a left-associative tree prints. */
  lemma {:induction false} LeftPrinted(t: Tree)
    requires t.Logic? || t.Cmp? || (t.Arith? && t.aop != Power)
    ensures Bare(t) == Print(t.a, LevelOf(t)) + [OpToken(t)] + Print(t.b, LevelOf(t) + 1)
  {
    hide Print;
  }

  lemma {:induction false} LeftPrintedBefore(t: Tree, rest: seq<Token>)
    requires t.Logic? || t.Cmp? || (t.Arith? && t.aop != Power)
    ensures Bare(t) + rest == Print(t.a, LevelOf(t)) + ([OpToken(t)] + (Print(t.b, LevelOf(t) + 1) + rest))
  {
    LeftPrinted(t);
    hide Print, Bare, LevelOf;
  }

  lemma {:induction false} LeftKind(t: Tree)
    requires LeftLevel(LevelOf(t))
    ensures t.Logic? || t.Cmp? || (t.Arith? && t.aop != Power)
  {
  }

  /** One turn of a left-associative loop. */
  lemma {:induction false} LoopTurn(T: Table, k: nat, a: Tree, tok: Token, b: Tree, last: seq<Token>, rest: seq<Token>)
    requires LeftLevel(k) && ContinuesAt(tok) == Some(k) && Level(T, k + 1, last) == Ok(b, rest)
    ensures Loop(T, k, a, [tok] + last) == Loop(T, k, Join(tok, a, b), rest)
  {
    assert ([tok] + last)[1..] == last;
  }

  lemma {:induction false} LoopStarts(T: Table, k: nat, ts: seq<Token>, a: Tree, rest: seq<Token>)
    requires LeftLevel(k) && Level(T, k + 1, ts) == Ok(a, rest)
    ensures Level(T, k, ts) == Loop(T, k, a, rest)
  {
  }

  /** Reading a printed left-associative tree comes to its loop holding the whole tree, whatever follows. */
  lemma {:induction false} LoopHolds(T: Table, t: Tree, k: nat, rest: seq<Token>)
    requires LeftLevel(k) && Built(T, t) && Stops(k + 1, rest)
    ensures Level(T, k, Print(t, k) + rest) == Loop(T, k, t, rest)
    decreases t, if LevelOf(t) < k then 25 - k else 12 - k, 0
  {
    hide Level, Bare, Print, Built;
    if LevelOf(t) == k {
      PrintOwn(t);
      LeftTurn(T, t, rest);
    } else {
      PrintBetween(t, k);
      ReadsBack(T, t, k + 1, rest);
      LoopStarts(T, k, Print(t, k + 1) + rest, t, rest);
    }
  }

  lemma {:induction false} LeftTurn(T: Table, t: Tree, rest: seq<Token>)
    requires LeftLevel(LevelOf(t)) && Built(T, t) && Stops(LevelOf(t) + 1, rest)
    ensures Level(T, LevelOf(t), Bare(t) + rest) == Loop(T, LevelOf(t), t, rest)
    decreases t, 0, 0
  {
    LeftKind(t);
    LeftPrintedBefore(t, rest);
    OperatorFits(t);
    LeftParts(T, t);
    hide Level, Bare, Print, Loop, Built, LevelOf;
    var k, last := LevelOf(t), Print(t.b, LevelOf(t) + 1) + rest;
    LoopHolds(T, t.a, k, [OpToken(t)] + last);
    ReadsBack(T, t.b, k + 1, rest);
    LoopTurn(T, k, t.a, OpToken(t), t.b, last, rest);
  }

  lemma {:induction false} LeftParts(T: Table, t: Tree)
    requires Built(T, t) && (t.Logic? || t.Cmp? || (t.Arith? && t.aop != Power))
    ensures Built(T, t.a) && Built(T, t.b)
  {
  }

  lemma {:induction false} LoopReadsBack(T: Table, t: Tree, rest: seq<Token>)
    requires Built(T, t) && LeftLevel(LevelOf(t)) && Stops(LevelOf(t), rest)
    ensures Level(T, LevelOf(t), Bare(t) + rest) == Ok(t, rest)
    decreases t, 0, 1
  {
    hide Level, Bare, Print, Built;
    LeftTurn(T, t, rest);
    assert !Continues(rest, LevelOf(t));
  }

  /** A call's tokens, read from its name on. */
  lemma {:induction false} CallTurn(T: Table, t: Tree, args: seq<Token>, rest: seq<Token>)
    requires t.Call? && Built(T, t) && Args(T, args) == Oks(t.args, [TOp(OpClose)] + rest)
    requires !StartsKw(args, KwDistinct)
    ensures Level(T, 11, [TId(t.fn), TOp(OpOpen)] + (if t.distinct then [TKw(KwDistinct)] + args else args))
            == Ok(t, rest)
  {
    var after := if t.distinct then [TKw(KwDistinct)] + args else args;
    var ts := [TId(t.fn), TOp(OpOpen)] + after;
    assert ts[1..] == [TOp(OpOpen)] + after;
    CallBody(T, t, args, rest);
    hide CallOf, Args, Built;
    assert Primary(T, ts) == Ok(t, rest);
  }

  lemma {:induction false} CallBody(T: Table, t: Tree, args: seq<Token>, rest: seq<Token>)
    requires t.Call? && Built(T, t) && Args(T, args) == Oks(t.args, [TOp(OpClose)] + rest)
    requires !StartsKw(args, KwDistinct)
    ensures CallOf(T, t.fn, [TOp(OpOpen)] + (if t.distinct then [TKw(KwDistinct)] + args else args)) == Ok(t, rest)
    ensures Canonical(T, t.fn)
  {
    hide Args, Canonical;
    var call := [TOp(OpOpen)] + (if t.distinct then [TKw(KwDistinct)] + args else args);
    var tail := [TOp(OpClose)] + rest;
    assert tail[1..] == rest;
    if t.distinct {
      assert call[1..] == [TKw(KwDistinct)] + args && call[2..] == args;
    } else {
      assert call[1..] == args;
    }
  }

  lemma {:induction false} CallReadsBack(T: Table, t: Tree, rest: seq<Token>)
    requires t.Call? && Built(T, t)
    ensures Level(T, 11, Bare(t) + rest) == Ok(t, rest)
    decreases t, 0, 1
  {
    hide Level, Bare, Print;
    var tail := [TOp(OpClose)] + rest;
    var args := PrintArgs(t.args) + tail;
    ArgsReadBack(T, t, t.args, tail);
    ArgsStart(t.args, tail);
    CallTurn(T, t, args, rest);
    CallPrinted(t, rest);
  }

  lemma {:induction false} CallPrinted(t: Tree, rest: seq<Token>)
    requires t.Call?
    ensures var args := PrintArgs(t.args) + ([TOp(OpClose)] + rest);
            Bare(t) + rest == [TId(t.fn), TOp(OpOpen)] + (if t.distinct then [TKw(KwDistinct)] + args else args)
  {
    hide PrintArgs;
  }

  lemma {:induction false} ArgsStart(args: seq<Tree>, tail: seq<Token>)
    requires StartsOp(tail, OpClose)
    ensures !StartsKw(PrintArgs(args) + tail, KwDistinct)
  {
    if args != [] {
      FirstToken(args[0], 0);
      assert (PrintArgs(args) + tail)[0] == Print(args[0], 0)[0];
    }
  }

  lemma {:induction false} ArgsReadBack(T: Table, t: Tree, args: seq<Tree>, tail: seq<Token>)
    requires t.Call? && args == t.args && (forall a :: a in args ==> Built(T, a)) && StartsOp(tail, OpClose)
    ensures Args(T, PrintArgs(args) + tail) == Oks(args, tail)
    decreases t, 0, 0, |args|
  {
    hide Level, Built, Print, Bare;
    if args == [] {
      assert PrintArgs(args) + tail == tail;
    } else {
      var more := PrintMore(args[1..]) + tail;
      MoreStart(args[1..], tail);
      FirstToken(args[0], 0);
      assert args[0] in args;
      ReadsWhole(T, args[0], more);
      MoreReadsBack(T, t, [args[0]], args[1..], tail);
      assert [args[0]] + args[1..] == args;
      assert PrintArgs(args) + tail == Print(args[0], 0) + more;
    }
  }

  lemma {:induction false} MoreStart(args: seq<Tree>, tail: seq<Token>)
    requires StartsOp(tail, OpClose)
    ensures StartsOp(PrintMore(args) + tail, OpClose) || StartsOp(PrintMore(args) + tail, OpComma)
  {
  }

  /** One turn of the loop over the arguments. */
  lemma {:induction false} ArgsTurn(T: Table, acc: seq<Tree>, a: Tree, ts: seq<Token>, more: seq<Token>)
    requires Level(T, 0, ts) == Ok(a, more)
    ensures ArgsLoop(T, acc, [TOp(OpComma)] + ts) == ArgsLoop(T, acc + [a], more)
  {
    assert ([TOp(OpComma)] + ts)[1..] == ts;
  }

  lemma {:induction false} MoreReadsBack(T: Table, t: Tree, acc: seq<Tree>, args: seq<Tree>, tail: seq<Token>)
    requires t.Call? && acc + args == t.args && (forall a :: a in t.args ==> Built(T, a)) && StartsOp(tail, OpClose)
    ensures ArgsLoop(T, acc, PrintMore(args) + tail) == Oks(acc + args, tail)
    decreases t, 0, 0, |args|
  {
    hide Level, Built, Print, Bare;
    if args == [] {
      assert PrintMore(args) + tail == tail && acc + args == acc;
    } else {
      var a := args[0];
      var more := PrintMore(args[1..]) + tail;
      assert t.args[|acc|] == a;
      MoreStart(args[1..], tail);
      assert PrintMore(args) + tail == [TOp(OpComma)] + (Print(a, 0) + more);
      hide ArgsLoop, PrintMore;
      ReadsWhole(T, a, more);
      ArgsTurn(T, acc, a, Print(a, 0) + more, more);
      assert acc + [a] + args[1..] == acc + args;
      MoreReadsBack(T, t, acc + [a], args[1..], tail);
    }
  }

  /** A case's tokens, read from its word on. */
  lemma {:induction false} CaseTurn(T: Table, subject: Option<Tree>, head: seq<Token>, whens: seq<Token>, t: Tree,
                                    rest: seq<Token>)
    requires StartsKw(whens, KwWhen) && CaseTail(T, subject, whens) == Ok(t, rest)
    requires subject.None? ==> head == []
    requires subject.Some? ==> !StartsKw(head + whens, KwWhen) && Level(T, 0, head + whens) == Ok(subject.value, whens)
    ensures Level(T, 11, [TKw(KwCase)] + head + whens) == Ok(t, rest)
  {
    if subject.None? { assert head + whens == whens; }
    assert CaseOf(T, head + whens) == Ok(t, rest);
    var ts := [TKw(KwCase)] + head + whens;
    assert ts[1..] == head + whens;
    assert Primary(T, ts) == Ok(t, rest);
  }

  lemma {:induction false} CaseReadsBack(T: Table, t: Tree, rest: seq<Token>)
    requires t.Case? && Built(T, t)
    ensures Level(T, 11, Bare(t) + rest) == Ok(t, rest)
    decreases t, 0, 1
  {
    hide Level, Bare, Print, CaseTail, Ending;
    var whens := PrintWhens(t.whens) + Ending(t, rest);
    TailReadsBack(T, t, rest);
    if t.subject.Some? {
      SubjectReadsBack(T, t, t.subject.value, whens);
      CaseTurn(T, t.subject, Print(t.subject.value, 0), whens, t, rest);
    } else {
      CaseTurn(T, t.subject, [], whens, t, rest);
    }
    CasePrinted(t, rest);
  }

  lemma {:induction false} CasePrinted(t: Tree, rest: seq<Token>)
    requires t.Case?
    ensures Bare(t) + rest
         == [TKw(KwCase)] + (if t.subject.Some? then Print(t.subject.value, 0) else [])
            + (PrintWhens(t.whens) + Ending(t, rest))
  {
    hide Print;
  }

  lemma {:induction false} SubjectReadsBack(T: Table, t: Tree, subject: Tree, whens: seq<Token>)
    requires t.Case? && t.subject == Some(subject) && Built(T, subject) && StartsKw(whens, KwWhen)
    ensures !StartsKw(Print(subject, 0) + whens, KwWhen)
    ensures Level(T, 0, Print(subject, 0) + whens) == Ok(subject, whens)
    decreases t, 0, 0
  {
    hide Level, Bare, Print, Built;
    FirstToken(subject, 0);
    ReadsBack(T, subject, 0, whens);
  }

  /** What a case prints after its whens, and what follows it. */
  function Ending(t: Tree, rest: seq<Token>): seq<Token>
    requires t.Case?
  {
    (if t.otherwise.Some? then [TKw(KwElse)] + Print(t.otherwise.value, 0) else []) + ([TKw(KwEnd)] + rest)
  }

  lemma {:induction false} TailReadsBack(T: Table, t: Tree, rest: seq<Token>)
    requires t.Case? && Built(T, t)
    ensures CaseTail(T, t.subject, PrintWhens(t.whens) + Ending(t, rest)) == Ok(t, rest)
    decreases t, 0, 0
  {
    hide Level, Bare, Print;
    var end := [TKw(KwEnd)] + rest;
    var last := Ending(t, rest);
    assert end[1..] == rest;
    if t.otherwise.Some? {
      ReadsBack(T, t.otherwise.value, 0, end);
      assert last[1..] == Print(t.otherwise.value, 0) + end;
    } else {
      assert last == end;
    }
    WhensReadBack(T, t, [], t.whens, last);
    assert [] + t.whens == t.whens;
  }

  /** One turn of the loop over the whens. */
  lemma {:induction false} WhensTurn(T: Table, acc: seq<When>, w: When, ts: seq<Token>, mid: seq<Token>,
                                     more: seq<Token>)
    requires ts == [TKw(KwWhen)] + (Print(w.test, 0) + ([TKw(KwThen)] + mid))
    requires Level(T, 0, Print(w.test, 0) + ([TKw(KwThen)] + mid)) == Ok(w.test, [TKw(KwThen)] + mid)
    requires Level(T, 0, mid) == Ok(w.then_, more)
    ensures WhensLoop(T, acc, ts) == WhensLoop(T, acc + [w], more)
  {
    assert ts[1..] == Print(w.test, 0) + ([TKw(KwThen)] + mid);
    assert ([TKw(KwThen)] + mid)[1..] == mid;
    assert When(w.test, w.then_) == w;
  }

  lemma {:induction false} WhensReadBack(T: Table, t: Tree, acc: seq<When>, whens: seq<When>, last: seq<Token>)
    requires t.Case? && acc + whens == t.whens && Built(T, t)
    requires StartsKw(last, KwElse) || StartsKw(last, KwEnd)
    ensures WhensLoop(T, acc, PrintWhens(whens) + last) == OkWhens(acc + whens, last)
    decreases t, 0, 0, |whens|, 1
  {
    hide Level, Bare, Print, Built;
    if whens == [] {
      assert PrintWhens(whens) + last == last && acc + whens == acc;
    } else {
      WhenReadsBack(T, t, acc, whens, last);
      assert acc + [whens[0]] + whens[1..] == acc + whens;
      WhensReadBack(T, t, acc + [whens[0]], whens[1..], last);
    }
  }

  lemma {:induction false} WhenReadsBack(T: Table, t: Tree, acc: seq<When>, whens: seq<When>, last: seq<Token>)
    requires t.Case? && acc + whens == t.whens && Built(T, t) && whens != []
    requires StartsKw(last, KwElse) || StartsKw(last, KwEnd)
    ensures WhensLoop(T, acc, PrintWhens(whens) + last)
         == WhensLoop(T, acc + [whens[0]], PrintWhens(whens[1..]) + last)
    decreases t, 0, 0, |whens|, 0
  {
    hide Level, Bare, Print, WhensLoop;
    var w := whens[0];
    var more := PrintWhens(whens[1..]) + last;
    var mid := Print(w.then_, 0) + more;
    assert t.whens[|acc|] == w && w.test < w && w.then_ < w;
    assert ContinuesAt(more[0]).None?;
    ReadsWhole(T, w.then_, more);
    ReadsWhole(T, w.test, [TKw(KwThen)] + mid);
    WhensPrinted(whens, last);
    WhensTurn(T, acc, w, PrintWhens(whens) + last, mid, more);
  }

  lemma {:induction false} WhensPrinted(whens: seq<When>, last: seq<Token>)
    requires whens != []
    ensures PrintWhens(whens) + last
         == [TKw(KwWhen)] + (Print(whens[0].test, 0)
                             + ([TKw(KwThen)] + (Print(whens[0].then_, 0) + (PrintWhens(whens[1..]) + last))))
  {
    hide Print;
  }

  /** A whole expression before a token no level takes. */
  lemma {:induction false} ReadsWhole(T: Table, t: Tree, rest: seq<Token>)
    requires Built(T, t) && |rest| > 0 && ContinuesAt(rest[0]).None?
    ensures Level(T, 0, Print(t, 0) + rest) == Ok(t, rest)
    decreases t, 30, 0
  {
    hide Level, Bare, Print, Built;
    ReadsBack(T, t, 0, rest);
  }

  // ---- the law -----------------------------------------------------------------------------------------------------

  /** Printing then reading gives every buildable tree back. */
  lemma {:induction false} PrintedParses(T: Table, t: Tree)
    requires Built(T, t)
    ensures ParseTokens(T, Print(t, 0)) == Ok(t, [])
  {
    ReadsBack(T, t, 0, []);
    assert Print(t, 0) + [] == Print(t, 0);
  }

  /** Whatever tokens the parser accepts, the tree it built is read back from its printing. */
  lemma {:induction false} ParsePrintParse(T: Table, ts: seq<Token>)
    requires TableFits(T) && AllFit(ts)
    ensures var r := ParseTokens(T, ts); r.Ok? ==> Built(T, r.tree) && ParseTokens(T, Print(r.tree, 0)) == r
  {
    LevelBuilds(T, 0, ts);
    var r := ParseTokens(T, ts);
    if r.Ok? { PrintedParses(T, r.tree); }
  }

  /** Two buildable trees with one printing are one tree: parentheses lose nothing. */
  lemma {:induction false} PrintInjective(T: Table, t: Tree, u: Tree)
    requires Built(T, t) && Built(T, u) && Print(t, 0) == Print(u, 0)
    ensures t == u
  {
    PrintedParses(T, t);
    PrintedParses(T, u);
  }
}
