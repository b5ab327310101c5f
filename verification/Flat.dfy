/** A tree written flat: its tokens in reading order with one fixed token for each operator and no parentheses. What the
    parser reads is held against what was written, token for token, without its levels and loops. */
module Flat {
  import opened Syntax
  import opened Words
  import opened Grammar

  // ---- the tree, flat ----------------------------------------------------------------------------------------------

  function LiteralSign(v: Literal): Token {
    match v
    case LNum(l) => TNum(l)
    case LStr(s) => TStr(s)
    case LBool(b) => if b then TKw(KwTrue) else TKw(KwFalse)
    case LNull => TKw(KwNull)
  }

  function LogicSign(op: LogicOp): Token {
    match op case Or => TKw(KwOr) case Xor => TKw(KwXor) case And => TKw(KwAnd)
  }

  function CompareSign(op: CmpOp): Token {
    match op
    case Equal => TOp(OpEq) case NotEqual => TOp(OpNe) case NullEqual => TOp(OpNullEq)
    case Less => TOp(OpLt) case Greater => TOp(OpGt) case LessEqual => TOp(OpLe) case GreaterEqual => TOp(OpGe)
  }

  function ArithSign(op: ArithOp): Token {
    match op
    case Add => TOp(OpPlus) case Subtract => TOp(OpMinus) case Multiply => TOp(OpTimes)
    case Divide => TOp(OpDivide) case Modulo => TOp(OpPercent) case Power => TOp(OpCaret)
  }

  function Flat(t: Tree): seq<Token>
    decreases t
  {
    match t
    case Lit(v) => [LiteralSign(v)]
    case Ref(name) => [TRef(name)]
    case Neg(a) => [TOp(OpMinus)] + Flat(a)
    case Not(a) => [TKw(KwNot)] + Flat(a)
    case Logic(op, a, b) => Flat(a) + [LogicSign(op)] + Flat(b)
    case Cmp(op, a, b) => Flat(a) + [CompareSign(op)] + Flat(b)
    case Arith(op, a, b) => Flat(a) + [ArithSign(op)] + Flat(b)
    case IsNull(a, negate) =>
      Flat(a) + (if negate then [TKw(KwIs), TKw(KwNot), TKw(KwNull)] else [TKw(KwIs), TKw(KwNull)])
    case Case(subject, whens, otherwise) =>
      [TKw(KwCase)] + (if subject.Some? then Flat(subject.value) else []) + FlatWhens(whens)
      + (if otherwise.Some? then [TKw(KwElse)] + Flat(otherwise.value) else []) + [TKw(KwEnd)]
    case Call(fn, args, distinct) => [TId(fn)] + (if distinct then [TKw(KwDistinct)] else []) + FlatArgs(args)
  }

  function FlatWhens(whens: seq<When>): seq<Token>
    decreases whens
  {
    if whens == [] then []
    else
      var n := |whens| - 1;
      assert whens[n].test < whens[n] && whens[n].then_ < whens[n];
      FlatWhens(whens[..n]) + [TKw(KwWhen)] + Flat(whens[n].test) + [TKw(KwThen)] + Flat(whens[n].then_)
  }

  function FlatArgs(args: seq<Tree>): seq<Token>
    decreases args
  {
    if args == [] then []
    else
      var n := |args| - 1;
      FlatArgs(args[..n]) + (if n > 0 then [TOp(OpComma)] else []) + Flat(args[n])
  }

  // ---- the tokens, flat --------------------------------------------------------------------------------------------

  /** After it an operator may stand between two sides; after any other token a plus is a sign. */
  predicate EndsOperand(tok: Token) {
    match tok
    case TNum(_) => true
    case TStr(_) => true
    case TRef(_) => true
    case TKw(kw) => kw == KwNull || kw == KwTrue || kw == KwFalse || kw == KwEnd
    case TOp(op) => op == OpClose
    case TId(_) => false
  }

  /** The tokens without parentheses and sign pluses, «!=» written «<>» and a function by its own name. */
  function Clean(T: Table, ts: seq<Token>, ended: bool): seq<Token> {
    if ts == [] then []
    else
      var rest := Clean(T, ts[1..], EndsOperand(ts[0]));
      match ts[0]
      case TOp(op) =>
        if op == OpOpen || op == OpClose || (op == OpPlus && !ended) then rest
        else if op == OpBangEq then [TOp(OpNe)] + rest
        else [ts[0]] + rest
      case TId(word) => [TId(if Lower(word) in T.byName then T.byName[Lower(word)] else word)] + rest
      case _ => [ts[0]] + rest
  }

  /** Only a plus asks whether an operand ended. */
  lemma {:induction false} NoPlusFirst(T: Table, ts: seq<Token>)
    requires ts == [] || ts[0] != TOp(OpPlus)
    ensures Clean(T, ts, true) == Clean(T, ts, false)
  {
  }

  // ---- what is read is what was written ----------------------------------------------------------------------------

  /** What a reading took is the tree, flat. */
  predicate Took(T: Table, ts: seq<Token>, ended: bool, written: seq<Token>, rest: seq<Token>) {
    Clean(T, ts, ended) == written + Clean(T, rest, true)
  }

  lemma {:induction false} TookOn(T: Table, head: seq<Token>, a: seq<Token>, b: seq<Token>, c: seq<Token>)
    requires a == b + c
    ensures head + a == head + b + c
  {
  }

  /** A side, a token and what comes after it: a second side and the rest. */
  lemma {:induction false} Between(x: seq<Token>, a: seq<Token>, m: seq<Token>, tok: Token, after: seq<Token>,
                                   b: seq<Token>, c: seq<Token>)
    requires x == a + m && m == [tok] + after && after == b + c
    ensures x == a + [tok] + b + c
  {
  }

  lemma {:induction false} LevelFlat(T: Table, k: nat, ts: seq<Token>)
    requires k <= 11
    ensures var r := Level(T, k, ts); r.Ok? ==> Took(T, ts, false, Flat(r.tree), r.rest)
    decreases |ts|, 12 - k, 2
  {
    hide Took;
    if LeftLevel(k) {
      LevelFlat(T, k + 1, ts);
      var r := Level(T, k + 1, ts);
      if r.Ok? {
        LoopFlat(T, k, r.tree, r.rest);
        Chained(T, ts, r.tree, r.rest, Loop(T, k, r.tree, r.rest));
      }
    } else if k == 3 {
      if StartsKw(ts, KwNot) {
        LevelFlat(T, 3, ts[1..]);
        SignFlat(T, ts, Level(T, 3, ts[1..]));
      } else {
        LevelFlat(T, 4, ts);
      }
    } else if k == 6 {
      LevelFlat(T, 7, ts);
      var r := Level(T, 7, ts);
      if r.Ok? {
        NullTailFlat(T, r.tree, r.rest);
        Chained(T, ts, r.tree, r.rest, NullTail(r.tree, r.rest));
      }
    } else if k == 9 {
      if StartsOp(ts, OpMinus) || StartsOp(ts, OpPlus) {
        LevelFlat(T, 9, ts[1..]);
        SignFlat(T, ts, Level(T, 9, ts[1..]));
      } else {
        LevelFlat(T, 10, ts);
      }
    } else if k == 10 {
      LevelFlat(T, 11, ts);
      var r := Level(T, 11, ts);
      if r.Ok? && StartsOp(r.rest, OpCaret) {
        LevelFlat(T, 9, r.rest[1..]);
        PowerFlat(T, ts, r.tree, r.rest, Level(T, 9, r.rest[1..]));
      }
    } else {
      PrimaryFlat(T, ts);
    }
  }

  /** A side read and what its level makes of it after. */
  lemma {:induction false} Chained(T: Table, ts: seq<Token>, a: Tree, mid: seq<Token>, r: Parse)
    requires Took(T, ts, false, Flat(a), mid)
    requires r.Ok? ==> Flat(a) + Clean(T, mid, true) == Flat(r.tree) + Clean(T, r.rest, true)
    ensures r.Ok? ==> Took(T, ts, false, Flat(r.tree), r.rest)
  {
    hide Clean, Flat;
  }

  /** A sign or a «not» before what was read. */
  lemma {:induction false} SignFlat(T: Table, ts: seq<Token>, r: Parse)
    requires StartsKw(ts, KwNot) || StartsOp(ts, OpMinus) || StartsOp(ts, OpPlus)
    requires r.Ok? ==> Took(T, ts[1..], false, Flat(r.tree), r.rest)
    ensures r.Ok? && StartsKw(ts, KwNot) ==> Took(T, ts, false, Flat(Not(r.tree)), r.rest)
    ensures r.Ok? && StartsOp(ts, OpMinus) ==> Took(T, ts, false, Flat(Neg(r.tree)), r.rest)
    ensures r.Ok? && StartsOp(ts, OpPlus) ==> Took(T, ts, false, Flat(r.tree), r.rest)
  {
    if r.Ok? {
      FirstClean(T, ts, false);
      assert Flat(Not(r.tree)) == [TKw(KwNot)] + Flat(r.tree) && Flat(Neg(r.tree)) == [TOp(OpMinus)] + Flat(r.tree);
      hide Clean, Flat;
      TookOn(T, [ts[0]], Clean(T, ts[1..], false), Flat(r.tree), Clean(T, r.rest, true));
    }
  }

  /** The first token, kept or left out. */
  lemma {:induction false} FirstClean(T: Table, ts: seq<Token>, ended: bool)
    requires ts != []
    ensures var rest := Clean(T, ts[1..], EndsOperand(ts[0]));
            Clean(T, ts, ended) ==
              match ts[0]
              case TOp(op) =>
                if op == OpOpen || op == OpClose || (op == OpPlus && !ended) then rest
                else if op == OpBangEq then [TOp(OpNe)] + rest
                else [ts[0]] + rest
              case TId(word) => [TId(if Lower(word) in T.byName then T.byName[Lower(word)] else word)] + rest
              case _ => [ts[0]] + rest
  {
  }

  lemma {:induction false} PowerFlat(T: Table, ts: seq<Token>, a: Tree, mid: seq<Token>, r: Parse)
    requires Took(T, ts, false, Flat(a), mid) && StartsOp(mid, OpCaret)
    requires r.Ok? ==> Took(T, mid[1..], false, Flat(r.tree), r.rest)
    ensures r.Ok? ==> Took(T, ts, false, Flat(Arith(Power, a, r.tree)), r.rest)
  {
    if r.Ok? {
      FirstClean(T, mid, true);
      assert Flat(Arith(Power, a, r.tree)) == Flat(a) + [TOp(OpCaret)] + Flat(r.tree);
      hide Clean, Flat;
      Between(Clean(T, ts, false), Flat(a), Clean(T, mid, true), TOp(OpCaret), Clean(T, mid[1..], false),
              Flat(r.tree), Clean(T, r.rest, true));
    }
  }

  /** An operator between two sides: its sign is that of the tree the parser makes. */
  lemma {:induction false} JoinedFlat(tok: Token, a: Tree, b: Tree)
    requires ContinuesAt(tok).Some? && ContinuesAt(tok) != Some(6)
    ensures Flat(Join(tok, a, b)) == Flat(a) + [if tok == TOp(OpBangEq) then TOp(OpNe) else tok] + Flat(b)
  {
  }

  lemma {:induction false} TurnFlat(T: Table, a: Tree, ts: seq<Token>, r: Parse)
    requires ts != [] && ContinuesAt(ts[0]).Some? && ContinuesAt(ts[0]) != Some(6) && r.Ok?
    requires Took(T, ts[1..], false, Flat(r.tree), r.rest)
    ensures Flat(a) + Clean(T, ts, true) == Flat(Join(ts[0], a, r.tree)) + Clean(T, r.rest, true)
  {
    JoinedFlat(ts[0], a, r.tree);
    FirstClean(T, ts, true);
    OperatorGoesOn(ts[0]);
    hide Clean, Flat, Join;
    Between(Flat(a) + Clean(T, ts, true), Flat(a), Clean(T, ts, true),
            if ts[0] == TOp(OpBangEq) then TOp(OpNe) else ts[0], Clean(T, ts[1..], false),
            Flat(r.tree), Clean(T, r.rest, true));
  }

  lemma {:induction false} LoopFlat(T: Table, k: nat, a: Tree, ts: seq<Token>)
    requires LeftLevel(k)
    ensures var r := Loop(T, k, a, ts);
            r.Ok? ==> Flat(a) + Clean(T, ts, true) == Flat(r.tree) + Clean(T, r.rest, true)
    decreases |ts|, 12 - k, 1
  {
    if Continues(ts, k) {
      LevelFlat(T, k + 1, ts[1..]);
      var r := Level(T, k + 1, ts[1..]);
      if r.Ok? {
        LoopFlat(T, k, Join(ts[0], a, r.tree), r.rest);
        TurnFlat(T, a, ts, r);
      }
      hide Clean, Flat, Join, Level;
    }
  }

  lemma {:induction false} OperatorGoesOn(tok: Token)
    requires ContinuesAt(tok).Some?
    ensures !EndsOperand(tok) && tok != TOp(OpOpen) && tok != TOp(OpClose) && !tok.TId?
  {
  }

  lemma {:induction false} NullTailFlat(T: Table, a: Tree, ts: seq<Token>)
    ensures var r := NullTail(a, ts);
            r.Ok? ==> Flat(a) + Clean(T, ts, true) == Flat(r.tree) + Clean(T, r.rest, true)
  {
    var r := NullTail(a, ts);
    if StartsKw(ts, KwIs) && r.Ok? {
      FirstClean(T, ts, true);
      FirstClean(T, ts[1..], false);
      var negate := StartsKw(ts[1..], KwNot);
      if negate {
        FirstClean(T, ts[2..], false);
        assert ts[1..][1..] == ts[2..] && ts[2..][1..] == r.rest;
      } else {
        assert ts[1..][1..] == r.rest;
      }
      assert Flat(r.tree)
          == Flat(a) + (if negate then [TKw(KwIs), TKw(KwNot), TKw(KwNull)] else [TKw(KwIs), TKw(KwNull)]);
      hide Clean, Flat;
    }
  }

  lemma {:induction false} PrimaryFlat(T: Table, ts: seq<Token>)
    ensures var r := Primary(T, ts); r.Ok? ==> Took(T, ts, false, Flat(r.tree), r.rest)
    decreases |ts|, 1, 0
  {
    if ts != [] {
      FirstClean(T, ts, false);
      hide Clean, Level, CallOf, CaseOf, IsCell, Lower;
      match ts[0]
      case TNum(l) =>
      case TStr(s) =>
      case TRef(name) =>
      case TKw(kw) => if kw == KwCase { CaseFlat(T, ts[1..]); }
      case TOp(op) =>
        if op == OpOpen {
          LevelFlat(T, 0, ts[1..]);
          var r := Level(T, 0, ts[1..]);
          if r.Ok? && StartsOp(r.rest, OpClose) { FirstClean(T, r.rest, true); }
        }
      case TId(word) => if Lower(word) in T.byName { CallFlat(T, T.byName[Lower(word)], ts[1..]); }
    }
  }

  lemma {:induction false} CallFlat(T: Table, name: string, ts: seq<Token>)
    ensures var r := CallOf(T, name, ts);
            r.Ok? ==> [TId(name)] + Clean(T, ts, false) == Flat(r.tree) + Clean(T, r.rest, true)
    decreases |ts|, 13, 0
  {
    hide Clean, Flat, FlatArgs, Args, CallFits;
    var r := CallOf(T, name, ts);
    if r.Ok? {
      var distinct := StartsKw(ts[1..], KwDistinct);
      var left := if distinct then ts[2..] else ts[1..];
      ArgsFlat(T, left);
      CallOpens(T, ts, distinct);
      var args := Args(T, left);
      CallCloses(T, args.rest);
      CallIs(r.tree);
      Headed([TId(name)], if distinct then [TKw(KwDistinct)] else [], Clean(T, ts, false), Clean(T, left, false),
             FlatArgs(args.trees), Clean(T, r.rest, true));
    }
  }

  lemma {:induction false} CallIs(t: Tree)
    requires t.Call?
    ensures Flat(t) == [TId(t.fn)] + (if t.distinct then [TKw(KwDistinct)] else []) + FlatArgs(t.args)
  {
  }

  lemma {:induction false} CallCloses(T: Table, ts: seq<Token>)
    requires StartsOp(ts, OpClose)
    ensures Clean(T, ts, true) == Clean(T, ts[1..], true)
  {
  }

  lemma {:induction false} Headed(name: seq<Token>, head: seq<Token>, x: seq<Token>, y: seq<Token>, b: seq<Token>,
                                  c: seq<Token>)
    requires x == head + y && y == b + c
    ensures name + x == name + head + b + c
  {
  }

  lemma {:induction false} CallOpens(T: Table, ts: seq<Token>, distinct: bool)
    requires StartsOp(ts, OpOpen) && distinct == StartsKw(ts[1..], KwDistinct)
    ensures Clean(T, ts, false)
         == (if distinct then [TKw(KwDistinct)] else []) + Clean(T, if distinct then ts[2..] else ts[1..], false)
  {
    FirstClean(T, ts, false);
    if distinct {
      FirstClean(T, ts[1..], false);
      assert ts[1..][1..] == ts[2..];
    }
    hide Clean;
  }

  lemma {:induction false} ArgsFlat(T: Table, ts: seq<Token>)
    ensures var r := Args(T, ts);
            r.Oks? && StartsOp(r.rest, OpClose) ==> Clean(T, ts, false) == FlatArgs(r.trees) + Clean(T, r.rest, true)
    decreases |ts|, 13, 1
  {
    if StartsOp(ts, OpClose) {
      NoPlusFirst(T, ts);
    } else {
      LevelFlat(T, 0, ts);
      var r := Level(T, 0, ts);
      if r.Ok? {
        ArgsLoopFlat(T, [r.tree], r.rest);
        assert [r.tree][..0] == [] && FlatArgs([r.tree]) == Flat(r.tree);
      }
      hide Clean, Flat, FlatArgs, Level;
    }
  }

  lemma {:induction false} ArgsLoopFlat(T: Table, acc: seq<Tree>, ts: seq<Token>)
    requires acc != []
    ensures var r := ArgsLoop(T, acc, ts);
            r.Oks? ==> FlatArgs(acc) + Clean(T, ts, true) == FlatArgs(r.trees) + Clean(T, r.rest, true)
    decreases |ts|, 13, 0
  {
    if StartsOp(ts, OpComma) {
      LevelFlat(T, 0, ts[1..]);
      var r := Level(T, 0, ts[1..]);
      if r.Ok? {
        ArgsLoopFlat(T, acc + [r.tree], r.rest);
        FirstClean(T, ts, true);
        assert (acc + [r.tree])[..|acc|] == acc;
        assert FlatArgs(acc + [r.tree]) == FlatArgs(acc) + [TOp(OpComma)] + Flat(r.tree);
        hide Clean, Flat, FlatArgs, Level;
        Between(FlatArgs(acc) + Clean(T, ts, true), FlatArgs(acc), Clean(T, ts, true), TOp(OpComma),
                Clean(T, ts[1..], false), Flat(r.tree), Clean(T, r.rest, true));
      }
    }
  }

  lemma {:induction false} CaseFlat(T: Table, ts: seq<Token>)
    ensures var r := CaseOf(T, ts);
            r.Ok? ==> [TKw(KwCase)] + Clean(T, ts, false) == Flat(r.tree) + Clean(T, r.rest, true)
    decreases |ts|, 14, 0
  {
    hide Clean, Flat, Level;
    if StartsKw(ts, KwWhen) {
      NoPlusFirst(T, ts);
      CaseTailFlat(T, None, ts);
    } else {
      LevelFlat(T, 0, ts);
      var r := Level(T, 0, ts);
      if r.Ok? { CaseTailFlat(T, Some(r.tree), r.rest); }
    }
  }

  function Opening(subject: Option<Tree>): seq<Token> {
    [TKw(KwCase)] + if subject.Some? then Flat(subject.value) else []
  }

  function Ending(otherwise: Option<Tree>): seq<Token> {
    (if otherwise.Some? then [TKw(KwElse)] + Flat(otherwise.value) else []) + [TKw(KwEnd)]
  }

  lemma {:induction false} CaseIs(t: Tree)
    requires t.Case?
    ensures Flat(t) == Opening(t.subject) + FlatWhens(t.whens) + Ending(t.otherwise)
  {
    hide FlatWhens;
  }

  lemma {:induction false} CaseTailFlat(T: Table, subject: Option<Tree>, ts: seq<Token>)
    ensures var r := CaseTail(T, subject, ts);
            r.Ok? ==> Opening(subject) + Clean(T, ts, true) == Flat(r.tree) + Clean(T, r.rest, true)
    decreases |ts|, 13, 1
  {
    hide Clean, Flat, Level, FlatWhens, WhensLoop, Opening, Ending, Took;
    var r := CaseTail(T, subject, ts);
    WhensFlat(T, [], ts);
    if r.Ok? {
      var whens := WhensLoop(T, [], ts);
      NoWhensFlat();
      if StartsKw(whens.rest, KwElse) { LevelFlat(T, 0, whens.rest[1..]); }
      CaseEnds(T, whens.rest, r);
      CaseIs(r.tree);
      NothingBefore(Clean(T, ts, true));
      Headed(Opening(subject), FlatWhens(r.tree.whens), Clean(T, ts, true), Clean(T, whens.rest, true),
             Ending(r.tree.otherwise), Clean(T, r.rest, true));
    }
  }

  lemma {:induction false} NoWhensFlat()
    ensures FlatWhens([]) == []
  {
  }

  lemma {:induction false} NothingBefore(s: seq<Token>)
    ensures [] + s == s
  {
  }

  /** What a case ends with after its whens. */
  lemma {:induction false} CaseEnds(T: Table, ts: seq<Token>, r: Parse)
    requires r.Ok? && r.tree.Case? && (StartsKw(ts, KwElse) <==> r.tree.otherwise.Some?)
    requires StartsKw(ts, KwElse) ==>
               var o := Level(T, 0, ts[1..]);
               && o.Ok? && r.tree.otherwise == Some(o.tree) && Took(T, ts[1..], false, Flat(o.tree), o.rest)
               && StartsKw(o.rest, KwEnd) && r.rest == o.rest[1..]
    requires !StartsKw(ts, KwElse) ==> StartsKw(ts, KwEnd) && r.rest == ts[1..]
    ensures Clean(T, ts, true) == Ending(r.tree.otherwise) + Clean(T, r.rest, true)
  {
    FirstClean(T, ts, true);
    if StartsKw(ts, KwElse) {
      var o := Level(T, 0, ts[1..]);
      FirstClean(T, o.rest, true);
      hide Clean, Flat, Level;
      Headed([TKw(KwElse)], Flat(o.tree), Clean(T, ts[1..], false), Clean(T, o.rest, true), [TKw(KwEnd)],
             Clean(T, r.rest, true));
    }
  }

  lemma {:induction false} WhensFlat(T: Table, acc: seq<When>, ts: seq<Token>)
    ensures var r := WhensLoop(T, acc, ts);
            r.OkWhens? ==> FlatWhens(acc) + Clean(T, ts, true) == FlatWhens(r.whens) + Clean(T, r.rest, true)
    decreases |ts|, 13, 0
  {
    if StartsKw(ts, KwWhen) {
      LevelFlat(T, 0, ts[1..]);
      var w := Level(T, 0, ts[1..]);
      if w.Ok? && StartsKw(w.rest, KwThen) {
        LevelFlat(T, 0, w.rest[1..]);
        var t := Level(T, 0, w.rest[1..]);
        if t.Ok? {
          WhensFlat(T, acc + [When(w.tree, t.tree)], t.rest);
          WhenFlat(T, acc, ts, w, t);
        }
      }
    }
    hide Clean, Flat, FlatWhens, Level;
  }

  lemma {:induction false} WhenFlat(T: Table, acc: seq<When>, ts: seq<Token>, w: Parse, t: Parse)
    requires StartsKw(ts, KwWhen) && w.Ok? && Took(T, ts[1..], false, Flat(w.tree), w.rest)
    requires StartsKw(w.rest, KwThen) && t.Ok? && Took(T, w.rest[1..], false, Flat(t.tree), t.rest)
    ensures FlatWhens(acc) + Clean(T, ts, true) == FlatWhens(acc + [When(w.tree, t.tree)]) + Clean(T, t.rest, true)
  {
    var when := When(w.tree, t.tree);
    FirstClean(T, ts, true);
    FirstClean(T, w.rest, true);
    assert (acc + [when])[..|acc|] == acc;
    assert FlatWhens(acc + [when]) == FlatWhens(acc) + [TKw(KwWhen)] + Flat(w.tree) + [TKw(KwThen)] + Flat(t.tree);
    hide Clean, Flat, FlatWhens;
    Between(Clean(T, ts[1..], false), Flat(w.tree), Clean(T, w.rest, true), TKw(KwThen), Clean(T, w.rest[1..], false),
            Flat(t.tree), Clean(T, t.rest, true));
    WhenGlue(FlatWhens(acc), TKw(KwWhen), Flat(w.tree), TKw(KwThen), Flat(t.tree), Clean(T, t.rest, true));
  }

  lemma {:induction false} WhenGlue(a: seq<Token>, m: Token, b: seq<Token>, n: Token, c: seq<Token>, d: seq<Token>)
    ensures a + ([m] + (b + [n] + c + d)) == a + [m] + b + [n] + c + d
  {
  }

  /** Whatever token list parses, the tree written flat is the list: nothing is added, dropped, moved or read as another
      operator, but for parentheses, sign pluses and the two spellings of «<>». */
  lemma {:induction false} ParsedIsWritten(T: Table, ts: seq<Token>)
    ensures var r := ParseTokens(T, ts); r.Ok? ==> Flat(r.tree) == Clean(T, ts, false)
  {
    LevelFlat(T, 0, ts);
    hide Level, Flat;
  }
}
