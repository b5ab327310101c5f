/** The parser as it runs: one cursor over the tokens, moved by the level methods and their loops. Each method is
    proved to compute what `Grammar` reads from the tokens under the cursor. */
module ParserMachine {
  import opened Syntax
  import opened Words
  import opened Grammar
  import Scanner

  datatype Answer = Done(tree: Tree) | Failed(why: Why)
  datatype Answers = DoneAll(trees: seq<Tree>) | FailedAll(cause: Why)

  /** An answer and the tokens left under the cursor, against the grammar's reading. */
  ghost predicate Agrees(r: Answer, left: seq<Token>, g: Parse) {
    match g
    case Ok(t, rest) => r == Done(t) && left == rest
    case Err(why) => r == Failed(why)
  }

  class Cursor {
    const T: Table
    const ts: seq<Token>
    var p: nat

    ghost predicate Valid()
      reads this
    {
      p <= |ts|
    }

    ghost function Left(): seq<Token>
      requires Valid()
      reads this
    {
      ts[p..]
    }

    constructor (T: Table, ts: seq<Token>)
      ensures this.T == T && this.ts == ts && Valid() && Left() == ts
    {
      this.T := T;
      this.ts := ts;
      p := 0;
    }

    predicate AtKw(kw: Keyword)
      requires Valid()
      reads this
      ensures AtKw(kw) == StartsKw(Left(), kw)
    {
      p < |ts| && ts[p] == TKw(kw)
    }

    predicate AtOp(op: Op)
      requires Valid()
      reads this
      ensures AtOp(op) == StartsOp(Left(), op)
    {
      p < |ts| && ts[p] == TOp(op)
    }

    method Step()
      requires Valid() && p < |ts|
      modifies this
      ensures Valid() && p == old(p) + 1 && Left() == old(Left())[1..]
    {
      p := p + 1;
    }

    method Read(k: nat) returns (r: Answer)
      requires k <= 11 && Valid()
      modifies this
      ensures Valid() && Agrees(r, Left(), Level(T, k, old(Left())))
      decreases |ts| - p, 12 - k, 1
    {
      if LeftLevel(k) {
        r := LeftAssociative(k);
      } else if k == 3 {
        r := NotLevel();
      } else if k == 6 {
        r := NullLevel();
      } else if k == 9 {
        r := Unary();
      } else if k == 10 {
        r := PowerLevel();
      } else {
        r := PrimaryReads();
      }
    }

    /** or_, xor, and_, equality, relational, additive, multiplicative: one operand, then a loop. */
    method LeftAssociative(k: nat) returns (r: Answer)
      requires LeftLevel(k) && Valid()
      modifies this
      ensures Valid() && Agrees(r, Left(), Level(T, k, old(Left())))
      decreases |ts| - p, 12 - k, 0
    {
      ghost var all := Left();
      r := Read(k + 1);
      if r.Failed? { return; }
      var a := r.tree;
      while p < |ts| && ContinuesAt(ts[p]) == Some(k)
        invariant Valid() && old(p) < p
        invariant Level(T, k, all) == Loop(T, k, a, Left())
        decreases |ts| - p
      {
        var tok := ts[p];
        Step();
        r := Read(k + 1);
        if r.Failed? { return; }
        a := Join(tok, a, r.tree);
      }
      r := Done(a);
    }

    method NotLevel() returns (r: Answer)
      requires Valid()
      modifies this
      ensures Valid() && Agrees(r, Left(), Level(T, 3, old(Left())))
      decreases |ts| - p, 9, 0
    {
      if AtKw(KwNot) {
        Step();
        r := Read(3);
        if r.Done? { r := Done(Not(r.tree)); }
      } else {
        r := Read(4);
      }
    }

    method NullLevel() returns (r: Answer)
      requires Valid()
      modifies this
      ensures Valid() && Agrees(r, Left(), Level(T, 6, old(Left())))
      decreases |ts| - p, 6, 0
    {
      r := Read(7);
      if r.Failed? || !AtKw(KwIs) { return; }
      Step();
      var negate := AtKw(KwNot);
      if negate { Step(); }
      if !AtKw(KwNull) { return Failed(Expected); }
      Step();
      r := Done(IsNull(r.tree, negate));
    }

    method Unary() returns (r: Answer)
      requires Valid()
      modifies this
      ensures Valid() && Agrees(r, Left(), Level(T, 9, old(Left())))
      decreases |ts| - p, 3, 0
    {
      if AtOp(OpMinus) || AtOp(OpPlus) {
        var negate := AtOp(OpMinus);
        Step();
        r := Read(9);
        if r.Done? && negate { r := Done(Neg(r.tree)); }
      } else {
        r := Read(10);
      }
    }

    method PowerLevel() returns (r: Answer)
      requires Valid()
      modifies this
      ensures Valid() && Agrees(r, Left(), Level(T, 10, old(Left())))
      decreases |ts| - p, 2, 0
    {
      r := Read(11);
      if r.Failed? || !AtOp(OpCaret) { return; }
      var a := r.tree;
      Step();
      r := Read(9);
      if r.Done? { r := Done(Arith(Power, a, r.tree)); }
    }

    method PrimaryReads() returns (r: Answer)
      requires Valid()
      modifies this
      ensures Valid() && Agrees(r, Left(), Level(T, 11, old(Left())))
      decreases |ts| - p, 1, 0
    {
      if p == |ts| { return Failed(EndsTooSoon); }
      var tok := ts[p];
      ghost var all := Left();
      assert Level(T, 11, all) == Primary(T, all);
      hide Level;
      match tok
      case TNum(l) => Step(); r := Done(Lit(LNum(l)));
      case TStr(s) => Step(); r := Done(Lit(LStr(s)));
      case TRef(name) =>
        Step();
        r := if IsWay(name) then Failed(WayFromTheRow) else Done(Ref(name));
      case TKw(kw) =>
        if kw == KwCase {
          Step();
          r := CaseReads();
        } else if kw == KwNull || kw == KwTrue || kw == KwFalse {
          Step();
          r := Done(Lit(if kw == KwNull then LNull else LBool(kw == KwTrue)));
        } else {
          r := Failed(NotExpected);
        }
      case TOp(op) =>
        if op != OpOpen { return Failed(NotExpected); }
        Step();
        r := Read(0);
        if r.Failed? { return; }
        if !AtOp(OpClose) { return Failed(Expected); }
        Step();
      case TId(word) =>
        assert StartsOp(all[1..], OpOpen) == (p + 1 < |ts| && ts[p + 1] == TOp(OpOpen));
        if IsCell(word) && !(p + 1 < |ts| && ts[p + 1] == TOp(OpOpen)) { return Failed(SheetCell); }
        Step();
        if Lower(word) !in T.byName { return Failed(NotAFunction); }
        r := CallReads(T.byName[Lower(word)]);
    }

    method CallReads(name: string) returns (r: Answer)
      requires Valid()
      modifies this
      ensures Valid() && Agrees(r, Left(), CallOf(T, name, old(Left())))
      decreases |ts| - p, 13, 0
    {
      hide Level;
      if !AtOp(OpOpen) { return Failed(Expected); }
      Step();
      var distinct := AtKw(KwDistinct);
      if distinct { Step(); }
      var args := ArgsRead();
      if args.FailedAll? { return Failed(args.cause); }
      if !AtOp(OpClose) { return Failed(Expected); }
      if !CallFits(T, name, args.trees, distinct) { return Failed(CallRefused); }
      Step();
      r := Done(Call(name, args.trees, distinct));
    }

    method ArgsRead() returns (r: Answers)
      requires Valid()
      modifies this
      ensures Valid()
      ensures match Args(T, old(Left()))
              case Oks(trees, rest) => r == DoneAll(trees) && Left() == rest
              case Errs(why) => r == FailedAll(why)
      decreases |ts| - p, 13, 0
    {
      hide Level;
      ghost var all := Left();
      if AtOp(OpClose) { return DoneAll([]); }
      var a := Read(0);
      if a.Failed? { return FailedAll(a.why); }
      var args := [a.tree];
      while p < |ts| && ts[p] == TOp(OpComma)
        invariant Valid() && old(p) < p
        invariant Args(T, all) == ArgsLoop(T, args, Left())
        decreases |ts| - p
      {
        Step();
        a := Read(0);
        if a.Failed? { return FailedAll(a.why); }
        args := args + [a.tree];
      }
      r := DoneAll(args);
    }

    method CaseReads() returns (r: Answer)
      requires Valid()
      modifies this
      ensures Valid() && Agrees(r, Left(), CaseOf(T, old(Left())))
      decreases |ts| - p, 14, 0
    {
      hide Level;
      ghost var all := Left();
      var subject := None;
      if !AtKw(KwWhen) {
        r := Read(0);
        if r.Failed? { return; }
        subject := Some(r.tree);
      }
      assert CaseOf(T, all) == CaseTail(T, subject, Left());
      ghost var body := Left();
      var whens: seq<When> := [];
      while p < |ts| && ts[p] == TKw(KwWhen)
        invariant Valid() && old(p) <= p
        invariant CaseOf(T, all) == CaseTail(T, subject, body)
        invariant WhensLoop(T, [], body) == WhensLoop(T, whens, Left())
        decreases |ts| - p
      {
        Step();
        r := Read(0);
        if r.Failed? { return; }
        var test := r.tree;
        if !AtKw(KwThen) { return Failed(Expected); }
        Step();
        r := Read(0);
        if r.Failed? { return; }
        whens := whens + [When(test, r.tree)];
      }
      if whens == [] { return Failed(Expected); }
      var otherwise := None;
      if AtKw(KwElse) {
        Step();
        r := Read(0);
        if r.Failed? { return; }
        otherwise := Some(r.tree);
      }
      if !AtKw(KwEnd) { return Failed(Expected); }
      Step();
      r := Done(Case(subject, whens, otherwise));
    }
  }

  /** `_parse` over its tokens. */
  method ParseAll(T: Table, ts: seq<Token>) returns (r: Answer)
    ensures Agrees(r, [], ParseTokens(T, ts))
  {
    var cursor := new Cursor(T, ts);
    r := cursor.Read(0);
    if r.Done? && cursor.p < |ts| { r := Failed(NotExpected); }
  }

  /** `compile`'s reading: a text to a tree, or why not. */
  method Compile(T: Table, text: string) returns (r: Scanner.Read)
    ensures r == Scanner.ReadText(T, text)
  {
    var scanned := Scanner.ScanText(text);
    if scanned.Refused? { return Scanner.NotScanned(scanned.why); }
    var answer := ParseAll(T, scanned.ts);
    r := if answer.Done? then Scanner.Read(answer.tree) else Scanner.NotParsed(answer.why);
  }
}
