/** What makes no difference to a reading: a sign plus, «!=» for «<>», and parentheses around what is whole. */
module Tidy {
  import opened Syntax
  import opened Words
  import opened Grammar
  import opened Flat
  import opened Printer

  /** The tokens without sign pluses and with «<>» for «!=». */
  function Tidied(ts: seq<Token>, ended: bool): seq<Token> {
    if ts == [] then []
    else
      var rest := Tidied(ts[1..], EndsOperand(ts[0]));
      if ts[0] == TOp(OpPlus) && !ended then rest
      else [if ts[0] == TOp(OpBangEq) then TOp(OpNe) else ts[0]] + rest
  }

  lemma {:induction false} FirstTidied(ts: seq<Token>, ended: bool)
    requires ts != [] && (ended || ts[0] != TOp(OpPlus))
    ensures var u := Tidied(ts, ended);
            && u != [] && u[0] == (if ts[0] == TOp(OpBangEq) then TOp(OpNe) else ts[0])
            && u[1..] == Tidied(ts[1..], EndsOperand(ts[0]))
  {
  }

  lemma {:induction false} SignDropped(ts: seq<Token>)
    requires StartsOp(ts, OpPlus)
    ensures Tidied(ts, false) == Tidied(ts[1..], false)
  {
  }

  /** After an operand the first token left is the first token, in its class. */
  lemma {:induction false} SameStart(ts: seq<Token>)
    ensures var u := Tidied(ts, true);
            && (u == [] <==> ts == [])
            && (forall kw :: StartsKw(u, kw) <==> StartsKw(ts, kw))
            && (forall op :: op != OpBangEq && op != OpNe ==> (StartsOp(u, op) <==> StartsOp(ts, op)))
            && (forall k :: Continues(u, k) <==> Continues(ts, k))
  {
    if ts != [] { FirstTidied(ts, true); }
  }

  /** No operand starts so. */
  predicate NoStart(k: nat, ts: seq<Token>) {
    StartsOp(ts, OpClose) || StartsKw(ts, KwWhen) || StartsKw(ts, KwDistinct) || (k >= 4 && StartsKw(ts, KwNot))
  }

  lemma {:induction false} NoStartFails(T: Table, k: nat, ts: seq<Token>)
    requires k <= 11 && NoStart(k, ts)
    ensures Level(T, k, ts).Err?
    decreases 12 - k
  {
    if k < 11 { NoStartFails(T, k + 1, ts); }
  }

  /** The same tree, and the same left over. */
  predicate SameRead(r: Parse, u: Parse) { r.Ok? ==> u == Ok(r.tree, Tidied(r.rest, true)) }

  // ---- level by level ----------------------------------------------------------------------------------------------

  lemma {:induction false} LevelTidied(T: Table, k: nat, ts: seq<Token>)
    requires k <= 11
    ensures SameRead(Level(T, k, ts), Level(T, k, Tidied(ts, false)))
    decreases |ts|, 12 - k, 2
  {
    hide Tidied;
    var u := Tidied(ts, false);
    if LeftLevel(k) {
      LevelTidied(T, k + 1, ts);
      var r := Level(T, k + 1, ts);
      if r.Ok? { LoopTidied(T, k, r.tree, r.rest); }
    } else if k == 3 {
      NotTidied(T, ts);
    } else if k == 6 {
      LevelTidied(T, 7, ts);
      var r := Level(T, 7, ts);
      if r.Ok? { NullTailTidied(r.tree, r.rest); }
    } else if k == 9 {
      SignTidied(T, ts);
    } else if k == 10 {
      LevelTidied(T, 11, ts);
      var r := Level(T, 11, ts);
      if r.Ok? {
        SameStart(r.rest);
        if StartsOp(r.rest, OpCaret) {
          FirstTidied(r.rest, true);
          LevelTidied(T, 9, r.rest[1..]);
        }
      }
    } else {
      PrimaryTidied(T, ts);
    }
  }

  lemma {:induction false} NotTidied(T: Table, ts: seq<Token>)
    ensures SameRead(Level(T, 3, ts), Level(T, 3, Tidied(ts, false)))
    decreases |ts|, 9, 1
  {
    var u := Tidied(ts, false);
    hide Tidied;
    if StartsKw(ts, KwNot) {
      FirstTidied(ts, false);
      LevelTidied(T, 3, ts[1..]);
    } else {
      LevelTidied(T, 4, ts);
      if StartsKw(u, KwNot) { NoStartFails(T, 4, u); }
    }
  }

  lemma {:induction false} SignTidied(T: Table, ts: seq<Token>)
    ensures SameRead(Level(T, 9, ts), Level(T, 9, Tidied(ts, false)))
    decreases |ts|, 3, 1
  {
    hide Tidied;
    if StartsOp(ts, OpPlus) {
      SignDropped(ts);
      LevelTidied(T, 9, ts[1..]);
    } else {
      if ts != [] { FirstTidied(ts, false); } else { assert Tidied(ts, false) == [] by { NothingTidied(); } }
      if StartsOp(ts, OpMinus) { LevelTidied(T, 9, ts[1..]); } else { LevelTidied(T, 10, ts); }
    }
  }

  lemma {:induction false} NothingTidied()
    ensures Tidied([], false) == [] == Tidied([], true)
  {
  }

  lemma {:induction false} LoopTidied(T: Table, k: nat, a: Tree, ts: seq<Token>)
    requires LeftLevel(k)
    ensures SameRead(Loop(T, k, a, ts), Loop(T, k, a, Tidied(ts, true)))
    decreases |ts|, 12 - k, 1
  {
    hide Tidied;
    SameStart(ts);
    if Continues(ts, k) {
      FirstTidied(ts, true);
      OperatorGoesOn(ts[0]);
      LevelTidied(T, k + 1, ts[1..]);
      var r := Level(T, k + 1, ts[1..]);
      if r.Ok? { LoopTidied(T, k, Join(ts[0], a, r.tree), r.rest); }
      hide Level;
    }
  }

  lemma {:induction false} NullTailTidied(a: Tree, ts: seq<Token>)
    ensures SameRead(NullTail(a, ts), NullTail(a, Tidied(ts, true)))
  {
    hide Tidied;
    SameStart(ts);
    if StartsKw(ts, KwIs) {
      FirstTidied(ts, true);
      var left := ts[1..];
      if StartsKw(left, KwNot) {
        FirstTidied(left, false);
        assert ts[2..] == left[1..] && Tidied(ts, true)[2..] == Tidied(left, false)[1..];
        if StartsKw(ts[2..], KwNull) { FirstTidied(ts[2..], false); }
      } else if StartsKw(left, KwNull) {
        FirstTidied(left, false);
      }
    }
  }

  lemma {:induction false} PrimaryTidied(T: Table, ts: seq<Token>)
    ensures SameRead(Primary(T, ts), Primary(T, Tidied(ts, false)))
    decreases |ts|, 1, 0
  {
    hide Tidied, Level, CallOf, CaseOf, IsCell, Lower;
    if Primary(T, ts).Ok? {
      FirstTidied(ts, false);
      match ts[0]
      case TKw(kw) => if kw == KwCase { CaseTidied(T, ts[1..]); }
      case TOp(op) =>
        LevelTidied(T, 0, ts[1..]);
        var r := Level(T, 0, ts[1..]);
        FirstTidied(r.rest, true);
      case TId(word) =>
        CallTidied(T, T.byName[Lower(word)], ts[1..]);
        CallStarts(T, T.byName[Lower(word)], ts[1..]);
        FirstTidied(ts[1..], false);
      case _ =>
    }
  }

  lemma {:induction false} CallStarts(T: Table, name: string, ts: seq<Token>)
    ensures CallOf(T, name, ts).Ok? ==> StartsOp(ts, OpOpen)
  {
  }

  lemma {:induction false} CallTidied(T: Table, name: string, ts: seq<Token>)
    ensures SameRead(CallOf(T, name, ts), CallOf(T, name, Tidied(ts, false)))
    decreases |ts|, 13, 0
  {
    hide Tidied, CallFits, Args;
    var r := CallOf(T, name, ts);
    if r.Ok? {
      FirstTidied(ts, false);
      var in_ := ts[1..];
      var u := Tidied(in_, false);
      var distinct := StartsKw(in_, KwDistinct);
      if distinct {
        FirstTidied(in_, false);
        assert ts[2..] == in_[1..] && Tidied(ts, false)[2..] == u[1..];
      } else {
        ArgsStart(T, in_);
      }
      ArgsTidied(T, if distinct then ts[2..] else in_);
      FirstTidied(Args(T, if distinct then ts[2..] else in_).rest, true);
    }
  }

  /** Arguments that are read do not start with «distinct», tidied or not. */
  lemma {:induction false} ArgsStart(T: Table, ts: seq<Token>)
    ensures Args(T, ts).Oks? && !StartsKw(ts, KwDistinct) ==> !StartsKw(Tidied(ts, false), KwDistinct)
    decreases |ts|, 13, 2
  {
    hide Tidied, Level;
    var u := Tidied(ts, false);
    if Args(T, ts).Oks? && StartsKw(u, KwDistinct) {
      if StartsOp(ts, OpClose) {
        FirstTidied(ts, false);
      } else {
        LevelTidied(T, 0, ts);
        NoStartFails(T, 0, u);
      }
    }
  }

  predicate SameMany(r: ParseMany, u: ParseMany) { r.Oks? ==> u == Oks(r.trees, Tidied(r.rest, true)) }

  lemma {:induction false} ArgsTidied(T: Table, ts: seq<Token>)
    ensures Args(T, ts).Oks? && StartsOp(Args(T, ts).rest, OpClose) ==>
              SameMany(Args(T, ts), Args(T, Tidied(ts, false)))
    decreases |ts|, 13, 1
  {
    hide Tidied, Level;
    var u := Tidied(ts, false);
    if StartsOp(ts, OpClose) {
      FirstTidied(ts, false);
      FirstTidied(ts, true);
      assert u == [u[0]] + u[1..] && Tidied(ts, true) == [u[0]] + u[1..];
    } else {
      LevelTidied(T, 0, ts);
      var r := Level(T, 0, ts);
      if r.Ok? {
        if StartsOp(u, OpClose) { NoStartFails(T, 0, u); }
        ArgsLoopTidied(T, [r.tree], r.rest);
      }
    }
  }

  lemma {:induction false} ArgsLoopTidied(T: Table, acc: seq<Tree>, ts: seq<Token>)
    ensures SameMany(ArgsLoop(T, acc, ts), ArgsLoop(T, acc, Tidied(ts, true)))
    decreases |ts|, 13, 0
  {
    hide Tidied, Level;
    SameStart(ts);
    if StartsOp(ts, OpComma) {
      FirstTidied(ts, true);
      LevelTidied(T, 0, ts[1..]);
      var r := Level(T, 0, ts[1..]);
      if r.Ok? { ArgsLoopTidied(T, acc + [r.tree], r.rest); }
    }
  }

  lemma {:induction false} CaseTidied(T: Table, ts: seq<Token>)
    ensures SameRead(CaseOf(T, ts), CaseOf(T, Tidied(ts, false)))
    decreases |ts|, 14, 0
  {
    hide Tidied, Level, CaseTail;
    var u := Tidied(ts, false);
    if StartsKw(ts, KwWhen) {
      FirstTidied(ts, false);
      FirstTidied(ts, true);
      assert u == [u[0]] + u[1..] && Tidied(ts, true) == [u[0]] + u[1..];
      CaseTailTidied(T, None, ts);
    } else {
      LevelTidied(T, 0, ts);
      var r := Level(T, 0, ts);
      if r.Ok? {
        if StartsKw(u, KwWhen) { NoStartFails(T, 0, u); }
        CaseTailTidied(T, Some(r.tree), r.rest);
      }
    }
  }

  lemma {:induction false} CaseTailTidied(T: Table, subject: Option<Tree>, ts: seq<Token>)
    ensures SameRead(CaseTail(T, subject, ts), CaseTail(T, subject, Tidied(ts, true)))
    decreases |ts|, 13, 1
  {
    hide Tidied, Level, WhensLoop;
    WhensTidied(T, [], ts);
    var whens := WhensLoop(T, [], ts);
    if whens.OkWhens? {
      SameStart(whens.rest);
      if StartsKw(whens.rest, KwElse) {
        FirstTidied(whens.rest, true);
        LevelTidied(T, 0, whens.rest[1..]);
        var o := Level(T, 0, whens.rest[1..]);
        if o.Ok? && StartsKw(o.rest, KwEnd) { FirstTidied(o.rest, true); }
      } else if StartsKw(whens.rest, KwEnd) {
        FirstTidied(whens.rest, true);
      }
    }
  }

  predicate SameWhens(r: ParseWhens, u: ParseWhens) { r.OkWhens? ==> u == OkWhens(r.whens, Tidied(r.rest, true)) }

  lemma {:induction false} WhensTidied(T: Table, acc: seq<When>, ts: seq<Token>)
    ensures SameWhens(WhensLoop(T, acc, ts), WhensLoop(T, acc, Tidied(ts, true)))
    decreases |ts|, 13, 0
  {
    hide Tidied, Level;
    SameStart(ts);
    if StartsKw(ts, KwWhen) {
      FirstTidied(ts, true);
      LevelTidied(T, 0, ts[1..]);
      var w := Level(T, 0, ts[1..]);
      if w.Ok? && StartsKw(w.rest, KwThen) {
        FirstTidied(w.rest, true);
        LevelTidied(T, 0, w.rest[1..]);
        var t := Level(T, 0, w.rest[1..]);
        if t.Ok? { WhensTidied(T, acc + [When(w.tree, t.tree)], t.rest); }
      }
    }
  }

  // ---- whole texts -------------------------------------------------------------------------------------------------

  /** Whatever parses, parses to the same tree without its sign pluses and with «<>» for «!=». */
  lemma {:induction false} TidyReadsAlike(T: Table, ts: seq<Token>)
    ensures ParseTokens(T, ts).Ok? ==> ParseTokens(T, Tidied(ts, false)) == ParseTokens(T, ts)
  {
    LevelTidied(T, 0, ts);
    NothingTidied();
    hide Tidied, Level;
  }

  /** Parentheses around a whole expression, and a plus before anything a sign may stand before, change nothing. */
  lemma {:induction false} AroundReadsAlike(T: Table, t: Tree)
    requires Built(T, t)
    ensures ParseTokens(T, [TOp(OpOpen)] + Print(t, 0) + [TOp(OpClose)]) == Ok(t, [])
    ensures ParseTokens(T, [TOp(OpPlus)] + Print(t, 9)) == Ok(t, [])
  {
    Parenthesised(T, t);
    Signed(T, t);
    hide Level, Print, Built;
    Down(T, 11, [TOp(OpOpen)] + Print(t, 0) + [TOp(OpClose)], t);
    Down(T, 9, [TOp(OpPlus)] + Print(t, 9), t);
  }

  lemma {:induction false} Parenthesised(T: Table, t: Tree)
    requires Built(T, t)
    ensures Level(T, 11, [TOp(OpOpen)] + Print(t, 0) + [TOp(OpClose)]) == Ok(t, [])
  {
    var ts := [TOp(OpOpen)] + Print(t, 0) + [TOp(OpClose)];
    ReadsBack(T, t, 0, [TOp(OpClose)]);
    hide Print, Built;
    assert ts[1..] == Print(t, 0) + [TOp(OpClose)];
  }

  lemma {:induction false} Signed(T: Table, t: Tree)
    requires Built(T, t)
    ensures Level(T, 9, [TOp(OpPlus)] + Print(t, 9)) == Ok(t, [])
  {
    var ts := [TOp(OpPlus)] + Print(t, 9);
    ReadsBack(T, t, 9, []);
    hide Print, Built;
    assert ts[1..] == Print(t, 9) + [];
  }

  /** What a level reads whole, every lower level reads whole - unless it starts with what a lower one would take. */
  lemma {:induction false} Down(T: Table, k: nat, ts: seq<Token>, t: Tree)
    requires k <= 11 && Level(T, k, ts) == Ok(t, []) && !StartsKw(ts, KwNot) && !StartsOp(ts, OpMinus)
    requires k > 9 ==> !StartsOp(ts, OpPlus)
    ensures ParseTokens(T, ts) == Ok(t, [])
    decreases k
  {
    if k > 0 { Down(T, k - 1, ts, t); }
  }
}
