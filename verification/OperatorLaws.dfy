/** What the operators mean, as laws of an evaluation: of trees whose sides are worth given values, on a row or on none,
    whatever the rows and the library. */
module OperatorLaws {
  import opened Syntax
  import opened Words
  import opened Values
  import opened Meaning
  import opened RowIndependence

  /** The value is the number, or a text that reads as it. */
  predicate Worth(L: Lib, v: Scalar, x: real) { v == Number(x) || (v.Text? && L.numberText(v.s) == Some(x)) }

  ghost predicate NoNumber(L: Lib, v: Scalar) { forall x: real :: !Worth(L, v, x) }

  /** No value, or a text of blanks. */
  predicate Void(v: Scalar) { v == Empty || (v.Text? && forall i :: 0 <= i < |v.s| ==> IsSpace(v.s[i])) }

  /** The tree answers with the value. */
  predicate Is(L: Lib, t: Tree, rows: seq<Row>, row: Option<Row>, v: Scalar) {
    Eval(L, t, rows, row).Done? && Eval(L, t, rows, row).v == v
  }

  /** The two trees answer with one value. */
  predicate Alike(L: Lib, t: Tree, u: Tree, rows: seq<Row>, row: Option<Row>) {
    Eval(L, t, rows, row).Done? && Is(L, u, rows, row, Eval(L, t, rows, row).v)
  }

  /** The tree answers with something worth the number. */
  predicate Counts(L: Lib, t: Tree, rows: seq<Row>, row: Option<Row>, x: real) {
    Eval(L, t, rows, row).Done? && Worth(L, Eval(L, t, rows, row).v, x)
  }

  lemma {:induction false} WorthIs(L: Lib, v: Scalar, x: real)
    ensures Worth(L, v, x) <==> NumberOf(L, v) == Some(x)
    ensures NoNumber(L, v) <==> NumberOf(L, v) == None
  {
    if NumberOf(L, v).Some? { assert Worth(L, v, NumberOf(L, v).value); }
  }

  lemma {:induction false} VoidIs(v: Scalar)
    ensures Void(v) <==> Blank(v)
  {
  }

  // ---- arithmetic --------------------------------------------------------------------------------------------------

  lemma {:induction false} ArithIs(L: Lib, op: ArithOp, a: Tree, b: Tree, rows: seq<Row>, row: Option<Row>)
    requires Eval(L, a, rows, row).Done? && Eval(L, b, rows, row).Done?
    ensures Is(L, Arith(op, a, b), rows, row, Calculated(L, op, Eval(L, a, rows, row).v, Eval(L, b, rows, row).v))
  {
  }

  lemma {:induction false} SidesCount(L: Lib, op: ArithOp, a: Tree, b: Tree, rows: seq<Row>, row: Option<Row>, x: real,
                                      y: real)
    requires Counts(L, a, rows, row, x) && Counts(L, b, rows, row, y)
    ensures Is(L, Arith(op, a, b), rows, row, Calculated(L, op, Number(x), Number(y)))
  {
    hide Eval, Calculated, NumberOf;
    ArithIs(L, op, a, b, rows, row);
    WorthIs(L, Eval(L, a, rows, row).v, x);
    WorthIs(L, Eval(L, b, rows, row).v, y);
    CalculatedBy(L, op, Eval(L, a, rows, row).v, Eval(L, b, rows, row).v, x, y);
  }

  lemma {:induction false} CalculatedBy(L: Lib, op: ArithOp, v: Scalar, w: Scalar, x: real, y: real)
    requires NumberOf(L, v) == Some(x) && NumberOf(L, w) == Some(y)
    ensures Calculated(L, op, v, w) == Calculated(L, op, Number(x), Number(y))
  {
  }

  /** Adding and taking away undo each other; the order of a sum and a zero in it do not matter. */
  lemma {:induction false} SumsUndo(L: Lib, a: Tree, b: Tree, rows: seq<Row>, row: Option<Row>, x: real, y: real)
    requires Counts(L, a, rows, row, x) && Counts(L, b, rows, row, y)
    ensures Is(L, Arith(Add, Arith(Subtract, a, b), b), rows, row, Number(x))
    ensures Is(L, Arith(Subtract, Arith(Add, a, b), b), rows, row, Number(x))
    ensures Alike(L, Arith(Add, a, b), Arith(Add, b, a), rows, row)
    ensures y == 0.0 ==> Is(L, Arith(Add, a, b), rows, row, Number(x))
  {
    hide Eval;
    SidesCount(L, Add, a, b, rows, row, x, y);
    SidesCount(L, Add, b, a, rows, row, y, x);
    SidesCount(L, Subtract, a, b, rows, row, x, y);
    SidesCount(L, Add, Arith(Subtract, a, b), b, rows, row, x - y, y);
    SidesCount(L, Subtract, Arith(Add, a, b), b, rows, row, x + y, y);
  }

  /** A product's order does not matter, one leaves the other side, and it spreads over a sum. */
  lemma {:induction false} ProductsSpread(L: Lib, a: Tree, b: Tree, c: Tree, rows: seq<Row>, row: Option<Row>, x: real,
                                          y: real, z: real)
    requires Counts(L, a, rows, row, x) && Counts(L, b, rows, row, y) && Counts(L, c, rows, row, z)
    ensures Alike(L, Arith(Multiply, a, b), Arith(Multiply, b, a), rows, row)
    ensures y == 1.0 ==> Is(L, Arith(Multiply, a, b), rows, row, Number(x))
    ensures Alike(L, Arith(Multiply, a, Arith(Add, b, c)), Arith(Add, Arith(Multiply, a, b), Arith(Multiply, a, c)),
                  rows, row)
  {
    hide Eval;
    SidesCount(L, Multiply, a, b, rows, row, x, y);
    SidesCount(L, Multiply, b, a, rows, row, y, x);
    SidesCount(L, Multiply, a, c, rows, row, x, z);
    SidesCount(L, Add, b, c, rows, row, y, z);
    SidesCount(L, Multiply, a, Arith(Add, b, c), rows, row, x, y + z);
    SidesCount(L, Add, Arith(Multiply, a, b), Arith(Multiply, a, c), rows, row, x * y, x * z);
    assert x * (y + z) == x * y + x * z;
  }

  /** A quotient times its divisor is what was divided. */
  lemma {:induction false} QuotientUndone(L: Lib, a: Tree, b: Tree, rows: seq<Row>, row: Option<Row>, x: real, y: real)
    requires Counts(L, a, rows, row, x) && Counts(L, b, rows, row, y) && y != 0.0
    ensures Is(L, Arith(Multiply, Arith(Divide, a, b), b), rows, row, Number(x))
  {
    hide Eval;
    SidesCount(L, Divide, a, b, rows, row, x, y);
    SidesCount(L, Multiply, Arith(Divide, a, b), b, rows, row, x / y, y);
    assert x / y * y == x;
  }

  /** A remainder lies between zero and the divisor and is whole divisors away from what was divided. */
  lemma {:induction false} RemainderLies(L: Lib, a: Tree, b: Tree, rows: seq<Row>, row: Option<Row>, x: real, y: real)
    returns (r: real, q: int)
    requires Counts(L, a, rows, row, x) && Counts(L, b, rows, row, y) && y != 0.0
    ensures Is(L, Arith(Modulo, a, b), rows, row, Number(r))
    ensures x == r + q as real * y && (0.0 <= r < y || y < r <= 0.0)
  {
    hide Eval;
    SidesCount(L, Modulo, a, b, rows, row, x, y);
    q := (x / y).Floor;
    r := x - y * q as real;
    FloorSplits(x, y, q);
  }

  lemma {:induction false} FloorSplits(x: real, y: real, q: int)
    requires y != 0.0 && q == (x / y).Floor
    ensures var r := x - y * q as real; 0.0 <= r < y || y < r <= 0.0
  {
    QuotientBack(x, y);
    Between(x, y, x / y, q);
  }

  lemma {:induction false} Between(x: real, y: real, z: real, q: int)
    requires y != 0.0 && z * y == x && q as real <= z < q as real + 1.0
    ensures var r := x - y * q as real; 0.0 <= r < y || y < r <= 0.0
  {
    var f := z - q as real;
    Spread(z, q as real, y);
    Within(f, y);
    assert f * y == x - y * q as real;
  }

  lemma {:induction false} QuotientBack(x: real, y: real)
    requires y != 0.0
    ensures x / y * y == x
  {
  }

  lemma {:induction false} Spread(z: real, q: real, y: real)
    ensures (z - q) * y == z * y - y * q
  {
  }

  lemma {:induction false} Within(f: real, y: real)
    requires 0.0 <= f < 1.0 && y != 0.0
    ensures 0.0 <= f * y < y || y < f * y <= 0.0
  {
    if y > 0.0 { assert (1.0 - f) * y > 0.0; } else { assert (1.0 - f) * y < 0.0; }
  }

  /** A number and its negation add up to zero; no number has none. */
  lemma {:induction false} NegationUndone(L: Lib, a: Tree, rows: seq<Row>, row: Option<Row>)
    requires Eval(L, a, rows, row).Done?
    ensures forall x: real :: Counts(L, a, rows, row, x) ==> Is(L, Arith(Add, Neg(a), a), rows, row, Number(0.0))
    ensures NoNumber(L, Eval(L, a, rows, row).v) ==> Is(L, Neg(a), rows, row, Empty)
  {
    var v := Eval(L, a, rows, row).v;
    assert Is(L, Neg(a), rows, row, if NumberOf(L, v).None? then Empty else Number(-NumberOf(L, v).value));
    hide Eval;
    WorthIs(L, v, 0.0);
    forall x: real | Counts(L, a, rows, row, x) ensures Is(L, Arith(Add, Neg(a), a), rows, row, Number(0.0)) {
      WorthIs(L, v, x);
      SidesCount(L, Add, Neg(a), a, rows, row, -x, x);
    }
  }

  /** A calculation is empty exactly where a side is no number or it divides by zero - a power, where the library has
      none - and a number otherwise. */
  lemma {:induction false} EmptyExactly(L: Lib, op: ArithOp, a: Tree, b: Tree, rows: seq<Row>, row: Option<Row>)
    requires Eval(L, a, rows, row).Done? && Eval(L, b, rows, row).Done?
    ensures var v, w, r := Eval(L, a, rows, row).v, Eval(L, b, rows, row).v, Eval(L, Arith(op, a, b), rows, row);
            && r.Done? && (r.v == Empty || r.v.Number?)
            && (r.v == Empty <==>
                  || NoNumber(L, v) || NoNumber(L, w)
                  || ((op == Divide || op == Modulo) && Worth(L, w, 0.0))
                  || (op == Power && exists x: real, y: real ::
                        Worth(L, v, x) && Worth(L, w, y) && L.power(x, y) == None))
  {
    var v, w := Eval(L, a, rows, row).v, Eval(L, b, rows, row).v;
    ArithIs(L, op, a, b, rows, row);
    hide Eval;
    WorthIs(L, v, 0.0);
    WorthIs(L, w, 0.0);
    if NumberOf(L, v).Some? && NumberOf(L, w).Some? {
      WorthIs(L, v, NumberOf(L, v).value);
      WorthIs(L, w, NumberOf(L, w).value);
      forall x: real, y: real | Worth(L, v, x) && Worth(L, w, y)
        ensures NumberOf(L, v) == Some(x) && NumberOf(L, w) == Some(y)
      {
        WorthIs(L, v, x);
        WorthIs(L, w, y);
      }
    }
  }

  /** The row is counted exactly where a side is there and no number. */
  lemma {:induction false} CountedExactly(L: Lib, op: ArithOp, a: Tree, b: Tree, rows: seq<Row>, row: Option<Row>)
    requires Eval(L, a, rows, row).Done? && Eval(L, b, rows, row).Done?
    ensures var v, w := Eval(L, a, rows, row), Eval(L, b, rows, row);
            Eval(L, Arith(op, a, b), rows, row).marks == v.marks + w.marks
              + if (!Void(v.v) && NoNumber(L, v.v)) || (!Void(w.v) && NoNumber(L, w.v)) then {NotNumberOn(IdOf(row))}
                else {}
  {
    var v, w := Eval(L, a, rows, row), Eval(L, b, rows, row);
    assert Eval(L, Arith(op, a, b), rows, row) == Operation(L, op, Both(v, w), row);
    hide Eval;
    VoidIs(v.v);
    VoidIs(w.v);
    WorthIs(L, v.v, 0.0);
    WorthIs(L, w.v, 0.0);
    hide Blank, Void, NoNumber, Calculated;
  }

  // ---- logic -------------------------------------------------------------------------------------------------------

  lemma {:induction false} LogicIs(L: Lib, op: LogicOp, a: Tree, b: Tree, rows: seq<Row>, row: Option<Row>)
    requires Eval(L, a, rows, row).Done? && Eval(L, b, rows, row).Done?
    ensures Is(L, Logic(op, a, b), rows, row,
               OfTruth(Combined(op, TruthOf(Eval(L, a, rows, row).v), TruthOf(Eval(L, b, rows, row).v))))
    ensures Is(L, Not(a), rows, row, OfTruth(Negated(TruthOf(Eval(L, a, rows, row).v))))
  {
  }

  /** «and» is true exactly where both sides are and false exactly where one is; «or» is its dual; «xor» is known
      exactly where both sides are and true where they differ; «not» turns the two. Nothing else is answered. */
  lemma {:induction false} LogicLaws(L: Lib, a: Tree, b: Tree, rows: seq<Row>, row: Option<Row>, p: Scalar, q: Scalar)
    requires Is(L, a, rows, row, p) && Is(L, b, rows, row, q)
    ensures var yes, no := Flag(true), Flag(false);
            && Is(L, Logic(And, a, b), rows, row,
                  if p == yes && q == yes then yes else if p == no || q == no then no else Empty)
            && Is(L, Logic(Or, a, b), rows, row,
                  if p == yes || q == yes then yes else if p == no && q == no then no else Empty)
            && Is(L, Logic(Xor, a, b), rows, row, if p.Flag? && q.Flag? then Flag(p != q) else Empty)
            && Is(L, Not(a), rows, row, if p == yes then no else if p == no then yes else Empty)
  {
    hide Eval;
    LogicIs(L, And, a, b, rows, row);
    LogicIs(L, Or, a, b, rows, row);
    LogicIs(L, Xor, a, b, rows, row);
  }

  // ---- comparison --------------------------------------------------------------------------------------------------

  lemma {:induction false} CmpIs(L: Lib, op: CmpOp, a: Tree, b: Tree, rows: seq<Row>, row: Option<Row>, p: Scalar,
                                 q: Scalar)
    requires Is(L, a, rows, row, p) && Is(L, b, rows, row, q)
    ensures Is(L, Cmp(op, a, b), rows, row, OfTruth(Compared(L, op, p, q)))
  {
  }

  /** The six comparisons and «<=>» by one order: below, equal, above. */
  predicate Ranks(L: Lib, a: Tree, b: Tree, rows: seq<Row>, row: Option<Row>, below: bool, equal: bool, above: bool) {
    && Is(L, Cmp(Less, a, b), rows, row, Flag(below))
    && Is(L, Cmp(Equal, a, b), rows, row, Flag(equal))
    && Is(L, Cmp(NullEqual, a, b), rows, row, Flag(equal))
    && Is(L, Cmp(Greater, a, b), rows, row, Flag(above))
    && Is(L, Cmp(NotEqual, a, b), rows, row, Flag(!equal))
    && Is(L, Cmp(LessEqual, a, b), rows, row, Flag(below || equal))
    && Is(L, Cmp(GreaterEqual, a, b), rows, row, Flag(above || equal))
  }

  lemma {:induction false} RanksBy(L: Lib, a: Tree, b: Tree, rows: seq<Row>, row: Option<Row>, p: Scalar, q: Scalar,
                                   c: int)
    requires Is(L, a, rows, row, p) && Is(L, b, rows, row, q)
    requires forall op: CmpOp :: Compared(L, op, p, q) == if Holds(op, c) then True else False
    ensures Ranks(L, a, b, rows, row, c < 0, c == 0, c > 0)
  {
    hide Eval, Compared;
    CmpIs(L, Less, a, b, rows, row, p, q);
    CmpIs(L, Equal, a, b, rows, row, p, q);
    CmpIs(L, NullEqual, a, b, rows, row, p, q);
    CmpIs(L, Greater, a, b, rows, row, p, q);
    CmpIs(L, NotEqual, a, b, rows, row, p, q);
    CmpIs(L, LessEqual, a, b, rows, row, p, q);
    CmpIs(L, GreaterEqual, a, b, rows, row, p, q);
  }

  /** Numbers compare as numbers, and so does a text that reads as one with a number. */
  lemma {:induction false} NumbersCompare(L: Lib, a: Tree, b: Tree, rows: seq<Row>, row: Option<Row>, p: Scalar,
                                          q: Scalar, x: real, y: real)
    requires Is(L, a, rows, row, p) && Is(L, b, rows, row, q) && Worth(L, p, x) && Worth(L, q, y)
    requires (p.Number? || q.Number?) && !Void(p) && !Void(q)
    ensures Ranks(L, a, b, rows, row, x < y, x == y, x > y)
  {
    VoidIs(p);
    VoidIs(q);
    WorthIs(L, p, x);
    WorthIs(L, q, y);
    hide Eval, Worth, Void, Blank;
    RanksBy(L, a, b, rows, row, p, q, if x < y then -1 else if x > y then 1 else 0);
  }

  /** `s` stands before `t`: at the first place they differ by character, or as its beginning. */
  ghost predicate Precedes(s: string, t: string) {
    exists k :: 0 <= k <= |s| && k <= |t| && s[..k] == t[..k]
             && ((k == |s| && k < |t|) || (k < |s| && k < |t| && s[k] < t[k]))
  }

  lemma {:induction false} OrderIsPrecedes(s: string, t: string)
    ensures TextOrder(s, t) < 0 <==> Precedes(s, t)
    ensures TextOrder(s, t) == 0 <==> s == t
    ensures TextOrder(s, t) > 0 <==> Precedes(t, s)
    decreases |s|
  {
    if s == "" || t == "" {
      if s == "" && t != "" { assert s[..0] == t[..0]; }
      if t == "" && s != "" { assert t[..0] == s[..0]; }
    } else if s[0] != t[0] {
      assert s[..0] == t[..0];
      HeadsDiffer(s, t);
      HeadsDiffer(t, s);
    } else {
      OrderIsPrecedes(s[1..], t[1..]);
      assert s == [s[0]] + s[1..] && t == [t[0]] + t[1..];
      PrecedesTail(s, t);
      PrecedesTail(t, s);
    }
  }

  lemma {:induction false} SameHeads(s: string, t: string, k: nat)
    requires 0 < k <= |s| && k <= |t| && s[..k] == t[..k]
    ensures s[0] == t[0]
  {
    assert s[..k][0] == s[0] && t[..k][0] == t[0];
  }

  lemma {:induction false} HeadsDiffer(s: string, t: string)
    requires s != "" && t != "" && s[0] != t[0]
    ensures Precedes(s, t) <==> s[0] < t[0]
  {
    if Precedes(s, t) {
      var k :| 0 <= k <= |s| && k <= |t| && s[..k] == t[..k]
            && ((k == |s| && k < |t|) || (k < |s| && k < |t| && s[k] < t[k]));
      if k > 0 { SameHeads(s, t, k); }
    } else {
      assert s[..0] == t[..0];
    }
  }

  lemma {:induction false} PrecedesTail(s: string, t: string)
    requires s != "" && t != "" && s[0] == t[0]
    ensures Precedes(s, t) <==> Precedes(s[1..], t[1..])
  {
    var u, v := s[1..], t[1..];
    if Precedes(s, t) {
      var k :| 0 <= k <= |s| && k <= |t| && s[..k] == t[..k]
            && ((k == |s| && k < |t|) || (k < |s| && k < |t| && s[k] < t[k]));
      assert k > 0;
      assert u[..k - 1] == s[..k][1..] && v[..k - 1] == t[..k][1..];
    }
    if Precedes(u, v) {
      var k :| 0 <= k <= |u| && k <= |v| && u[..k] == v[..k]
            && ((k == |u| && k < |v|) || (k < |u| && k < |v| && u[k] < v[k]));
      assert s[..k + 1] == [s[0]] + u[..k] && t[..k + 1] == [t[0]] + v[..k];
    }
  }

  /** Texts compare by character. */
  lemma {:induction false} TextsCompare(L: Lib, a: Tree, b: Tree, rows: seq<Row>, row: Option<Row>, s: string,
                                        t: string)
    requires Is(L, a, rows, row, Text(s)) && Is(L, b, rows, row, Text(t)) && !Void(Text(s)) && !Void(Text(t))
    ensures Ranks(L, a, b, rows, row, Precedes(s, t), s == t, Precedes(t, s))
  {
    VoidIs(Text(s));
    VoidIs(Text(t));
    OrderIsPrecedes(s, t);
    hide Eval, Void, Blank, TextOrder, Precedes;
    RanksBy(L, a, b, rows, row, Text(s), Text(t), TextOrder(s, t));
  }

  /** False stands before true. */
  lemma {:induction false} FlagsCompare(L: Lib, a: Tree, b: Tree, rows: seq<Row>, row: Option<Row>, p: bool, q: bool)
    requires Is(L, a, rows, row, Flag(p)) && Is(L, b, rows, row, Flag(q))
    ensures Ranks(L, a, b, rows, row, !p && q, p == q, p && !q)
  {
    hide Eval;
    FalseFirst();
    assert TextOrder(FlagText(p), FlagText(p)) == 0 by { OrderIsPrecedes(FlagText(p), FlagText(p)); }
    RanksBy(L, a, b, rows, row, Flag(p), Flag(q), TextOrder(FlagText(p), FlagText(q)));
  }

  lemma {:induction false} FalseFirst()
    ensures TextOrder("false", "true") < 0 < TextOrder("true", "false")
  {
  }

  /** A comparison with nothing is not answered - but «<=>» is: true exactly where both sides are nothing. */
  lemma {:induction false} VoidsCompare(L: Lib, op: CmpOp, a: Tree, b: Tree, rows: seq<Row>, row: Option<Row>,
                                        p: Scalar, q: Scalar)
    requires Is(L, a, rows, row, p) && Is(L, b, rows, row, q) && (Void(p) || Void(q))
    ensures Is(L, Cmp(op, a, b), rows, row, if op == NullEqual then Flag(Void(p) && Void(q)) else Empty)
  {
    VoidIs(p);
    VoidIs(q);
    CmpIs(L, op, a, b, rows, row, p, q);
    hide Eval, Void, Blank;
  }

  /** Two kinds that are not both numbers are not compared. */
  lemma {:induction false} StrangersCompare(L: Lib, op: CmpOp, a: Tree, b: Tree, rows: seq<Row>, row: Option<Row>,
                                            p: Scalar, q: Scalar)
    requires Is(L, a, rows, row, p) && Is(L, b, rows, row, q) && !Void(p) && !Void(q)
    requires p.Number? != q.Number? || p.Text? != q.Text?
    requires NoNumber(L, p) || NoNumber(L, q)
    ensures Is(L, Cmp(op, a, b), rows, row, Empty)
  {
    VoidIs(p);
    VoidIs(q);
    WorthIs(L, p, 0.0);
    WorthIs(L, q, 0.0);
    CmpIs(L, op, a, b, rows, row, p, q);
    hide Eval, Void, Blank, NoNumber;
  }

  /** «is null» is true exactly of nothing, and a name that holds several is not nothing. */
  lemma {:induction false} NullLaws(L: Lib, a: Tree, rows: seq<Row>, row: Option<Row>, negate: bool)
    ensures var r := Eval(L, a, rows, row);
            && (r.Done? ==> Is(L, IsNull(a, negate), rows, row, Flag(Void(r.v) != negate)))
            && (r.Failed? && r.why == Several ==> Is(L, IsNull(a, negate), rows, row, Flag(negate)))
            && (r.Failed? && r.why != Several ==> Eval(L, IsNull(a, negate), rows, row) == r)
  {
    if Eval(L, a, rows, row).Done? { VoidIs(Eval(L, a, rows, row).v); }
    hide Void, Blank;
  }

  predicate FailsWith(r: Run<Scalar>, why: Fault) { r.Failed? && r.why == why }

  /** A side that fails fails the operator, the left one first. */
  lemma {:induction false} FailsWithItsSide(L: Lib, a: Tree, b: Tree, rows: seq<Row>, row: Option<Row>)
    requires Eval(L, a, rows, row).Failed? || Eval(L, b, rows, row).Failed?
    ensures var why := if Eval(L, a, rows, row).Failed? then Eval(L, a, rows, row).why else Eval(L, b, rows, row).why;
            && (forall op :: FailsWith(Eval(L, Arith(op, a, b), rows, row), why))
            && (forall op :: FailsWith(Eval(L, Cmp(op, a, b), rows, row), why))
            && (forall op :: FailsWith(Eval(L, Logic(op, a, b), rows, row), why))
  {
  }
}
