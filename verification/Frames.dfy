/** Wafer frames: a stored coordinate to the cell of its frame, to the physical die and back, and the transform between
    two frames (utils/coordinate_transformer.py, map_overlay.make_frame_transform, dt_frame_transform). */
module Frames {
  import opened Words

  /** The rectangle a frame's stored coordinates are counted from. */
  datatype Box = Box(minC: int, maxC: int, minR: int, maxR: int)

  /** A frame as the transformer is built from it. `side` is the text of the meta, read in lower case. */
  datatype Frame = Frame(cols: int, rows: int, startX: int, startY: int, rotation: int, side: string, invertY: bool)

  datatype Point = Point(x: int, y: int)

  predicate IsBack(f: Frame) { Lower(f.side) == "back" }
  predicate Sideways(f: Frame) { f.rotation == 90 || f.rotation == 270 }
  function VisualCols(f: Frame): int { if Sideways(f) then f.rows else f.cols }
  function VisualRows(f: Frame): int { if Sideways(f) then f.cols else f.rows }

  /** The side turned over before the rotation. */
  function Mirrored(f: Frame, p: Point): Point {
    if !IsBack(f) then p
    else if Sideways(f) then Point(p.x, VisualRows(f) - 1 - p.y)
    else Point(VisualCols(f) - 1 - p.x, p.y)
  }

  function CellToPhysical(f: Frame, cell: Point): Point {
    var m := Mirrored(f, cell);
    if f.rotation == 90 then Point(m.y, VisualCols(f) - 1 - m.x)
    else if f.rotation == 180 then Point(VisualCols(f) - 1 - m.x, VisualRows(f) - 1 - m.y)
    else if f.rotation == 270 then Point(VisualRows(f) - 1 - m.y, m.x)
    else m
  }

  function PhysicalToCell(f: Frame, p: Point): Point {
    var m :=
      if f.rotation == 90 then Point(VisualCols(f) - 1 - p.y, p.x)
      else if f.rotation == 180 then Point(VisualCols(f) - 1 - p.x, VisualRows(f) - 1 - p.y)
      else if f.rotation == 270 then Point(p.y, VisualRows(f) - 1 - p.x)
      else p;
    Mirrored(f, m)
  }

  function CellToVisual(f: Frame, b: Box, cell: Point): Point {
    Point(cell.x - b.minC + f.startX,
     if f.invertY then b.maxR - cell.y + f.startY else cell.y - b.minR + f.startY)
  }

  function VisualToCell(f: Frame, b: Box, v: Point): Point {
    Point(v.x - f.startX + b.minC,
     if f.invertY then b.maxR - (v.y - f.startY) else v.y - f.startY + b.minR)
  }

  function VisualToPhysical(f: Frame, b: Box, v: Point): Point { CellToPhysical(f, VisualToCell(f, b, v)) }
  function PhysicalToVisual(f: Frame, b: Box, p: Point): Point { CellToVisual(f, b, PhysicalToCell(f, p)) }

  /** Source frame to target frame, by way of the physical die. */
  function Transform(s: Frame, sb: Box, t: Frame, tb: Box, v: Point): Point {
    PhysicalToVisual(t, tb, VisualToPhysical(s, sb, v))
  }

  // ---- round trips -------------------------------------------------------------------------------------------------

  lemma {:induction false} CellThereAndBack(f: Frame, p: Point)
    ensures PhysicalToCell(f, CellToPhysical(f, p)) == p && CellToPhysical(f, PhysicalToCell(f, p)) == p
  {
    hide Lower;
  }

  predicate Inside(cols: int, rows: int, p: Point) { 0 <= p.x < cols && 0 <= p.y < rows }

  /** The cells of the frame's grid are the dies of the physical grid, one for one. */
  lemma {:induction false} GridOntoGrid(f: Frame, cell: Point)
    ensures Inside(VisualCols(f), VisualRows(f), cell) <==> Inside(f.cols, f.rows, CellToPhysical(f, cell))
  {
    hide Lower;
  }

  lemma {:induction false} VisualThereAndBack(f: Frame, b: Box, v: Point)
    ensures PhysicalToVisual(f, b, VisualToPhysical(f, b, v)) == v
    ensures VisualToPhysical(f, b, PhysicalToVisual(f, b, v)) == v
  {
    CellThereAndBack(f, VisualToCell(f, b, v));
    CellThereAndBack(f, v);
    hide CellToPhysical, PhysicalToCell;
    assert VisualToCell(f, b, CellToVisual(f, b, PhysicalToCell(f, v))) == PhysicalToCell(f, v);
  }

  /** For all grids, starts, boxes and coordinates: to the target and back again is where one was. */
  lemma {:induction false} TransformUndone(s: Frame, sb: Box, t: Frame, tb: Box, v: Point)
    ensures Transform(t, tb, s, sb, Transform(s, sb, t, tb, v)) == v
  {
    VisualThereAndBack(s, sb, v);
    VisualThereAndBack(t, tb, VisualToPhysical(s, sb, v));
  }

  /** Through a third frame is the same as straight. */
  lemma {:induction false} TransformsCompose(s: Frame, sb: Box, t: Frame, tb: Box, u: Frame, ub: Box, v: Point)
    ensures Transform(t, tb, u, ub, Transform(s, sb, t, tb, v)) == Transform(s, sb, u, ub, v)
  {
    VisualThereAndBack(t, tb, VisualToPhysical(s, sb, v));
  }

  /** Frames that agree on every axis and box leave coordinates where they are (resolve_align's shortcut). */
  lemma {:induction false} EqualFramesMoveNothing(s: Frame, b: Box, v: Point)
    ensures Transform(s, b, s, b, v) == v
  {
    VisualThereAndBack(s, b, v);
  }

  /** The first cell of the box - its last row where y runs up - is written as the start, and a cell to the right or
      down one more or, where y runs up, one less. */
  lemma {:induction false} FirstCellIsTheStart(f: Frame, b: Box, cell: Point)
    ensures CellToVisual(f, b, Point(b.minC, if f.invertY then b.maxR else b.minR)) == Point(f.startX, f.startY)
    ensures CellToVisual(f, b, Point(cell.x + 1, cell.y)).x == CellToVisual(f, b, cell).x + 1
    ensures CellToVisual(f, b, Point(cell.x, cell.y + 1)).y
         == CellToVisual(f, b, cell).y + (if f.invertY then -1 else 1)
  {
  }

  // ---- the linear part ---------------------------------------------------------------------------------------------

  datatype Matrix = Matrix(a11: int, a12: int, a21: int, a22: int)

  /** The product of a matrix entry - always -1, 0 or 1 - and a number. */
  function By(a: int, x: int): int { if a > 0 then x else if a < 0 then -x else 0 }

  lemma {:induction false} ByIsProduct(a: int, x: int)
    requires -1 <= a <= 1
    ensures By(a, x) == a * x
  {
  }

  predicate IsUnit(a: int) { -1 <= a <= 1 }

  /** 1 or -1. */
  predicate Turning(a: int) { -1 <= a <= 1 && a != 0 }

  /** A quarter turn, perhaps turned over: one entry of each row and column is 1 or -1. */
  predicate Signed(m: Matrix) {
    || (m.a12 == 0 && m.a21 == 0 && Turning(m.a11) && Turning(m.a22))
    || (m.a11 == 0 && m.a22 == 0 && Turning(m.a12) && Turning(m.a21))
  }

  /** `_mat_mul` on such matrices. */
  function Times(a: Matrix, b: Matrix): Matrix {
    Matrix(By(a.a11, b.a11) + By(a.a12, b.a21), By(a.a11, b.a12) + By(a.a12, b.a22),
           By(a.a21, b.a11) + By(a.a22, b.a21), By(a.a21, b.a12) + By(a.a22, b.a22))
  }

  /** `apply_linear` */
  function Apply(m: Matrix, d: Point): Point { Point(By(m.a11, d.x) + By(m.a12, d.y), By(m.a21, d.x) + By(m.a22, d.y)) }

  const IDENTITY := Matrix(1, 0, 0, 1)

  predicate Quarter(rotation: int) { rotation == 0 || rotation == 90 || rotation == 180 || rotation == 270 }

  function RotationForward(rotation: int): Matrix {
    if rotation == 90 then Matrix(0, 1, -1, 0) else if rotation == 180 then Matrix(-1, 0, 0, -1)
    else if rotation == 270 then Matrix(0, -1, 1, 0) else IDENTITY
  }

  function RotationInverse(rotation: int): Matrix {
    if rotation == 90 then Matrix(0, -1, 1, 0) else if rotation == 180 then Matrix(-1, 0, 0, -1)
    else if rotation == 270 then Matrix(0, 1, -1, 0) else IDENTITY
  }

  function SideMatrix(f: Frame): Matrix {
    if !IsBack(f) then IDENTITY else if Sideways(f) then Matrix(1, 0, 0, -1) else Matrix(-1, 0, 0, 1)
  }

  function InvertMatrix(f: Frame): Matrix { Matrix(1, 0, 0, if f.invertY then -1 else 1) }

  /** The linear part of a frame's cells against the dies, both ways: the side before the rotation, and back. */
  function Forward(f: Frame): Matrix { Times(RotationForward(f.rotation), SideMatrix(f)) }
  function Backward(f: Frame): Matrix { Times(SideMatrix(f), RotationInverse(f.rotation)) }

  /** `frame_linear_part`: the linear part of the transform from the declared axes alone - no box, start or grid. Its
      tables hold quarter turns only. */
  function LinearPart(s: Frame, t: Frame): Matrix
    requires Quarter(s.rotation) && Quarter(t.rotation)
  {
    Times(InvertMatrix(t), Times(Backward(t), Times(Forward(s), InvertMatrix(s))))
  }

  /** The product of two matrices, entry by entry as the source writes it. */
  function Product(a: Matrix, b: Matrix): Matrix {
    Matrix(a.a11 * b.a11 + a.a12 * b.a21, a.a11 * b.a12 + a.a12 * b.a22,
           a.a21 * b.a11 + a.a22 * b.a21, a.a21 * b.a12 + a.a22 * b.a22)
  }

  lemma {:induction false} TimesIsProduct(a: Matrix, b: Matrix)
    requires Signed(a)
    ensures Times(a, b) == Product(a, b)
  {
    ByIsProduct(a.a11, b.a11);
    ByIsProduct(a.a12, b.a21);
    ByIsProduct(a.a11, b.a12);
    ByIsProduct(a.a12, b.a22);
    ByIsProduct(a.a21, b.a11);
    ByIsProduct(a.a22, b.a21);
    ByIsProduct(a.a21, b.a12);
    ByIsProduct(a.a22, b.a22);
    hide By;
  }

  lemma {:induction false} ApplyIsProduct(m: Matrix, d: Point)
    requires Signed(m)
    ensures Apply(m, d) == Point(m.a11 * d.x + m.a12 * d.y, m.a21 * d.x + m.a22 * d.y)
  {
    ByIsProduct(m.a11, d.x);
    ByIsProduct(m.a12, d.y);
    ByIsProduct(m.a21, d.x);
    ByIsProduct(m.a22, d.y);
    hide By;
  }

  function Minus(p: Point, q: Point): Point { Point(p.x - q.x, p.y - q.y) }

  lemma {:induction false} BySum(s: int, t: int, x: int)
    requires s == 0 || t == 0
    ensures By(s + t, x) == By(s, x) + By(t, x)
  {
  }

  lemma {:induction false} ByChain(a: int, b: int, x: int)
    requires IsUnit(a) && IsUnit(b)
    ensures By(By(a, b), x) == By(a, By(b, x))
  {
  }

  lemma {:induction false} BySpread(a: int, x: int, y: int)
    ensures By(a, x + y) == By(a, x) + By(a, y)
  {
  }

  /** One entry of a product applied: a row (a, c) with one empty entry, the columns (b, e) and (f, g). */
  lemma {:induction false} EntryApplied(a: int, c: int, b: int, e: int, f: int, g: int, x: int, y: int)
    requires IsUnit(a) && IsUnit(c) && IsUnit(b) && IsUnit(e) && IsUnit(f) && IsUnit(g) && (a == 0 || c == 0)
    ensures By(By(a, b) + By(c, e), x) + By(By(a, f) + By(c, g), y)
            == By(a, By(b, x) + By(f, y)) + By(c, By(e, x) + By(g, y))
  {
    assert By(0, b) == 0 && By(0, e) == 0 && By(0, f) == 0 && By(0, g) == 0;
    hide By;
    BySum(By(a, b), By(c, e), x);
    BySum(By(a, f), By(c, g), y);
    ByChain(a, b, x);
    ByChain(c, e, x);
    ByChain(a, f, y);
    ByChain(c, g, y);
    BySpread(a, By(b, x), By(f, y));
    BySpread(c, By(e, x), By(g, y));
  }

  lemma {:induction false} ApplyTimes(a: Matrix, b: Matrix, d: Point)
    requires Signed(a) && Signed(b)
    ensures Apply(Times(a, b), d) == Apply(a, Apply(b, d))
  {
    hide By;
    EntryApplied(a.a11, a.a12, b.a11, b.a21, b.a12, b.a22, d.x, d.y);
    EntryApplied(a.a21, a.a22, b.a11, b.a21, b.a12, b.a22, d.x, d.y);
  }

  lemma {:induction false} CellStep(f: Frame, b: Box, p: Point, q: Point)
    ensures Minus(VisualToCell(f, b, p), VisualToCell(f, b, q)) == Apply(InvertMatrix(f), Minus(p, q))
    ensures Minus(CellToVisual(f, b, p), CellToVisual(f, b, q)) == Apply(InvertMatrix(f), Minus(p, q))
  {
  }

  function Sign(back: bool): int { if back then -1 else 1 }

  lemma {:induction false} SideIs(f: Frame)
    ensures SideMatrix(f) == if Sideways(f) then Matrix(1, 0, 0, Sign(IsBack(f))) else Matrix(Sign(IsBack(f)), 0, 0, 1)
  {
    hide IsBack;
  }

  lemma {:induction false} TurnedForward(x: int)
    ensures Times(Matrix(0, 1, -1, 0), Matrix(1, 0, 0, x)) == Matrix(0, x, -1, 0)
    ensures Times(Matrix(0, -1, 1, 0), Matrix(1, 0, 0, x)) == Matrix(0, -x, 1, 0)
    ensures Times(Matrix(-1, 0, 0, -1), Matrix(x, 0, 0, 1)) == Matrix(-x, 0, 0, -1)
    ensures Times(IDENTITY, Matrix(x, 0, 0, 1)) == Matrix(x, 0, 0, 1)
  {
  }

  lemma {:induction false} TurnedBackward(x: int)
    ensures Times(Matrix(1, 0, 0, x), Matrix(0, -1, 1, 0)) == Matrix(0, -1, By(x, 1), 0)
    ensures Times(Matrix(1, 0, 0, x), Matrix(0, 1, -1, 0)) == Matrix(0, 1, By(x, -1), 0)
    ensures Times(Matrix(x, 0, 0, 1), Matrix(-1, 0, 0, -1)) == Matrix(By(x, -1), 0, 0, -1)
    ensures Times(Matrix(x, 0, 0, 1), IDENTITY) == Matrix(By(x, 1), 0, 0, 1)
  {
    assert By(x, 0) == 0;
  }

  lemma {:induction false} ForwardIs(f: Frame)
    ensures var x := Sign(IsBack(f));
            Forward(f) == (if f.rotation == 90 then Matrix(0, x, -1, 0)
                           else if f.rotation == 180 then Matrix(-x, 0, 0, -1)
                           else if f.rotation == 270 then Matrix(0, -x, 1, 0) else Matrix(x, 0, 0, 1))
  {
    hide IsBack, Times, SideMatrix;
    SideIs(f);
    TurnedForward(Sign(IsBack(f)));
  }

  lemma {:induction false} BackwardIs(f: Frame)
    ensures var x := Sign(IsBack(f));
            Backward(f) == (if f.rotation == 90 then Matrix(0, -1, x, 0)
                            else if f.rotation == 180 then Matrix(-x, 0, 0, -1)
                            else if f.rotation == 270 then Matrix(0, 1, -x, 0) else Matrix(x, 0, 0, 1))
  {
    hide IsBack, Times, SideMatrix;
    SideIs(f);
    TurnedBackward(Sign(IsBack(f)));
  }

  lemma {:induction false} ForwardStep(f: Frame, p: Point, q: Point)
    ensures Minus(CellToPhysical(f, p), CellToPhysical(f, q)) == Apply(Forward(f), Minus(p, q))
  {
    hide Lower, IsBack, Forward;
    ForwardIs(f);
  }

  lemma {:induction false} BackwardStep(f: Frame, p: Point, q: Point)
    ensures Minus(PhysicalToCell(f, p), PhysicalToCell(f, q)) == Apply(Backward(f), Minus(p, q))
  {
    hide Lower, IsBack, Backward;
    BackwardIs(f);
  }

  lemma {:induction false} ProductStays(a: Matrix, b: Matrix)
    requires Signed(a) && Signed(b)
    ensures Signed(Times(a, b))
  {
  }

  lemma {:induction false} StepsAreSigned(f: Frame)
    ensures Signed(Forward(f)) && Signed(Backward(f)) && Signed(InvertMatrix(f))
  {
    hide Lower, Times;
    ProductStays(RotationForward(f.rotation), SideMatrix(f));
    ProductStays(SideMatrix(f), RotationInverse(f.rotation));
  }

  /** The linear part is a signed permutation. */
  lemma {:induction false} LinearPartIsSigned(s: Frame, t: Frame)
    requires Quarter(s.rotation) && Quarter(t.rotation)
    ensures Signed(LinearPart(s, t))
  {
    hide Times, Forward, Backward, InvertMatrix, Signed;
    StepsAreSigned(s);
    StepsAreSigned(t);
    ProductStays(Forward(s), InvertMatrix(s));
    ProductStays(Backward(t), Times(Forward(s), InvertMatrix(s)));
    ProductStays(InvertMatrix(t), Times(Backward(t), Times(Forward(s), InvertMatrix(s))));
  }

  /** It is the product of the declared axes' own matrices, in their order. */
  lemma {:induction false} LinearPartIsProduct(s: Frame, t: Frame)
    requires Quarter(s.rotation) && Quarter(t.rotation)
    ensures var forward := Product(RotationForward(s.rotation), SideMatrix(s));
            var backward := Product(SideMatrix(t), RotationInverse(t.rotation));
            LinearPart(s, t) == Product(InvertMatrix(t), Product(backward, Product(forward, InvertMatrix(s))))
  {
    hide Lower, Times, Product, InvertMatrix, Signed;
    AxesAreSigned(s);
    AxesAreSigned(t);
    hide SideMatrix, RotationForward, RotationInverse;
    TimesIsProduct(RotationForward(s.rotation), SideMatrix(s));
    TimesIsProduct(SideMatrix(t), RotationInverse(t.rotation));
    StepsAreSigned(s);
    StepsAreSigned(t);
    TimesIsProduct(Forward(s), InvertMatrix(s));
    TimesIsProduct(Backward(t), Times(Forward(s), InvertMatrix(s)));
    TimesIsProduct(InvertMatrix(t), Times(Backward(t), Times(Forward(s), InvertMatrix(s))));
  }

  lemma {:induction false} AxesAreSigned(f: Frame)
    ensures Signed(RotationForward(f.rotation)) && Signed(RotationInverse(f.rotation)) && Signed(SideMatrix(f))
  {
    hide Lower, IsBack, Sideways;
  }

  /** Differences of coordinates move by the linear part exactly, whatever the grids, starts and boxes are. */
  lemma {:induction false} DifferencesMoveLinearly(s: Frame, sb: Box, t: Frame, tb: Box, p: Point, q: Point)
    requires Quarter(s.rotation) && Quarter(t.rotation)
    ensures Minus(Transform(s, sb, t, tb, p), Transform(s, sb, t, tb, q)) == Apply(LinearPart(s, t), Minus(p, q))
    ensures var m, d := LinearPart(s, t), Minus(p, q);
            Apply(m, d) == Point(m.a11 * d.x + m.a12 * d.y, m.a21 * d.x + m.a22 * d.y)
  {
    DifferencesApply(s, sb, t, tb, p, q);
    LinearPartIsSigned(s, t);
    hide LinearPart, Transform, Apply, Signed;
    ApplyIsProduct(LinearPart(s, t), Minus(p, q));
  }

  lemma {:induction false} DifferencesApply(s: Frame, sb: Box, t: Frame, tb: Box, p: Point, q: Point)
    requires Quarter(s.rotation) && Quarter(t.rotation)
    ensures Minus(Transform(s, sb, t, tb, p), Transform(s, sb, t, tb, q)) == Apply(LinearPart(s, t), Minus(p, q))
  {
    hide CellToVisual, VisualToCell, CellToPhysical, PhysicalToCell;
    hide Apply, Times, Forward, Backward, InvertMatrix, Minus, Signed;
    var m1, m2, m3, m4 := InvertMatrix(s), Forward(s), Backward(t), InvertMatrix(t);
    var c, e := VisualToCell(s, sb, p), VisualToCell(s, sb, q);
    var g, h := CellToPhysical(s, c), CellToPhysical(s, e);
    CellStep(s, sb, p, q);
    ForwardStep(s, c, e);
    BackwardStep(t, g, h);
    CellStep(t, tb, PhysicalToCell(t, g), PhysicalToCell(t, h));
    var d := Minus(p, q);
    StepsAreSigned(s);
    StepsAreSigned(t);
    ProductStays(m2, m1);
    ProductStays(m3, Times(m2, m1));
    ApplyTimes(m4, Times(m3, Times(m2, m1)), d);
    ApplyTimes(m3, Times(m2, m1), d);
    ApplyTimes(m2, m1, d);
  }

  // ---- the stored equation -----------------------------------------------------------------------------------------

  datatype Base = BaseX | BaseY
  type UnitSign = s: int | Turning(s) witness 1
  datatype Equation = Equation(base: Base, sign: UnitSign, offset: int) | NotAffine

  /** `_axis_equation`: one output axis read from its values at an origin and one step right and down of it. */
  function AxisEquation(here: int, right: int, down: int, origin: Point): Equation {
    var dx, dy := right - here, down - here;
    if Turning(dx) && dy == 0 then Equation(BaseX, dx, here - By(dx, origin.x))
    else if dx == 0 && Turning(dy) then Equation(BaseY, dy, here - By(dy, origin.y))
    else NotAffine
  }

  /** The stored equations of both axes. */
  datatype Equations = Equations(x: Equation, y: Equation)

  function Worked(e: Equation, v: Point): int
    requires e.Equation?
  {
    By(e.sign, match e.base case BaseX => v.x case BaseY => v.y) + e.offset
  }

  /** The standard axes over the same grid. */
  function Standard(f: Frame): Frame { f.(startX := 1, startY := 1, rotation := 0, side := "front", invertY := false) }

  /** `dt_equations` under a frame's and the standard frame's box. */
  function DtEquations(f: Frame, sb: Box, tb: Box): Equations {
    var o := Point(f.startX, f.startY);
    var p0 := Transform(f, sb, Standard(f), tb, o);
    var px := Transform(f, sb, Standard(f), tb, Point(o.x + 1, o.y));
    var py := Transform(f, sb, Standard(f), tb, Point(o.x, o.y + 1));
    Equations(AxisEquation(p0.x, px.x, py.x, o), AxisEquation(p0.y, px.y, py.y, o))
  }

  /** The equation is there and gives `value` at `v`. */
  predicate Gives(e: Equation, v: Point, value: int) { e.Equation? && Worked(e, v) == value }

  /** An affine axis with unit coefficients (a, b), read back from its three values. */
  lemma {:induction false} AxisSuffices(here: int, o: Point, a: int, b: int, v: Point)
    requires (a == 0 && Turning(b)) || (b == 0 && Turning(a))
    ensures Gives(AxisEquation(here, here + a, here + b, o), v, here + By(a, v.x - o.x) + By(b, v.y - o.y))
  {
  }

  /** Three probes say everything: the stored equations exist for every frame of a quarter turn and are its transform
      to the standard frame, at every coordinate. */
  lemma {:induction false} EquationsAreTheTransform(f: Frame, sb: Box, tb: Box, v: Point)
    requires Quarter(f.rotation)
    ensures Gives(DtEquations(f, sb, tb).x, v, Transform(f, sb, Standard(f), tb, v).x)
    ensures Gives(DtEquations(f, sb, tb).y, v, Transform(f, sb, Standard(f), tb, v).y)
  {
    hide LinearPart, Transform, AxisEquation, Signed, Apply, Minus, Gives, Lower;
    var t := Standard(f);
    var o := Point(f.startX, f.startY);
    var m := LinearPart(f, t);
    var p0, px := Transform(f, sb, t, tb, o), Transform(f, sb, t, tb, Point(o.x + 1, o.y));
    var py, pv := Transform(f, sb, t, tb, Point(o.x, o.y + 1)), Transform(f, sb, t, tb, v);
    LinearPartIsSigned(f, t);
    DifferencesMoveLinearly(f, sb, t, tb, Point(o.x + 1, o.y), o);
    DifferencesMoveLinearly(f, sb, t, tb, Point(o.x, o.y + 1), o);
    DifferencesMoveLinearly(f, sb, t, tb, v, o);
    ProbesSuffice(m, o, v, p0, px, py, pv);
  }

  lemma {:induction false} ProbesSuffice(m: Matrix, o: Point, v: Point, p0: Point, px: Point, py: Point, pv: Point)
    requires Signed(m) && Minus(pv, p0) == Apply(m, Minus(v, o))
    requires Minus(px, p0) == Apply(m, Minus(Point(o.x + 1, o.y), o))
    requires Minus(py, p0) == Apply(m, Minus(Point(o.x, o.y + 1), o))
    ensures Gives(AxisEquation(p0.x, px.x, py.x, o), v, pv.x)
    ensures Gives(AxisEquation(p0.y, px.y, py.y, o), v, pv.y)
  {
    hide AxisEquation, Gives, By;
    assert Minus(Point(o.x + 1, o.y), o) == Point(1, 0) && Minus(Point(o.x, o.y + 1), o) == Point(0, 1);
    AxisProbes(m.a11, m.a12, o, v, p0.x, px.x, py.x, pv.x);
    AxisProbes(m.a21, m.a22, o, v, p0.y, px.y, py.y, pv.y);
  }

  /** One axis of an affine map with such a linear part, read back from its three probes. */
  lemma {:induction false} AxisProbes(a: int, b: int, o: Point, v: Point, here: int, right: int, down: int, value: int)
    requires (a == 0 && Turning(b)) || (b == 0 && Turning(a))
    requires right - here == By(a, 1) + By(b, 0) && down - here == By(a, 0) + By(b, 1)
    requires value - here == By(a, v.x - o.x) + By(b, v.y - o.y)
    ensures Gives(AxisEquation(here, right, down, o), v, value)
  {
    UnitBy(a);
    UnitBy(b);
    hide By, Gives, AxisEquation;
    AxisSuffices(here, o, a, b, v);
    assert right == here + a && down == here + b && value == here + By(a, v.x - o.x) + By(b, v.y - o.y);
  }

  lemma {:induction false} UnitBy(a: int)
    requires IsUnit(a)
    ensures By(a, 1) == a && By(a, 0) == 0
  {
  }

  /** The two stored equations of a frame never read the same raw axis: no two coordinates are sent to one. */
  lemma {:induction false} EquationsSeparate(f: Frame, sb: Box, tb: Box, v: Point, w: Point)
    requires Quarter(f.rotation) && v != w
    ensures var e := DtEquations(f, sb, tb);
            !exists x, y :: Gives(e.x, v, x) && Gives(e.x, w, x) && Gives(e.y, v, y) && Gives(e.y, w, y)
  {
    EquationsAreTheTransform(f, sb, tb, v);
    EquationsAreTheTransform(f, sb, tb, w);
    TransformUndone(f, sb, Standard(f), tb, v);
    TransformUndone(f, sb, Standard(f), tb, w);
  }

  /** The stored equations count a coordinate's die from the corner of the standard box, starting with 1. */
  lemma {:induction false} EquationsCountTheDie(f: Frame, sb: Box, tb: Box, v: Point)
    requires Quarter(f.rotation)
    ensures var e, die := DtEquations(f, sb, tb), VisualToPhysical(f, sb, v);
            Gives(e.x, v, die.x - tb.minC + 1) && Gives(e.y, v, die.y - tb.minR + 1)
  {
    EquationsAreTheTransform(f, sb, tb, v);
    assert Lower("front") != "back";
    hide DtEquations, Gives, VisualToPhysical, Lower;
  }
}
