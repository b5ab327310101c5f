/** The wafer circle on a frame's grid: the engine's millimetres (utils/physical_wafer_engine.py), the parameters a
    frame hands it (map_overlay._frame_phys_params) and the box the coordinates are counted from. */
module Wafer {
  import opened Words
  import opened Frames

  /** A map's physical record, in millimetres (`_phys_signature`). */
  datatype Spec = Spec(diameter: real, chipX: real, chipY: real, offsetX: real, offsetY: real, margin: real)

  /** What the engine is built with. */
  datatype Engine = Engine(chipX: real, chipY: real, offsetX: real, offsetY: real, radius: real)

  function AtLeast(low: real, x: real): real { if x < low then low else x }

  function EngineOf(s: Spec): Engine {
    Engine(AtLeast(0.1, s.chipX), AtLeast(0.1, s.chipY), s.offsetX, s.offsetY,
           AtLeast(0.0, s.diameter / 2.0 - AtLeast(0.0, s.margin)))
  }

  /** Cell `i` of `n` from the grid's middle, in pitches of `chip`. */
  function FromMiddle(i: int, n: int, chip: real): real { (i as real - (n - 1) as real / 2.0) * chip }

  function CentreX(e: Engine, c: int, cols: int): real { FromMiddle(c, cols, e.chipX) + e.offsetX }
  function CentreY(e: Engine, r: int, rows: int): real { -FromMiddle(r, rows, e.chipY) + e.offsetY }

  function Square(x: real): real { x * x }

  predicate Corner(x: real, y: real, radius: real) { Square(x) + Square(y) <= Square(radius) }

  predicate CornersIn(x: real, y: real, halfW: real, halfH: real, radius: real) {
    && Corner(x - halfW, y - halfH, radius) && Corner(x + halfW, y - halfH, radius)
    && Corner(x - halfW, y + halfH, radius) && Corner(x + halfW, y + halfH, radius)
  }

  /** `is_cell_inside_wafer`: all four corners of the chip are within the effective radius. */
  predicate CellInside(e: Engine, p: Point, cols: int, rows: int) {
    e.radius > 0.0 && CornersIn(CentreX(e, p.x, cols), CentreY(e, p.y, rows), e.chipX / 2.0, e.chipY / 2.0, e.radius)
  }

  /** The squared distance of a cell's centre from the wafer's. */
  function Norm(e: Engine, p: Point, cols: int, rows: int): real {
    Square(CentreX(e, p.x, cols)) + Square(CentreY(e, p.y, rows))
  }

  /** `_frame_phys_params`. The side is compared as it is written, the transformer reads it in lower case. */
  function FrameSpec(f: Frame, s: Spec): Spec {
    var ox := if f.side == "back" then -s.offsetX else s.offsetX;
    if f.rotation == 90 then s.(chipX := s.chipY, chipY := s.chipX, offsetX := s.offsetY, offsetY := -ox)
    else if f.rotation == 180 then s.(offsetX := -ox, offsetY := -s.offsetY)
    else if f.rotation == 270 then s.(chipX := s.chipY, chipY := s.chipX, offsetX := -s.offsetY, offsetY := ox)
    else s.(offsetX := ox)
  }

  /** The two readers of the side agree on it. */
  predicate SideReadAlike(f: Frame) { IsBack(f) <==> f.side == "back" }

  /** A die is inside exactly where the four corners of its chip lie within half the diameter less the margin: the
      chip of column c and row r of the grid, its pitch one tenth at the least, counted from the grid's middle, right
      and up, and moved by the offset. */
  lemma {:induction false} InsideIsWithinTheMargin(s: Spec, p: Point, cols: int, rows: int)
    ensures CellInside(EngineOf(s), p, cols, rows) <==> WithinTheMargin(s, p, cols, rows)
  {
    var e := EngineOf(s);
    var radius := s.diameter / 2.0 - if s.margin < 0.0 then 0.0 else s.margin;
    assert e.radius == if radius < 0.0 then 0.0 else radius;
    assert e.chipX == Pitch(s.chipX) && e.chipY == Pitch(s.chipY);
    CentreIs(s, p, cols, rows);
    CornersAreWithin(Across(s, p.x, cols), Up(s, p.y, rows), Pitch(s.chipX), Pitch(s.chipY), radius);
    hide CentreX, CentreY, CornersIn, Within, Across, Up, EngineOf, Pitch;
  }

  predicate WithinTheMargin(s: Spec, p: Point, cols: int, rows: int) {
    var radius := s.diameter / 2.0 - if s.margin < 0.0 then 0.0 else s.margin;
    radius > 0.0 && Within(Across(s, p.x, cols), Up(s, p.y, rows), Pitch(s.chipX), Pitch(s.chipY), radius)
  }

  /** A column's middle right of the wafer's, and a row's above it. */
  function Across(s: Spec, c: int, cols: int): real {
    (c as real - (cols - 1) as real / 2.0) * Pitch(s.chipX) + s.offsetX
  }

  function Up(s: Spec, r: int, rows: int): real {
    s.offsetY - (r as real - (rows - 1) as real / 2.0) * Pitch(s.chipY)
  }

  lemma {:induction false} CentreIs(s: Spec, p: Point, cols: int, rows: int)
    ensures CentreX(EngineOf(s), p.x, cols) == Across(s, p.x, cols)
    ensures CentreY(EngineOf(s), p.y, rows) == Up(s, p.y, rows)
  {
    var e := EngineOf(s);
    assert e.chipX == Pitch(s.chipX) && e.chipY == Pitch(s.chipY) && e.offsetX == s.offsetX && e.offsetY == s.offsetY;
    hide EngineOf, Pitch;
    assert FromMiddle(p.x, cols, e.chipX) == (p.x as real - (cols - 1) as real / 2.0) * e.chipX;
    assert FromMiddle(p.y, rows, e.chipY) == (p.y as real - (rows - 1) as real / 2.0) * e.chipY;
  }

  function Pitch(x: real): real { if x < 0.1 then 0.1 else x }

  /** The rectangle around (x, y) lies in the circle around the middle. */
  predicate Within(x: real, y: real, w: real, h: real, radius: real) {
    && Square(x + w / 2.0) + Square(y + h / 2.0) <= Square(radius)
    && Square(x + w / 2.0) + Square(y - h / 2.0) <= Square(radius)
    && Square(x - w / 2.0) + Square(y + h / 2.0) <= Square(radius)
    && Square(x - w / 2.0) + Square(y - h / 2.0) <= Square(radius)
  }

  lemma {:induction false} CornersAreWithin(x: real, y: real, w: real, h: real, radius: real)
    ensures CornersIn(x, y, w / 2.0, h / 2.0, radius) == Within(x, y, w, h, radius)
  {
    hide Square;
  }

  lemma {:induction false} MirroredCell(i: int, n: int, chip: real)
    ensures FromMiddle(n - 1 - i, n, chip) == -FromMiddle(i, n, chip)
  {
    var half := (n - 1) as real / 2.0;
    assert (n - 1 - i) as real == (n - 1) as real - i as real;
    assert (n - 1 - i) as real - half == -(i as real - half);
  }

  lemma {:induction false} SquareFlips(x: real)
    ensures Square(-x) == Square(x)
  {
  }

  /** The four corners of a chip and of its mirror image are equally far out. */
  lemma {:induction false} CornersFlip(x: real, y: real, w: real, h: real, radius: real)
    ensures CornersIn(-x, y, w, h, radius) == CornersIn(x, y, w, h, radius)
    ensures CornersIn(x, -y, w, h, radius) == CornersIn(x, y, w, h, radius)
  {
    SquareFlips(x - w);
    SquareFlips(x + w);
    SquareFlips(y - h);
    SquareFlips(y + h);
    assert -x - w == -(x + w) && -x + w == -(x - w) && -y - h == -(y + h) && -y + h == -(y - h);
    hide Square;
  }

  lemma {:induction false} CornersSwap(x: real, y: real, w: real, h: real, radius: real)
    ensures CornersIn(y, x, h, w, radius) == CornersIn(x, y, w, h, radius)
  {
    hide Square;
  }

  /** One of the eight images of a point under the turns and mirrors of the square. */
  predicate Image(x: real, y: real, u: real, v: real, swapped: bool) {
    if swapped then (u == y || u == -y) && (v == x || v == -x) else (u == x || u == -x) && (v == y || v == -y)
  }

  lemma {:induction false} ImagesAgree(x: real, y: real, u: real, v: real, swapped: bool, w: real, h: real,
                                       radius: real)
    requires Image(x, y, u, v, swapped)
    ensures CornersIn(u, v, if swapped then h else w, if swapped then w else h, radius) == CornersIn(x, y, w, h, radius)
    ensures Square(u) + Square(v) == Square(x) + Square(y)
  {
    SquareFlips(x);
    SquareFlips(y);
    CornersFlip(x, y, w, h, radius);
    CornersFlip(-x, y, w, h, radius);
    CornersSwap(x, y, w, h, radius);
    CornersSwap(-x, y, w, h, radius);
    CornersSwap(x, -y, w, h, radius);
    CornersSwap(-x, -y, w, h, radius);
    hide Square, CornersIn;
  }

  /** The engine's millimetres at a frame's cell are an image of the raw parameters' at the cell's die. */
  lemma {:induction false} CentresAreImages(f: Frame, s: Spec, cell: Point)
    requires SideReadAlike(f) || s.offsetX == 0.0
    ensures var e, raw, p := EngineOf(FrameSpec(f, s)), EngineOf(s), CellToPhysical(f, cell);
            Image(CentreX(raw, p.x, f.cols), CentreY(raw, p.y, f.rows),
                  CentreX(e, cell.x, VisualCols(f)), CentreY(e, cell.y, VisualRows(f)), Sideways(f))
  {
    hide Lower, FromMiddle;
    var raw := EngineOf(s);
    MirroredCell(cell.x, f.cols, raw.chipX);
    MirroredCell(cell.y, f.cols, raw.chipX);
    MirroredCell(cell.x, f.rows, raw.chipY);
    MirroredCell(cell.y, f.rows, raw.chipY);
  }

  /** Inside the wafer or not does not depend on the frame: every grid, pitch, offset, margin, rotation and side, as
      long as the side is spelled so that both readers agree, or there is no offset for them to disagree on. */
  lemma {:induction false} InsideIsFrameFree(f: Frame, s: Spec, cell: Point)
    requires SideReadAlike(f) || s.offsetX == 0.0
    ensures CellInside(EngineOf(FrameSpec(f, s)), cell, VisualCols(f), VisualRows(f))
        <==> CellInside(EngineOf(s), CellToPhysical(f, cell), f.cols, f.rows)
  {
    var e, raw, p := EngineOf(FrameSpec(f, s)), EngineOf(s), CellToPhysical(f, cell);
    CentresAreImages(f, s, cell);
    ImagesAgree(CentreX(raw, p.x, f.cols), CentreY(raw, p.y, f.rows),
                CentreX(e, cell.x, VisualCols(f)), CentreY(e, cell.y, VisualRows(f)), Sideways(f),
                raw.chipX / 2.0, raw.chipY / 2.0, raw.radius);
    hide Lower, CornersIn, CentreX, CentreY, CellToPhysical;
  }

  /** The frame's norm at a cell and the raw parameters' at its die. */
  function FrameNorm(f: Frame, s: Spec, cell: Point): real {
    Norm(EngineOf(FrameSpec(f, s)), cell, VisualCols(f), VisualRows(f))
  }

  function DieNorm(f: Frame, s: Spec, cell: Point): real { Norm(EngineOf(s), CellToPhysical(f, cell), f.cols, f.rows) }

  lemma {:induction false} NormsAgree(f: Frame, s: Spec, cell: Point)
    requires SideReadAlike(f) || s.offsetX == 0.0
    ensures FrameNorm(f, s, cell) == DieNorm(f, s, cell)
  {
    var e, raw, p := EngineOf(FrameSpec(f, s)), EngineOf(s), CellToPhysical(f, cell);
    CentresAreImages(f, s, cell);
    ImagesAgree(CentreX(raw, p.x, f.cols), CentreY(raw, p.y, f.rows),
                CentreX(e, cell.x, VisualCols(f)), CentreY(e, cell.y, VisualRows(f)), Sideways(f), 0.0, 0.0, 0.0);
    hide Lower, CentreX, CentreY, CellToPhysical, FrameSpec, EngineOf;
  }

  /** The same frame with its side spelled the way both readers agree on. */
  function Respelled(f: Frame): Frame { f.(side := if IsBack(f) then "back" else "front") }

  /** The offset counted the other way. */
  function Turned(s: Spec): Spec { s.(offsetX := -s.offsetX) }

  /** A side the readers disagree on is a frame read right with the offset turned. */
  lemma {:induction false} MisreadIsTurned(f: Frame, s: Spec, cell: Point)
    requires !SideReadAlike(f)
    ensures FrameNorm(f, s, cell) == DieNorm(f, Turned(s), cell)
  {
    SpelledAlike(f);
    assert FrameSpec(f, s) == FrameSpec(Respelled(f), Turned(s)) by { hide Lower; }
    assert CellToPhysical(Respelled(f), cell) == CellToPhysical(f, cell) by { hide Lower; }
    NormsAgree(Respelled(f), Turned(s), cell);
    hide Lower, CellToPhysical, FrameSpec, EngineOf, Norm;
  }

  /** The norms agree at a cell exactly when the sides are read alike, there is no offset, or the die is on the middle
      column of the physical grid. */
  lemma {:induction false} NormIsFrameFreeExactly(f: Frame, s: Spec, cell: Point)
    ensures FrameNorm(f, s, cell) == DieNorm(f, s, cell)
        <==> (SideReadAlike(f) || s.offsetX == 0.0 || 2 * CellToPhysical(f, cell).x == f.cols - 1)
  {
    hide Lower, CellToPhysical, FrameSpec;
    if SideReadAlike(f) || s.offsetX == 0.0 {
      NormsAgree(f, s, cell);
    } else {
      MisreadIsTurned(f, s, cell);
      hide FrameNorm, SideReadAlike;
      var p := CellToPhysical(f, cell);
      OffsetTells(FromMiddle(p.x, f.cols, EngineOf(s).chipX), s.offsetX);
      MiddleColumn(p.x, f.cols, EngineOf(s).chipX);
      TurnedNorms(f, s, cell);
    }
  }

  lemma {:induction false} TurnedNorms(f: Frame, s: Spec, cell: Point)
    ensures var m := FromMiddle(CellToPhysical(f, cell).x, f.cols, EngineOf(s).chipX);
            DieNorm(f, s, cell) == DieNorm(f, Turned(s), cell) <==> Square(m - s.offsetX) == Square(m + s.offsetX)
  {
    hide Lower, CellToPhysical, FromMiddle, Square;
    var m := FromMiddle(CellToPhysical(f, cell).x, f.cols, EngineOf(s).chipX);
    assert m + -s.offsetX == m - s.offsetX;
  }

  lemma {:induction false} SpelledAlike(f: Frame)
    ensures var g := f.(side := if IsBack(f) then "back" else "front");
            SideReadAlike(g) && IsBack(g) == IsBack(f)
  {
    assert Lower("back") == "back" && Lower("front") != "back";
  }

  lemma {:induction false} OffsetTells(m: real, o: real)
    requires o != 0.0
    ensures Square(m - o) == Square(m + o) <==> m == 0.0
  {
    assert Square(m + o) - Square(m - o) == 4.0 * (m * o);
    if m != 0.0 { assert m * o != 0.0; }
  }

  lemma {:induction false} Scaled(x: real, c: real)
    requires c > 0.0
    ensures x * c == 0.0 <==> x == 0.0
  {
    if x > 0.0 { assert x * c > 0.0; } else if x < 0.0 { assert x * c < 0.0; }
  }

  lemma {:induction false} MiddleColumn(i: int, n: int, chip: real)
    requires chip > 0.0
    ensures FromMiddle(i, n, chip) == 0.0 <==> 2 * i == n - 1
  {
    var away := i as real - (n - 1) as real / 2.0;
    Scaled(away, chip);
    assert FromMiddle(i, n, chip) == away * chip;
    HalfWay(i, n);
  }

  lemma {:induction false} HalfWay(i: int, n: int)
    ensures i as real - (n - 1) as real / 2.0 == 0.0 <==> 2 * i == n - 1
  {
    if i as real - (n - 1) as real / 2.0 == 0.0 { assert (2 * i) as real == (n - 1) as real; }
  }

  const CAPITAL := Frame(3, 1, 1, 1, 0, "Back", false)
  const SHIFTED := Spec(6.0, 1.0, 1.0, 2.0, 0.0, 0.0)

  /** A side spelled «Back» is turned over by the transformer and not by the parameters: with an offset the same die is
      inside in one and outside in the other. */
  lemma {:induction false} CapitalBackTellsFramesApart()
    ensures CellInside(EngineOf(FrameSpec(CAPITAL, SHIFTED)), Point(0, 0), VisualCols(CAPITAL), VisualRows(CAPITAL))
    ensures !CellInside(EngineOf(SHIFTED), CellToPhysical(CAPITAL, Point(0, 0)), CAPITAL.cols, CAPITAL.rows)
  {
    CapitalIsBack();
    ShiftedEngine();
    hide Lower, EngineOf, CellInside;
    assert FrameSpec(CAPITAL, SHIFTED) == SHIFTED;
    assert CellToPhysical(CAPITAL, Point(0, 0)) == Point(2, 0);
  }

  lemma {:induction false} ShiftedEngine()
    ensures CellInside(EngineOf(SHIFTED), Point(0, 0), 3, 1) && !CellInside(EngineOf(SHIFTED), Point(2, 0), 3, 1)
  {
    hide EngineOf, CentreX, CentreY, CornersIn;
    EngineIs();
    ShiftedCentres(EngineOf(SHIFTED));
    ShiftedCorners();
  }

  lemma {:induction false} EngineIs()
    ensures EngineOf(SHIFTED) == Engine(1.0, 1.0, 2.0, 0.0, 3.0)
  {
  }

  lemma {:induction false} ShiftedCentres(e: Engine)
    requires e == Engine(1.0, 1.0, 2.0, 0.0, 3.0)
    ensures CentreX(e, 0, 3) == 1.0 && CentreX(e, 2, 3) == 3.0 && CentreY(e, 0, 1) == 0.0
  {
  }

  lemma {:induction false} ShiftedCorners()
    ensures CornersIn(1.0, 0.0, 0.5, 0.5, 3.0) && !CornersIn(3.0, 0.0, 0.5, 0.5, 3.0)
  {
  }

  lemma {:induction false} CapitalIsBack()
    ensures IsBack(CAPITAL) && !SideReadAlike(CAPITAL)
  {
    assert LowerChar('B') == 'b';
    assert Lower("ack") == "ack";
    assert Lower("Back") == "back";
  }
}
