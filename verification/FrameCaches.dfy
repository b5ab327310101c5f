/** A map's record, the box its coordinates are counted from, and the two caches keyed by the frame's axes
    (map_overlay.frame_axes, _frame_transformer, origin_box_with_basis). */
module FrameCaches {
  import opened Syntax
  import opened Frames
  import opened Wafer

  datatype Grid = Grid(cols: int, rows: int, startX: int, startY: int)

  /** The six phys_ values: one of them missing or blank, one unreadable, or all read. */
  datatype Phys = PhysAbsent | PhysUnparsable | PhysRead(spec: Spec)

  /** valid_die_ref as it is stored: not there, a text, an object naming a table and a key, anything else. */
  datatype RawRef = RefAbsent | RefText(text: string)
    | RefObject(table: Option<string>, mapId: Option<string>) | RefOther

  datatype Meta = Meta(rotation: int, side: string, invertY: bool, grid: Option<Grid>, phys: Phys,
                       assumed: bool, confirmed: bool, autoRegistered: bool, ref: RawRef)

  datatype Geometry = Declared | Assumed | Confirmed | AutoRegistered | Absent | Unparsable

  /** `geometry_declaration`: the marks before the values. */
  function GeometryOf(m: Meta): Geometry {
    if m.assumed then Assumed else if m.confirmed then Confirmed else if m.autoRegistered then AutoRegistered
    else match m.phys case PhysAbsent => Absent case PhysUnparsable => Unparsable case PhysRead(_) => Declared
  }

  /** `geometry_computable` has nothing to say against it. */
  predicate Computable(m: Meta) { var g := GeometryOf(m); g == Declared || g == Assumed || g == Confirmed }

  function Signature(m: Meta): Option<Spec> { match m.phys case PhysRead(s) => Some(s) case _ => None }

  datatype Axes = Axes(rotation: int, side: string, invertY: bool, startX: int, startY: int, size: Option<Point>,
                       phys: Option<Spec>)

  /** `frame_axes` */
  function FrameAxes(m: Meta): Axes {
    match m.grid
    case None => Axes(m.rotation, m.side, m.invertY, 1, 1, None, Signature(m))
    case Some(g) => Axes(m.rotation, m.side, m.invertY, g.startX, g.startY, Some(Point(g.cols, g.rows)), Signature(m))
  }

  function FrameOf(m: Meta): Frame
    requires m.grid.Some?
  {
    var g := m.grid.value;
    Frame(g.cols, g.rows, g.startX, g.startY, m.rotation, m.side, m.invertY)
  }

  // ---- the extents -------------------------------------------------------------------------------------------------

  ghost function Least(s: set<int>): (m: int)
    requires s != {}
    ensures m in s && forall x :: x in s ==> m <= x
  {
    assert exists x :: x in s by { assert (forall x :: x !in s) ==> s == {}; }
    var x :| x in s;
    assert s == s - {x} + {x};
    if s == {x} then x else var rest := Least(s - {x}); if x < rest then x else rest
  }

  ghost function Most(s: set<int>): (m: int)
    requires s != {}
    ensures m in s && forall x :: x in s ==> x <= m
  {
    assert exists x :: x in s by { assert (forall x :: x !in s) ==> s == {}; }
    var x :| x in s;
    assert s == s - {x} + {x};
    if s == {x} then x else var rest := Most(s - {x}); if x > rest then x else rest
  }

  ghost function Columns(cells: set<Point>): set<int> { set p | p in cells :: p.x }
  ghost function Rows(cells: set<Point>): set<int> { set p | p in cells :: p.y }

  /** The box holds every cell and each of its four sides touches one. */
  ghost predicate Tight(b: Box, cells: set<Point>) {
    && (forall p :: p in cells ==> b.minC <= p.x <= b.maxC && b.minR <= p.y <= b.maxR)
    && (exists p :: p in cells && p.x == b.minC) && (exists p :: p in cells && p.x == b.maxC)
    && (exists p :: p in cells && p.y == b.minR) && (exists p :: p in cells && p.y == b.maxR)
  }

  const SENTINEL := 9999

  ghost function LeastSoFar(s: set<int>): int { if s != {} && Least(s) < SENTINEL then Least(s) else SENTINEL }
  ghost function MostSoFar(s: set<int>): int { if s != {} && Most(s) > -SENTINEL then Most(s) else -SENTINEL }

  function Unset(x: int, sentinel: int): int { if x == sentinel then 0 else x }

  /** What `get_wafer_bounding_box` answers for the cells inside: 0 for every side its sentinel was not moved from. */
  ghost function CircleExtent(cells: set<Point>): Box {
    Box(Unset(LeastSoFar(Columns(cells)), SENTINEL), Unset(MostSoFar(Columns(cells)), -SENTINEL),
        Unset(LeastSoFar(Rows(cells)), SENTINEL), Unset(MostSoFar(Rows(cells)), -SENTINEL))
  }

  ghost function Extent(cells: set<Point>): Box
    requires cells != {}
  {
    ColumnsThere(cells);
    Box(Least(Columns(cells)), Most(Columns(cells)), Least(Rows(cells)), Most(Rows(cells)))
  }

  lemma {:induction false} ColumnsThere(cells: set<Point>)
    requires cells != {}
    ensures Columns(cells) != {} && Rows(cells) != {}
  {
    var p :| p in cells;
    assert p.x in Columns(cells) && p.y in Rows(cells);
  }

  lemma {:induction false} ExtentIsTight(cells: set<Point>)
    requires cells != {}
    ensures Tight(Extent(cells), cells)
  {
    ColumnsThere(cells);
    hide Least, Most;
    var b := Extent(cells);
    assert b.minC in Columns(cells) && b.maxC in Columns(cells) && b.minR in Rows(cells) && b.maxR in Rows(cells);
    forall p | p in cells ensures b.minC <= p.x <= b.maxC && b.minR <= p.y <= b.maxR {
      assert p.x in Columns(cells) && p.y in Rows(cells);
    }
  }

  lemma {:induction false} TightIsOne(b: Box, c: Box, cells: set<Point>)
    requires Tight(b, cells) && Tight(c, cells)
    ensures b == c
  {
  }

  /** The scan's box is the tight one exactly when some cell is left of and some cell is above the sentinel. */
  lemma {:induction false} CircleExtentTightExactly(cells: set<Point>)
    requires forall p :: p in cells ==> p.x >= 0 && p.y >= 0
    ensures Tight(CircleExtent(cells), cells)
        <==> ((exists p :: p in cells && p.x < SENTINEL) && (exists p :: p in cells && p.y < SENTINEL))
  {
    if cells == {} { return; }
    ColumnsThere(cells);
    ExtentIsTight(cells);
    hide Least, Most;
    var b, t := CircleExtent(cells), Extent(cells);
    assert t.maxC >= 0 && t.maxR >= 0;
    if exists p :: p in cells && p.x < SENTINEL && p.x >= 0 {
      assert b.minC == t.minC;
    }
    if exists p :: p in cells && p.y < SENTINEL && p.y >= 0 {
      assert b.minR == t.minR;
    }
  }

  /** A wafer of one die at the far end of a row of ten thousand. */
  const FAR := Engine(1.0, 1.0, -4999.5, 0.0, 1.0)

  /** Only the last die's corners are within the radius. */
  lemma {:induction false} FarIsOneCell()
    ensures FAR == EngineOf(Spec(2.0, 1.0, 1.0, -4999.5, 0.0, 0.0))
    ensures InsideCells(FAR, 10000, 1) == {Point(SENTINEL, 0)}
  {
    forall c | 0 <= c < 10000 ensures CellInside(FAR, Point(c, 0), 10000, 1) <==> c == SENTINEL { FarCell(c); }
    hide CellInside;
  }

  lemma {:induction false} FarCell(c: int)
    requires 0 <= c < 10000
    ensures CellInside(FAR, Point(c, 0), 10000, 1) <==> c == SENTINEL
  {
    hide CentreX, CentreY, CornersIn;
    FarCentre(c);
    FarCorners((c - SENTINEL) as real);
    assert CellInside(FAR, Point(c, 0), 10000, 1) == CornersIn((c - SENTINEL) as real, 0.0, 1.0 / 2.0, 1.0 / 2.0, 1.0);
  }

  lemma {:induction false} FarCentre(c: int)
    requires 0 <= c < 10000
    ensures CentreX(FAR, c, 10000) == (c - SENTINEL) as real && CentreY(FAR, 0, 1) == 0.0
  {
    assert (10000 - 1) as real / 2.0 == 4999.5;
    assert (c - SENTINEL) as real == c as real - 9999.0;
  }

  lemma {:induction false} FarCorners(x: real)
    requires x == 0.0 || x <= -1.0
    ensures CornersIn(x, 0.0, 0.5, 0.5, 1.0) <==> x == 0.0
  {
    assert Square(0.5) == 0.25 == Square(-0.5) && Square(1.0) == 1.0;
    if x <= -1.0 {
      FarOut(x - 0.5);
      hide Square;
    }
  }

  lemma {:induction false} FarOut(x: real)
    requires x <= -1.5
    ensures Square(x) >= 2.25
  {
    assert (x + 1.5) * (x - 1.5) >= 0.0;
  }

  /** The scan answers column 0 for its left side. */
  lemma {:induction false} FarCellIsNotTight()
    ensures CircleExtent(InsideCells(FAR, 10000, 1)) == Box(0, SENTINEL, 0, 0)
    ensures !Tight(CircleExtent(InsideCells(FAR, 10000, 1)), InsideCells(FAR, 10000, 1))
  {
    var cells := {Point(SENTINEL, 0)};
    FarIsOneCell();
    assert Point(SENTINEL, 0) in cells;
    assert Columns(cells) == {SENTINEL} && Rows(cells) == {0};
    CircleExtentTightExactly(cells);
    hide Tight, InsideCells;
  }

  // ---- the scans ---------------------------------------------------------------------------------------------------

  ghost function InsideCells(e: Engine, cols: int, rows: int): set<Point> {
    set c, r | 0 <= c < cols && 0 <= r < rows && CellInside(e, Point(c, r), cols, rows) :: Point(c, r)
  }

  ghost function MaskedCells(f: Frame, mask: set<Point>): set<Point> {
    set c, r | 0 <= c < VisualCols(f) && 0 <= r < VisualRows(f) && CellToPhysical(f, Point(c, r)) in mask :: Point(c, r)
  }

  ghost function CellSet(cells: seq<Point>): (s: set<Point>)
    ensures cells != [] ==> s != {}
  {
    var s := set p | p in cells;
    assert cells != [] ==> cells[0] in s;
    s
  }

  /** Before cell (c, r) in reading order. */
  predicate Before(p: Point, c: int, r: int) { p.y < r || (p.y == r && p.x < c) }

  ghost function Seen(cells: set<Point>, c: int, r: int): set<Point> { set p | p in cells && Before(p, c, r) }

  lemma {:induction false} LeastGrows(s: set<int>, x: int)
    ensures LeastSoFar(s + {x}) == if x < LeastSoFar(s) then x else LeastSoFar(s)
    ensures MostSoFar(s + {x}) == if x > MostSoFar(s) then x else MostSoFar(s)
  {
    var t := s + {x};
    assert x in t;
    hide Least, Most;
    if s != {} { assert Least(s) in t && Most(s) in t; }
  }

  lemma {:induction false} SeenGrows(cells: set<Point>, p: Point)
    ensures Seen(cells, p.x + 1, p.y) == if p in cells then Seen(cells, p.x, p.y) + {p} else Seen(cells, p.x, p.y)
  {
    forall q | q in Seen(cells, p.x + 1, p.y) && q !in Seen(cells, p.x, p.y) ensures q == p {
      assert q.x == p.x && q.y == p.y;
    }
  }

  lemma {:induction false} ExtentGrows(cells: set<Point>, p: Point)
    ensures Columns(cells + {p}) == Columns(cells) + {p.x} && Rows(cells + {p}) == Rows(cells) + {p.y}
  {
    assert p in cells + {p};
    forall q | q in cells ensures q.x in Columns(cells + {p}) && q.y in Rows(cells + {p}) { assert q in cells + {p}; }
  }

  /** `get_wafer_bounding_box`: every cell of the visual grid asked, row by row. */
  method BoundingBox(e: Engine, cols: int, rows: int) returns (b: Box)
    ensures b == CircleExtent(InsideCells(e, cols, rows))
  {
    hide Least, Most, CellInside, LeastSoFar, MostSoFar;
    var minC, maxC, minR, maxR := SENTINEL, -SENTINEL, SENTINEL, -SENTINEL;
    ghost var inside := InsideCells(e, cols, rows);
    ghost var seen := {};
    NothingSeen();
    var r := 0;
    while r < rows
      invariant 0 <= r
      invariant seen == Seen(inside, 0, r)
      invariant minC == LeastSoFar(Columns(seen)) && maxC == MostSoFar(Columns(seen))
      invariant minR == LeastSoFar(Rows(seen)) && maxR == MostSoFar(Rows(seen))
    {
      var c := 0;
      while c < cols
        invariant 0 <= c
        invariant seen == Seen(inside, c, r)
        invariant minC == LeastSoFar(Columns(seen)) && maxC == MostSoFar(Columns(seen))
        invariant minR == LeastSoFar(Rows(seen)) && maxR == MostSoFar(Rows(seen))
      {
        SeenGrows(inside, Point(c, r));
        if CellInside(e, Point(c, r), cols, rows) {
          assert Point(c, r) in inside;
          ExtentGrows(seen, Point(c, r));
          LeastGrows(Columns(seen), c);
          LeastGrows(Rows(seen), r);
          seen := seen + {Point(c, r)};
          if c < minC { minC := c; }
          if c > maxC { maxC := c; }
          if r < minR { minR := r; }
          if r > maxR { maxR := r; }
        }
        c := c + 1;
      }
      RowDone(inside, c, r, cols);
      r := r + 1;
    }
    AllSeen(inside, r, rows);
    b := Box(Unset(minC, SENTINEL), Unset(maxC, -SENTINEL), Unset(minR, SENTINEL), Unset(maxR, -SENTINEL));
  }

  lemma {:induction false} NothingSeen()
    ensures LeastSoFar(Columns({})) == SENTINEL && MostSoFar(Columns({})) == -SENTINEL
    ensures LeastSoFar(Rows({})) == SENTINEL && MostSoFar(Rows({})) == -SENTINEL
  {
    assert Columns({}) == {} && Rows({}) == {};
  }

  lemma {:induction false} RowDone(cells: set<Point>, c: int, r: int, cols: int)
    requires c >= cols && forall p :: p in cells ==> 0 <= p.x < cols
    ensures Seen(cells, c, r) == Seen(cells, 0, r + 1)
  {
  }

  lemma {:induction false} AllSeen(cells: set<Point>, r: int, rows: int)
    requires r >= rows && forall p :: p in cells ==> p.y < rows
    ensures Seen(cells, 0, r) == cells
  {
  }

  /** The cells of a frame whose die is in the mask, in reading order. */
  method CellsOnMask(f: Frame, mask: set<Point>) returns (cells: seq<Point>)
    ensures CellSet(cells) == MaskedCells(f, mask)
  {
    hide CellToPhysical;
    cells := [];
    ghost var masked := MaskedCells(f, mask);
    var r := 0;
    while r < VisualRows(f)
      invariant 0 <= r && CellSet(cells) == Seen(masked, 0, r)
    {
      var c := 0;
      while c < VisualCols(f)
        invariant 0 <= c && CellSet(cells) == Seen(masked, c, r)
      {
        SeenGrows(masked, Point(c, r));
        if CellToPhysical(f, Point(c, r)) in mask {
          cells := cells + [Point(c, r)];
        }
        c := c + 1;
      }
      RowDone(masked, c, r, VisualCols(f));
      r := r + 1;
    }
    AllSeen(masked, r, VisualRows(f));
  }

  /** The least and the greatest column and row of a list of cells. */
  method ExtentOf(cells: seq<Point>) returns (b: Box)
    requires cells != []
    ensures b == Extent(CellSet(cells))
  {
    hide Least, Most;
    b := Box(cells[0].x, cells[0].x, cells[0].y, cells[0].y);
    for i := 1 to |cells|
      invariant Tight(b, CellSet(cells[..i]))
    {
      var p := cells[i];
      assert CellSet(cells[..i + 1]) == CellSet(cells[..i]) + {p};
      TightGrows(b, CellSet(cells[..i]), p);
      b := Box(if p.x < b.minC then p.x else b.minC, if p.x > b.maxC then p.x else b.maxC,
               if p.y < b.minR then p.y else b.minR, if p.y > b.maxR then p.y else b.maxR);
    }
    assert cells[..|cells|] == cells;
    assert cells[0] in CellSet(cells);
    ExtentIsTight(CellSet(cells));
    TightIsOne(b, Extent(CellSet(cells)), CellSet(cells));
  }

  lemma {:induction false} TightGrows(b: Box, cells: set<Point>, p: Point)
    requires Tight(b, cells)
    ensures Tight(Box(if p.x < b.minC then p.x else b.minC, if p.x > b.maxC then p.x else b.maxC,
                      if p.y < b.minR then p.y else b.minR, if p.y > b.maxR then p.y else b.maxR), cells + {p})
  {
    var west :| west in cells && west.x == b.minC;
    var east :| east in cells && east.x == b.maxC;
    var north :| north in cells && north.y == b.minR;
    var south :| south in cells && south.y == b.maxR;
    var all := cells + {p};
    assert west in all && east in all && north in all && south in all && p in all;
  }

  // ---- the transformer and the origin box, uncached ----------------------------------------------------------------

  /** What the coordinates are turned with: the frame, the engine on it and the box they count from. */
  datatype Transformer = Transformer(frame: Frame, engine: Engine, box: Box)

  ghost function CircleBox(f: Frame, e: Engine): Box { CircleExtent(InsideCells(e, VisualCols(f), VisualRows(f))) }

  /** A map's transformer on a box given or on its circle's; nothing where the record is not there (the source
      raises). */
  ghost function Built(m: Meta, box: Option<Box>): Option<Transformer>
    requires m.grid.Some?
  {
    match Signature(m)
    case None => None
    case Some(spec) =>
      var e := EngineOf(FrameSpec(FrameOf(m), spec));
      Some(Transformer(FrameOf(m), e, match box case Some(b) => b case None => CircleBox(FrameOf(m), e)))
  }

  /** Everything the transformer is built from is in the axes. */
  lemma {:induction false} AxesBuild(m: Meta, n: Meta, box: Option<Box>)
    requires FrameAxes(m) == FrameAxes(n) && m.grid.Some?
    ensures n.grid.Some? && FrameOf(n) == FrameOf(m) && Built(n, box) == Built(m, box)
  {
    hide FrameSpec, EngineOf, CircleBox;
  }

  datatype Basis = OnMask | OnCircle | OffGrid
  datatype Origin = NoGrid | NoPhys | At(box: Box, basis: Basis)

  /** `origin_box_with_basis`, every branch: no grid, no record, no mask, a mask off the grid, a mask. */
  ghost function OriginOf(m: Meta, mask: set<Point>): Origin {
    if m.grid.None? then NoGrid
    else
      match Built(m, None)
      case None => NoPhys
      case Some(t) =>
        if mask == {} then At(t.box, OnCircle)
        else if MaskedCells(t.frame, mask) == {} then At(t.box, OffGrid)
        else At(Extent(MaskedCells(t.frame, mask)), OnMask)
  }

  /** The box is tight around the cells of the mask where a die of it is on the grid, and the circle's else; it stands
      on the circle exactly where there is no mask. */
  lemma {:induction false} OriginStands(m: Meta, mask: set<Point>)
    requires m.grid.Some?
    ensures var o, cells := OriginOf(m, mask), MaskedCells(FrameOf(m), mask);
            && (o.NoPhys? <==> !m.phys.PhysRead?)
            && (o.At? ==> (o.basis.OnCircle? <==> mask == {}))
            && (o.At? && cells != {} && mask != {} ==> o.basis.OnMask? && Tight(o.box, cells))
            && (o.At? && (cells == {} || mask == {}) ==> !o.basis.OnMask? && Some(o.box) == CircleOf(m))
  {
    if MaskedCells(FrameOf(m), mask) != {} { ExtentIsTight(MaskedCells(FrameOf(m), mask)); }
    hide Tight, Extent, CircleExtent, InsideCells, FrameSpec, EngineOf, MaskedCells;
  }

  ghost function CircleOf(m: Meta): Option<Box>
    requires m.grid.Some?
  {
    if m.phys.PhysRead? then
      var f := FrameOf(m);
      Some(CircleExtent(InsideCells(EngineOf(FrameSpec(f, m.phys.spec)), VisualCols(f), VisualRows(f))))
    else None
  }

  lemma {:induction false} AxesOrigin(m: Meta, n: Meta, mask: set<Point>)
    requires FrameAxes(m) == FrameAxes(n)
    ensures OriginOf(m, mask) == OriginOf(n, mask)
  {
    hide Built, Extent, MaskedCells;
    if m.grid.Some? { AxesBuild(m, n, None); }
  }

  /** What the box stands on does not depend on how the frame is turned: the mask lies in the physical grid, and every
      frame of one grid covers the same dies. */
  lemma {:induction false} BasisIsFrameFree(m: Meta, n: Meta, mask: set<Point>)
    requires m.grid.Some? && n.grid.Some?
    requires m.grid.value.cols == n.grid.value.cols && m.grid.value.rows == n.grid.value.rows
    requires OriginOf(m, mask).At? && OriginOf(n, mask).At?
    ensures OriginOf(m, mask).basis == OriginOf(n, mask).basis
    ensures OriginOf(m, mask).basis == OnMask
        <==> exists p :: p in mask && Inside(m.grid.value.cols, m.grid.value.rows, p)
  {
    hide Extent, CircleBox, FrameSpec, EngineOf, MaskedCells;
    MaskOnGrid(FrameOf(m), mask);
    MaskOnGrid(FrameOf(n), mask);
  }

  lemma {:induction false} MaskOnGrid(f: Frame, mask: set<Point>)
    ensures MaskedCells(f, mask) != {} <==> exists p :: p in mask && Inside(f.cols, f.rows, p)
  {
    hide CellToPhysical, PhysicalToCell, VisualCols, VisualRows;
    if exists p :: p in mask && Inside(f.cols, f.rows, p) {
      var p :| p in mask && Inside(f.cols, f.rows, p);
      var cell := PhysicalToCell(f, p);
      CellThereAndBack(f, p);
      GridOntoGrid(f, cell);
      assert Point(cell.x, cell.y) in MaskedCells(f, mask);
    }
    if MaskedCells(f, mask) != {} {
      var cell :| cell in MaskedCells(f, mask);
      GridOntoGrid(f, cell);
      assert CellToPhysical(f, cell) in mask;
    }
  }

  // ---- one record to another's frame -------------------------------------------------------------------------------

  /** `resolve_map_transform`: one record to the other's frame. */
  datatype Passage = Straight | NoGround | NoRecord | Moved(source: Transformer, target: Transformer)

  /** The refusals of `make_frame_transform` before any record is asked for its ground. */
  predicate SameGrid(s: Meta, t: Meta) {
    s.grid.Some? && t.grid.Some? && s.grid.value.cols == t.grid.value.cols && s.grid.value.rows == t.grid.value.rows
  }

  ghost function PassageOf(s: Meta, t: Meta): Passage {
    if FrameAxes(s) == FrameAxes(t) then Straight
    else if !SameGrid(s, t) || !Computable(s) || !Computable(t) then NoGround
    else if Built(s, None).None? || Built(t, None).None? then NoRecord
    else Moved(Built(s, None).value, Built(t, None).value)
  }

  function Carried(p: Passage, v: Point): Point {
    match p
    case Moved(s, t) => Transform(s.frame, s.box, t.frame, t.box, v)
    case _ => v
  }

  /** The die a stored coordinate of a map is, in the map's own frame and box; none where its record is not there. */
  ghost function DieOf(m: Meta, v: Point): Option<Point>
    requires m.grid.Some?
  {
    match Signature(m)
    case None => None
    case Some(spec) =>
      var g := m.grid.value;
      var f := Frame(g.cols, g.rows, g.startX, g.startY, m.rotation, m.side, m.invertY);
      Some(VisualToPhysical(f, CircleBox(f, EngineOf(FrameSpec(f, spec))), v))
  }

  /** Both coordinates are there and one die - or, where neither map has a record to count dies by, one coordinate. */
  ghost predicate SameDie(s: Meta, v: Point, t: Meta, w: Point) {
    if s.grid.None? || t.grid.None? then v == w
    else if DieOf(s, v).None? || DieOf(t, w).None? then DieOf(s, v).None? && DieOf(t, w).None? && v == w
    else DieOf(s, v) == DieOf(t, w)
  }

  /** A passage that leads anywhere leads a coordinate of the source to the coordinate of the same die in the target,
      and to no other. */
  lemma {:induction false} CarriedIsTheSameDie(s: Meta, t: Meta, v: Point, w: Point)
    requires PassageOf(s, t).Straight? || PassageOf(s, t).Moved?
    ensures SameDie(s, v, t, w) <==> w == Carried(PassageOf(s, t), v)
  {
    if s.grid.Some? && t.grid.Some? {
      if PassageOf(s, t).Straight? { AxesBuild(s, t, None); }
      DieIsBuilt(s, v);
      DieIsBuilt(t, w);
      hide FrameSpec, EngineOf, CircleBox, FrameAxes, VisualToPhysical, PhysicalToVisual, DieOf, Computable;
      if Built(s, None).Some? && Built(t, None).Some? {
        var a, b := Built(s, None).value, Built(t, None).value;
        VisualThereAndBack(a.frame, a.box, v);
        VisualThereAndBack(a.frame, a.box, w);
        VisualThereAndBack(b.frame, b.box, w);
        VisualThereAndBack(b.frame, b.box, VisualToPhysical(a.frame, a.box, v));
      }
    }
  }

  lemma {:induction false} DieIsBuilt(m: Meta, v: Point)
    requires m.grid.Some?
    ensures DieOf(m, v)
         == match Built(m, None) case None => None case Some(t) => Some(VisualToPhysical(t.frame, t.box, v))
  {
    hide FrameSpec, EngineOf, CircleBox;
  }

  /** Someone stands for a map's geometry: it is assumed or confirmed, or declared - readable and not filled in by
      registering. */
  predicate StoodFor(m: Meta) { m.assumed || m.confirmed || (!m.autoRegistered && m.phys.PhysRead?) }

  /** There is ground to move a coordinate on exactly where the axes are the same, or both maps are of one grid and both
      geometries are stood for; a map without a readable record then breaks it. */
  lemma {:induction false} GroundExactly(s: Meta, t: Meta)
    ensures var p, alike := PassageOf(s, t), FrameAxes(s) == FrameAxes(t);
            var grounded := s.grid.Some? && t.grid.Some? && s.grid.value.cols == t.grid.value.cols
                            && s.grid.value.rows == t.grid.value.rows && StoodFor(s) && StoodFor(t);
            && (p.Straight? <==> alike)
            && (p.NoGround? <==> !alike && !grounded)
            && (p.NoRecord? <==> !alike && grounded && !(s.phys.PhysRead? && t.phys.PhysRead?))
            && (p.Moved? <==> !alike && grounded && s.phys.PhysRead? && t.phys.PhysRead?)
  {
    hide CircleBox, FrameSpec, EngineOf;
  }

  lemma {:induction false} PassageNeedsGround(s: Meta, t: Meta, u: Meta)
    requires FrameAxes(t) == FrameAxes(u)
    ensures PassageOf(s, t) == PassageOf(s, u)
        <==> (Computable(t) == Computable(u) || FrameAxes(s) == FrameAxes(t) || !SameGrid(s, t) || !Computable(s))
    ensures PassageOf(s, t) != PassageOf(s, u) ==> PassageOf(s, t) == NoGround || PassageOf(s, u) == NoGround
  {
    hide Built, Computable;
    assert SameGrid(s, t) == SameGrid(s, u);
    if t.grid.Some? { AxesBuild(t, u, None); }
    hide FrameAxes;
  }

  // ---- the two caches ----------------------------------------------------------------------------------------------

  datatype TransformerKey = TransformerKey(axes: Axes, box: Option<Box>)
  datatype BoxKey = BoxKey(axes: Axes, mask: set<Point>)

  const TRANSFORMERS_MAX := 512
  const BOXES_MAX := 256

  /** What is held agrees with what any map of those axes would be built. */
  class Caches {
    var transformers: map<TransformerKey, Transformer>
    var boxes: map<BoxKey, Box>

    ghost predicate TransformersAgree()
      reads this
    {
      forall m: Meta, box {:trigger TransformerKey(FrameAxes(m), box)} ::
        m.grid.Some? && TransformerKey(FrameAxes(m), box) in transformers ==>
          Built(m, box) == Some(transformers[TransformerKey(FrameAxes(m), box)])
    }

    ghost predicate BoxesAgree()
      reads this
    {
      forall m: Meta, mask {:trigger BoxKey(FrameAxes(m), mask)} ::
        m.grid.Some? && mask != {} && BoxKey(FrameAxes(m), mask) in boxes ==>
          OriginOf(m, mask) == At(boxes[BoxKey(FrameAxes(m), mask)], OnMask)
    }

    ghost predicate Valid()
      reads this
    {
      TransformersAgree() && BoxesAgree() && |transformers| <= TRANSFORMERS_MAX && |boxes| <= BOXES_MAX
    }

    constructor ()
      ensures Valid()
    {
      transformers, boxes := map[], map[];
    }

    /** `_frame_transformer` */
    method FrameTransformer(m: Meta, box: Option<Box>) returns (t: Option<Transformer>)
      requires Valid() && m.grid.Some?
      modifies this
      ensures Valid() && boxes == old(boxes)
      ensures t == Built(m, box)
    {
      hide FrameSpec, EngineOf, OriginOf, Extent, CircleExtent, InsideCells, FrameAxes, FrameOf;
      var key := TransformerKey(FrameAxes(m), box);
      if key in transformers {
        return Some(transformers[key]);
      }
      if Signature(m).None? {
        return None;
      }
      var e := EngineOf(FrameSpec(FrameOf(m), Signature(m).value));
      var b;
      match box {
        case Some(given) => b := given;
        case None => b := BoundingBox(e, VisualCols(FrameOf(m)), VisualRows(FrameOf(m)));
      }
      if |transformers| >= TRANSFORMERS_MAX {
        transformers := map[];
      }
      t := Some(Transformer(FrameOf(m), e, b));
      assert t == Built(m, box);
      label before:
      transformers := transformers[key := t.value];
      forall n: Meta, given | n.grid.Some? && TransformerKey(FrameAxes(n), given) in transformers
        ensures Built(n, given) == Some(transformers[TransformerKey(FrameAxes(n), given)])
      {
        if TransformerKey(FrameAxes(n), given) == key { AxesBuild(m, n, box); }
      }
    }

    /** `origin_box_with_basis` */
    method OriginBox(m: Meta, mask: set<Point>) returns (o: Origin)
      requires Valid()
      modifies this
      ensures Valid()
      ensures o == OriginOf(m, mask)
    {
      hide FrameSpec, EngineOf, Extent, Built, FrameAxes, MaskedCells;
      if m.grid.None? {
        return NoGrid;
      }
      var t := FrameTransformer(m, None);
      if t.None? {
        return NoPhys;
      }
      if mask == {} {
        return At(t.value.box, OnCircle);
      }
      var key := BoxKey(FrameAxes(m), mask);
      if key in boxes {
        return At(boxes[key], OnMask);
      }
      var cells := CellsOnMask(t.value.frame, mask);
      if cells == [] {
        return At(t.value.box, OffGrid);
      }
      var box := ExtentOf(cells);
      if |boxes| >= BOXES_MAX {
        boxes := map[];
      }
      o := At(box, OnMask);
      assert o == OriginOf(m, mask);
      boxes := boxes[key := box];
      forall n: Meta, other | n.grid.Some? && other != {} && BoxKey(FrameAxes(n), other) in boxes
        ensures OriginOf(n, other) == At(boxes[BoxKey(FrameAxes(n), other)], OnMask)
      {
        if BoxKey(FrameAxes(n), other) == key { AxesOrigin(m, n, mask); }
      }
    }

    /** `resolve_map_transform` */
    method Bridge(s: Meta, t: Meta) returns (p: Passage)
      requires Valid()
      modifies this
      ensures Valid() && p == PassageOf(s, t)
    {
      hide Built, Computable, FrameAxes;
      if FrameAxes(s) == FrameAxes(t) {
        return Straight;
      }
      if !SameGrid(s, t) || !Computable(s) || !Computable(t) {
        return NoGround;
      }
      var source := FrameTransformer(s, None);
      if source.None? {
        return NoRecord;
      }
      var target := FrameTransformer(t, None);
      if target.None? {
        return NoRecord;
      }
      p := Moved(source.value, target.value);
    }
  }
}
