/** The dt_log -> dt_map derivation: three pieces of evidence or a named reason a row was held back
    (dt_map_derivation.resolve_identity_sources, resolve_frame, HoldBack, derive_cells). */
module Derivation {
  import opened Syntax
  import opened Words
  import opened Frames
  import opened FrameCaches
  import MapKeys

  datatype Value = Null | Text(text: string) | Num(n: real)

  type Row = map<string, Value>

  /** A column the row does not carry is read as nothing. */
  function Pick(row: Row, col: string): Value { if col in row then row[col] else Null }
  function PickAll(row: Row, cols: seq<string>): seq<Value> {
    seq(|cols|, i requires 0 <= i < |cols| => Pick(row, cols[i]))
  }

  predicate Blank(v: Value) { v == Null || (v.Text? && MapKeys.Trim(v.text) == "") }

  // ---- the declarations --------------------------------------------------------------------------------------------

  const CONFIRMED_SUFFIX := "_confirmed"
  const FRAME_COLUMN := "dt_frame"

  /** Where an identity column is filled from: the exposed column of its name, else its confirmed twin, else nothing -
      the stored column of the same name is never an answer. */
  function SourceOf(exposed: set<string>, col: string): Option<string> {
    if col in exposed then Some(col)
    else if col + CONFIRMED_SUFFIX in exposed then Some(col + CONFIRMED_SUFFIX)
    else None
  }

  /** `resolve_identity_sources`: a loop that fills the mapping and names what it could not fill. */
  method ResolveIdentitySources(identity: seq<string>, exposed: set<string>)
    returns (sources: map<string, string>, unresolved: seq<string>)
    ensures unresolved == [] <==> forall col :: col in identity ==> SourceOf(exposed, col).Some?
    ensures unresolved == [] ==> sources.Keys == (set col | col in identity)
    ensures forall col :: col in sources ==> SourceOf(exposed, col) == Some(sources[col]) && sources[col] in exposed
    ensures forall col :: col in unresolved <==> col in identity && col !in sources
  {
    sources, unresolved := map[], [];
    for i := 0 to |identity|
      invariant forall col :: col in sources ==> SourceOf(exposed, col) == Some(sources[col])
      invariant forall col :: col in unresolved ==> SourceOf(exposed, col).None?
      invariant forall col :: col in identity[..i] <==> col in sources || col in unresolved
    {
      match SourceOf(exposed, identity[i]) {
        case Some(from) => sources := sources[identity[i] := from];
        case None => unresolved := unresolved + [identity[i]];
      }
    }
    assert identity[..|identity|] == identity;
    assert unresolved != [] ==> unresolved[0] in identity;
  }

  /** What one derivation is declared with. */
  datatype Setup = Setup(identity: seq<string>, coords: seq<string>, sources: map<string, string>,
                         confirmedLeft: seq<string>, frameLeft: seq<string>, sourceColumn: string,
                         values: seq<string>, origins: seq<string>, declared: set<string>,
                         canonical: (string, Value) -> Option<string>, readInt: string -> Option<int>,
                         coordinate: Value -> Option<int>)

  /** The identity has its sources, and the coordinates are the composite key without it (`coordinate_columns`). */
  ghost predicate SetUp(s: Setup) {
    && (forall col :: col in s.identity <==> col in s.sources)
    && (forall col :: col in s.coords ==> col !in s.identity)
  }

  /** `_forbidden_fallback_columns` */
  function Forbidden(s: Setup): set<string> { set col | col in s.sources && s.sources[col] != col }

  function Carried(s: Setup): seq<string> {
    [s.sourceColumn] + s.coords + s.confirmedLeft + s.frameLeft + s.values + s.origins
  }

  /** The columns a cell may copy from its row. */
  predicate Allowed(s: Setup, col: string) { col in Carried(s) && col in s.declared && col !in Forbidden(s) }

  /** What is read beside the rows: the two attribution tables under their keys, and the maps' records. */
  datatype World = World(confirmed: map<seq<Value>, Row>, frames: map<seq<Value>, Row>, metas: map<string, Meta>)

  /** A key with an empty part matches no row. */
  function Attribution(table: map<seq<Value>, Row>, key: seq<Value>): Option<Row> {
    if Null in key || key !in table then None else Some(table[key])
  }

  // ---- the gates ---------------------------------------------------------------------------------------------------

  datatype Reason = AttributionMissing | FrameMissing | FrameUnreadable | TargetMetaMissing | TransformUnavailable
    | CoordinatesMissing

  datatype Turned = Turned(rotation: int, side: string)

  function SideOf(token: string): Option<string> {
    if token == "front" || token == "tl" || token == "tr" then Some("front")
    else if token == "back" then Some("back") else None
  }

  /** The place of the first `_`, or none. */
  function Underscore(s: string): Option<nat> {
    if s == "" then None
    else if s[0] == '_' then Some(0)
    else match Underscore(s[1..]) case Some(n) => Some(n + 1) case None => None
  }

  lemma {:induction false} UnderscoreInside(s: string)
    ensures Underscore(s).Some? ==> Underscore(s).value < |s|
    decreases |s|
  {
    if s != "" { UnderscoreInside(s[1..]); }
  }

  /** `parse_frame` */
  function ParseFrame(s: Setup, v: Value): Option<Turned> {
    if v == Null || !v.Text? then None
    else
      var t := Lower(MapKeys.Trim(v.text));
      if |t| < 3 || t[..3] != "rot" then None
      else
        var body := t[3..];
        UnderscoreInside(body);
        match Underscore(body)
        case None => None
        case Some(at) =>
          match s.readInt(body[..at])
          case None => None
          case Some(rotation) =>
            if !Quarter(rotation) then None
            else match SideOf(body[at + 1..]) case None => None case Some(side) => Some(Turned(rotation, side))
  }

  datatype FrameFound = Found(text: string, turned: Turned) | NoFrame(reason: Reason)

  /** `resolve_frame`: one column is read, and a frame that is not there is not borrowed from beside it. */
  function ResolveFrame(s: Setup, row: Option<Row>): FrameFound {
    if row.None? || Blank(Pick(row.value, FRAME_COLUMN)) then NoFrame(FrameMissing)
    else
      var v := Pick(row.value, FRAME_COLUMN);
      match ParseFrame(s, v)
      case None => NoFrame(FrameUnreadable)
      case Some(turned) => Found(MapKeys.Trim(v.text), turned)
  }

  /** `source_meta_for_frame`: the target's own record, turned. */
  function SourceMeta(target: Meta, turned: Turned): Meta { target.(rotation := turned.rotation, side := turned.side) }

  /** An identity value as the cell carries it and as the map's name is composed of it - one function read twice. */
  datatype Named = Named(cell: string, key: string)

  /** The identity values in order, or nothing where one is no identity. */
  function Identity(s: Setup, conf: Row, cols: seq<string>): Option<seq<Named>>
    requires forall col :: col in cols ==> col in s.sources
  {
    if cols == [] then Some([])
    else
      match s.canonical(cols[0], Pick(conf, s.sources[cols[0]]))
      case None => None
      case Some(first) =>
        match s.canonical(cols[0], Text(first))
        case None => None
        case Some(again) =>
          if again == "" then None
          else
            match Identity(s, conf, cols[1..])
            case None => None
            case Some(rest) => Some([Named(first, again)] + rest)
  }

  function MapId(idents: seq<Named>): string {
    MapKeys.Join(seq(|idents|, i requires 0 <= i < |idents| => idents[i].key))
  }

  function Coordinates(s: Setup, row: Row, cols: seq<string>): Option<seq<int>> {
    if cols == [] then Some([])
    else
      match s.coordinate(Pick(row, cols[0]))
      case None => None
      case Some(n) => (match Coordinates(s, row, cols[1..]) case None => None case Some(rest) => Some([n] + rest))
  }

  datatype CellValue = Id(text: string) | Place(n: int) | Copied(v: Value)

  /** What becomes of one row: a cell, a named reason, or - a record marked as ground and not readable - a call that
      raises. */
  datatype Fate = Cell(cell: map<string, CellValue>) | Held(hold: Hold) | Raised

  /** A row held back: why, and the key it is sampled by - its own or its map's. */
  datatype Hold = Hold(reason: Reason, key: Value)

  /** Where the cell lies on its map: moved by the map's transform, or left where the frames agree. */
  function Placed(p: Passage, nums: seq<int>): (placed: Option<seq<int>>)
    ensures placed.Some? ==> |placed.value| == |nums|
  {
    match p
    case Straight => Some(nums)
    case Moved(_, _) =>
      if |nums| == 2 then
        var v := FrameCaches.Carried(p, Point(nums[0], nums[1]));
        Some([v.x, v.y])
      else None
    case _ => None
  }

  function Index(cols: seq<string>, col: string): nat
    requires col in cols
    ensures Index(cols, col) < |cols| && cols[Index(cols, col)] == col
  {
    if cols[|cols| - 1] == col then |cols| - 1 else Index(cols[..|cols| - 1], col)
  }

  /** The cell: its identity, its place, its source, and what the allowlist lets it copy. */
  function CellOf(s: Setup, idents: seq<Named>, placed: seq<int>, row: Row): map<string, CellValue>
    requires |idents| == |s.identity| && |placed| == |s.coords|
  {
    map col | col in (set c | c in s.identity) + (set c | c in s.coords) + {s.sourceColumn}
              + (set c | c in Carried(s) && Allowed(s, c)) ::
      if col == s.sourceColumn then Copied(Pick(row, col))
      else if col in s.coords then Place(placed[Index(s.coords, col)])
      else if col in s.identity then Id(idents[Index(s.identity, col)].cell)
      else Copied(Pick(row, col))
  }

  /** What the attributions say of a row: whose cell it is and how its map is reached. */
  datatype Evidence = Evidence(idents: seq<Named>, passage: Passage) | Without(reason: Reason, mapId: Option<string>)

  /** The gates before the coordinates, in their order: confirmed identity, frame, the map's name, its record. */
  ghost function EvidenceOf(s: Setup, w: World, confirmed: Option<Row>, frame: Option<Row>): (e: Evidence)
    requires SetUp(s)
    ensures e.Evidence? ==> |e.idents| == |s.identity|
  {
    var conf := match confirmed case None => map[] case Some(r) => r;
    if AnyBlank(s, conf) then Without(AttributionMissing, None)
    else
      match ResolveFrame(s, frame)
      case NoFrame(reason) => Without(reason, None)
      case Found(_, turned) =>
        match Identity(s, conf, s.identity)
        case None => Without(AttributionMissing, None)
        case Some(idents) =>
          IdentityWidth(s, conf, s.identity);
          if MapId(idents) !in w.metas then Without(TargetMetaMissing, Some(MapId(idents)))
          else
            var target := w.metas[MapId(idents)];
            var p := PassageOf(SourceMeta(target, turned), target);
            if p == NoGround then Without(TransformUnavailable, Some(MapId(idents))) else Evidence(idents, p)
  }

  /** `derive_cells` for one row. */
  ghost function FateOf(s: Setup, w: World, row: Row): Fate
    requires SetUp(s)
  {
    match EvidenceOf(s, w, Attribution(w.confirmed, PickAll(row, s.confirmedLeft)),
                     Attribution(w.frames, PickAll(row, s.frameLeft)))
    case Without(reason, mapId) =>
      Held(Hold(reason, match mapId case None => Pick(row, s.sourceColumn) case Some(id) => Text(id)))
    case Evidence(idents, p) =>
      if p == NoRecord then Raised
      else
        match Coordinates(s, row, s.coords)
        case None => Held(Hold(CoordinatesMissing, Pick(row, s.sourceColumn)))
        case Some(nums) =>
          CoordinatesWidth(s, row, s.coords);
          match Placed(p, nums)
          case None => Held(Hold(TransformUnavailable, Text(MapId(idents))))
          case Some(placed) => Cell(CellOf(s, idents, placed, row))
  }

  predicate AnyBlank(s: Setup, conf: Row)
    requires SetUp(s)
  {
    exists col :: col in s.identity && Blank(Pick(conf, s.sources[col]))
  }

  /** Under one frame and map two raw places never fall on one cell. */
  lemma {:induction false} PlacesStayApart(p: Passage, a: seq<int>, b: seq<int>)
    requires Placed(p, a).Some? && Placed(p, a) == Placed(p, b)
    ensures a == b
  {
    if p.Moved? {
      var s, t, v, w := p.source, p.target, Point(a[0], a[1]), Point(b[0], b[1]);
      hide Transform;
      TransformUndone(s.frame, s.box, t.frame, t.box, v);
      TransformUndone(s.frame, s.box, t.frame, t.box, w);
      assert v == w;
    }
  }

  lemma {:induction false} IdentityWidth(s: Setup, conf: Row, cols: seq<string>)
    requires forall col :: col in cols ==> col in s.sources
    ensures Identity(s, conf, cols).Some? ==> |Identity(s, conf, cols).value| == |cols|
    decreases |cols|
  {
    if cols != [] { IdentityWidth(s, conf, cols[1..]); }
  }

  lemma {:induction false} CoordinatesWidth(s: Setup, row: Row, cols: seq<string>)
    ensures Coordinates(s, row, cols).Some? ==> |Coordinates(s, row, cols).value| == |cols|
    decreases |cols|
  {
    if cols != [] { CoordinatesWidth(s, row, cols[1..]); }
  }

  // ---- where a cell lies -------------------------------------------------------------------------------------------

  /** The side a frame's last word names: the corners are the front's. */
  predicate SideNamed(token: string, side: string) {
    (side == "front" && token in {"front", "tl", "tr"}) || (side == "back" && token == "back")
  }

  /** A frame's text names a quarter turn and a side: rot, the number, the first «_» and the side, in any case and
      padding. */
  ghost predicate FrameSays(s: Setup, text: string, rotation: int, side: string) {
    exists digits, token ::
      && Lower(MapKeys.Trim(text)) == "rot" + digits + "_" + token && '_' !in digits
      && s.readInt(digits) == Some(rotation) && rotation in {0, 90, 180, 270} && SideNamed(token, side)
  }

  lemma {:induction false} UnderscoreFirst(s: string)
    ensures Underscore(s).Some? ==> var n := Underscore(s).value; n < |s| && s[n] == '_' && '_' !in s[..n]
    ensures Underscore(s).None? ==> '_' !in s
    decreases |s|
  {
    if s != "" && s[0] != '_' {
      UnderscoreFirst(s[1..]);
      assert s == [s[0]] + s[1..];
      if Underscore(s).Some? { assert s[..Underscore(s).value] == [s[0]] + s[1..][..Underscore(s).value - 1]; }
    }
  }

  lemma {:induction false} UnderscoreAfter(digits: string, token: string)
    requires '_' !in digits
    ensures Underscore(digits + "_" + token) == Some(|digits|)
    decreases |digits|
  {
    var s := digits + "_" + token;
    if digits != "" {
      UnderscoreAfter(digits[1..], token);
      assert s[1..] == digits[1..] + "_" + token && s[0] == digits[0];
      assert digits[0] in digits;
    }
  }

  /** A frame is read exactly as what its text names. */
  lemma {:induction false} FrameSaysExactly(s: Setup, text: string, rotation: int, side: string)
    ensures ParseFrame(s, Text(text)) == Some(Turned(rotation, side)) <==> FrameSays(s, text, rotation, side)
  {
    if ParseFrame(s, Text(text)) == Some(Turned(rotation, side)) { ReadSays(s, text, rotation, side); }
    if FrameSays(s, text, rotation, side) { SaidReads(s, text, rotation, side); }
  }

  lemma {:induction false} ReadSays(s: Setup, text: string, rotation: int, side: string)
    requires ParseFrame(s, Text(text)) == Some(Turned(rotation, side))
    ensures FrameSays(s, text, rotation, side)
  {
    var t := Lower(MapKeys.Trim(text));
    var body := t[3..];
    UnderscoreFirst(body);
    var at := Underscore(body).value;
    var digits, token := body[..at], body[at + 1..];
    SideIsNamed(token);
    hide Lower, MapKeys.Trim, Underscore, SideOf, SideNamed;
    assert t == t[..3] + body && body == digits + "_" + token;
    assert t == "rot" + digits + "_" + token;
  }

  lemma {:induction false} SideIsNamed(token: string)
    ensures SideOf(token).Some? ==> SideNamed(token, SideOf(token).value)
    ensures forall side :: SideNamed(token, side) ==> SideOf(token) == Some(side)
  {
  }

  lemma {:induction false} SaidReads(s: Setup, text: string, rotation: int, side: string)
    requires FrameSays(s, text, rotation, side)
    ensures ParseFrame(s, Text(text)) == Some(Turned(rotation, side))
  {
    var t := Lower(MapKeys.Trim(text));
    var digits, token :|
      && t == "rot" + digits + "_" + token && '_' !in digits
      && s.readInt(digits) == Some(rotation) && rotation in {0, 90, 180, 270} && SideNamed(token, side);
    UnderscoreAfter(digits, token);
    SideIsNamed(token);
    RotParts(t, digits, token);
    hide Lower, MapKeys.Trim, Underscore, SideOf, SideNamed;
  }

  lemma {:induction false} RotParts(t: string, digits: string, token: string)
    requires t == "rot" + digits + "_" + token
    ensures |t| >= 3 && t[..3] == "rot" && t[3..] == digits + "_" + token
    ensures t[3..][..|digits|] == digits && t[3..][|digits| + 1..] == token
  {
    assert t == "rot" + (digits + "_" + token);
  }

  /** What the attributions say of a row: the frame text under its frame key, and the map its confirmed identity
      names. */
  ghost predicate Attributed(s: Setup, w: World, row: Row, text: string, id: string)
    requires SetUp(s)
  {
    var frameKey, confirmedKey := PickAll(row, s.frameLeft), PickAll(row, s.confirmedLeft);
    && Null !in frameKey && frameKey in w.frames && FRAME_COLUMN in w.frames[frameKey]
    && w.frames[frameKey][FRAME_COLUMN].Text? && MapKeys.Trim(w.frames[frameKey][FRAME_COLUMN].text) == text
    && (s.identity != [] ==> Null !in confirmedKey && confirmedKey in w.confirmed)
    && var conf := if Null !in confirmedKey && confirmedKey in w.confirmed then w.confirmed[confirmedKey] else map[];
    && Identity(s, conf, s.identity).Some? && MapId(Identity(s, conf, s.identity).value) == id
  }

  /** A row that becomes a cell lies on the map its identity names at the coordinate of the die its own coordinate is,
      in a frame of that map turned as the row's frame text says. */
  lemma {:induction false} CellLiesByItsFrame(s: Setup, w: World, row: Row)
    returns (text: string, rotation: int, side: string, id: string, raw: Point, placed: Point)
    requires SetUp(s) && FateOf(s, w, row).Cell? && |s.coords| == 2 && s.coords[0] != s.coords[1]
    ensures Attributed(s, w, row, text, id) && FrameSays(s, text, rotation, side) && id in w.metas
    ensures s.coordinate(Pick(row, s.coords[0])) == Some(raw.x) && s.coordinate(Pick(row, s.coords[1])) == Some(raw.y)
    ensures var cell := FateOf(s, w, row).cell;
            && s.coords[0] in cell && s.coords[1] in cell
            && (s.coords[0] != s.sourceColumn ==> cell[s.coords[0]] == Place(placed.x))
            && (s.coords[1] != s.sourceColumn ==> cell[s.coords[1]] == Place(placed.y))
    ensures SameDie(w.metas[id].(rotation := rotation, side := side), raw, w.metas[id], placed)
  {
    var conf := Attribution(w.confirmed, PickAll(row, s.confirmedLeft));
    var frame := Attribution(w.frames, PickAll(row, s.frameLeft));
    var e := EvidenceOf(s, w, conf, frame);
    var found := ResolveFrame(s, frame);
    text, rotation, side, id := found.text, found.turned.rotation, found.turned.side, MapId(e.idents);
    FrameTextReads(s, frame);
    FrameSaysExactly(s, text, rotation, side);
    AttributedIs(s, w, row);
    hide ParseFrame, FrameSays, Attributed, AnyBlank, Identity, MapId, PassageOf, SameDie, Attribution, PickAll, Blank;
    var nums := Coordinates(s, row, s.coords).value;
    TwoNumbers(s, row);
    raw := Point(nums[0], nums[1]);
    var at := Placed(e.passage, nums).value;
    placed := Point(at[0], at[1]);
    TwoPlaces(s, e.idents, at, row);
    CarriedIsTheSameDie(SourceMeta(w.metas[id], found.turned), w.metas[id], raw, placed);
  }

  lemma {:induction false} TwoNumbers(s: Setup, row: Row)
    requires |s.coords| == 2 && Coordinates(s, row, s.coords).Some?
    ensures var nums := Coordinates(s, row, s.coords).value;
            && |nums| == 2 && s.coordinate(Pick(row, s.coords[0])) == Some(nums[0])
            && s.coordinate(Pick(row, s.coords[1])) == Some(nums[1])
  {
    CoordinatesWidth(s, row, s.coords);
    assert s.coords[1..][0] == s.coords[1] && s.coords[1..][1..] == [];
    assert Coordinates(s, row, s.coords[1..][1..]) == Some([]);
  }

  lemma {:induction false} TwoPlaces(s: Setup, idents: seq<Named>, at: seq<int>, row: Row)
    requires |idents| == |s.identity| && |s.coords| == 2 == |at| && s.coords[0] != s.coords[1]
    ensures var cell := CellOf(s, idents, at, row);
            && s.coords[0] in cell && s.coords[1] in cell
            && (s.coords[0] != s.sourceColumn ==> cell[s.coords[0]] == Place(at[0]))
            && (s.coords[1] != s.sourceColumn ==> cell[s.coords[1]] == Place(at[1]))
  {
    hide Index, Carried, Allowed;
    assert s.coords[0] in s.coords && s.coords[1] in s.coords;
    assert Index(s.coords, s.coords[0]) == 0 && Index(s.coords, s.coords[1]) == 1;
  }

  lemma {:induction false} AttributedIs(s: Setup, w: World, row: Row)
    requires SetUp(s)
    requires var e := EvidenceOf(s, w, Attribution(w.confirmed, PickAll(row, s.confirmedLeft)),
                                 Attribution(w.frames, PickAll(row, s.frameLeft)));
             e.Evidence?
    ensures var frame := Attribution(w.frames, PickAll(row, s.frameLeft));
            var e := EvidenceOf(s, w, Attribution(w.confirmed, PickAll(row, s.confirmedLeft)), frame);
            ResolveFrame(s, frame).Found? && Attributed(s, w, row, ResolveFrame(s, frame).text, MapId(e.idents))
  {
    var frame := Attribution(w.frames, PickAll(row, s.frameLeft));
    FoundInItsColumn(s, frame);
    NothingIsBlank(s);
    hide ParseFrame, Identity, MapId, PassageOf, PickAll, SourceMeta, ResolveFrame, AnyBlank;
  }

  lemma {:induction false} FoundInItsColumn(s: Setup, frame: Option<Row>)
    ensures var found := ResolveFrame(s, frame);
            found.Found? ==>
              && frame.Some? && FRAME_COLUMN in frame.value && frame.value[FRAME_COLUMN].Text?
              && MapKeys.Trim(frame.value[FRAME_COLUMN].text) == found.text
  {
  }

  lemma {:induction false} NothingIsBlank(s: Setup)
    requires SetUp(s)
    ensures s.identity != [] ==> AnyBlank(s, map[])
  {
    if s.identity != [] { assert s.identity[0] in s.identity; }
  }

  // ---- what a row becomes ------------------------------------------------------------------------------------------

  /** The confirmed attribution under a row's key, empty where there is none; a key with an empty part has none. */
  function ConfirmedOf(s: Setup, w: World, row: Row): Row {
    var key := PickAll(row, s.confirmedLeft);
    if Null !in key && key in w.confirmed then w.confirmed[key] else map[]
  }

  /** Every identity column's source is there and not blank. */
  ghost predicate AllNamed(s: Setup, w: World, row: Row)
    requires SetUp(s)
  {
    forall col :: col in s.identity ==>
      var v := Pick(ConfirmedOf(s, w, row), s.sources[col]);
      v != Null && (v.Text? ==> MapKeys.Trim(v.text) != "")
  }

  /** The frame value under a row's frame key, nothing where it is not there or blank. */
  function FrameValue(s: Setup, w: World, row: Row): Value {
    var key := PickAll(row, s.frameLeft);
    if Null !in key && key in w.frames then
      var v := Pick(w.frames[key], FRAME_COLUMN);
      if v.Text? && MapKeys.Trim(v.text) == "" then Null else v
    else Null
  }

  /** The value is a text that names a turn and a side. */
  ghost predicate Says(s: Setup, v: Value, rotation: int, side: string) {
    v.Text? && FrameSays(s, v.text, rotation, side)
  }

  /** The first gate a row does not pass names its reason, and which key it is sampled by: its own, or - once its map is
      known - the map's. */
  lemma {:induction false} GatesInOrder(s: Setup, w: World, row: Row, rotation: int, side: string)
    requires SetUp(s)
    ensures var fate, own, v := FateOf(s, w, row), Pick(row, s.sourceColumn), FrameValue(s, w, row);
            var idents := Identity(s, ConfirmedOf(s, w, row), s.identity);
            && (!AllNamed(s, w, row) ==> fate == Held(Hold(AttributionMissing, own)))
            && (AllNamed(s, w, row) && v == Null ==> fate == Held(Hold(FrameMissing, own)))
            && (AllNamed(s, w, row) && v != Null && (forall r, d :: !Says(s, v, r, d)) ==>
                  fate == Held(Hold(FrameUnreadable, own)))
            && (AllNamed(s, w, row) && Says(s, v, rotation, side) ==>
                  if idents == None then fate == Held(Hold(AttributionMissing, own))
                  else Beyond(s, w, row, rotation, side, MapId(idents.value), fate))
  {
    var v := FrameValue(s, w, row);
    NamedIs(s, w, row);
    FrameIs(s, w, row);
    SaysIs(s, v, rotation, side);
    if AllNamed(s, w, row) && Says(s, v, rotation, side) && Identity(s, ConfirmedOf(s, w, row), s.identity).Some? {
      PastTheFrame(s, w, row, rotation, side);
    }
    hide ParseFrame, Says, PassageOf, MapId, Coordinates, Placed, CellOf;
    hide AllNamed, AnyBlank, FrameValue, PickAll, Beyond;
    hide ResolveFrame, Attribution, Identity, ConfirmedOf;
  }

  lemma {:induction false} SaysIs(s: Setup, v: Value, rotation: int, side: string)
    ensures Says(s, v, rotation, side) <==> ParseFrame(s, v) == Some(Turned(rotation, side))
    ensures (forall r, d :: !Says(s, v, r, d)) <==> ParseFrame(s, v) == None
  {
    if v.Text? {
      forall r, d ensures ParseFrame(s, v) == Some(Turned(r, d)) <==> Says(s, v, r, d) {
        FrameSaysExactly(s, v.text, r, d);
      }
      hide FrameSays;
      if ParseFrame(s, v).Some? { assert Says(s, v, ParseFrame(s, v).value.rotation, ParseFrame(s, v).value.side); }
      hide ParseFrame;
    }
  }

  lemma {:induction false} FrameIs(s: Setup, w: World, row: Row)
    ensures var v, found := FrameValue(s, w, row), ResolveFrame(s, Attribution(w.frames, PickAll(row, s.frameLeft)));
            if v == Null then found == NoFrame(FrameMissing)
            else
              match ParseFrame(s, v)
              case None => found == NoFrame(FrameUnreadable)
              case Some(turned) => found.Found? && found.turned == turned
  {
    hide PickAll, ParseFrame;
  }

  lemma {:induction false} PastTheFrame(s: Setup, w: World, row: Row, rotation: int, side: string)
    requires SetUp(s) && AllNamed(s, w, row) && Says(s, FrameValue(s, w, row), rotation, side)
    requires Identity(s, ConfirmedOf(s, w, row), s.identity).Some?
    ensures Beyond(s, w, row, rotation, side, MapId(Identity(s, ConfirmedOf(s, w, row), s.identity).value),
                   FateOf(s, w, row))
  {
    var conf := Attribution(w.confirmed, PickAll(row, s.confirmedLeft));
    var frame := Attribution(w.frames, PickAll(row, s.frameLeft));
    NamedIs(s, w, row);
    FrameIs(s, w, row);
    SaysIs(s, FrameValue(s, w, row), rotation, side);
    NothingIsNoFrame(s);
    hide ParseFrame, Says, AllNamed, AnyBlank, FrameValue, PickAll, Attribution, Beyond;
    var idents := Identity(s, ConfirmedOf(s, w, row), s.identity).value;
    EvidenceBeyond(s, w, conf, frame, idents, Turned(rotation, side));
    FateBeyond(s, w, row, idents, Turned(rotation, side), EvidenceOf(s, w, conf, frame));
    hide EvidenceOf, Identity, ConfirmedOf;
  }

  /** What the record and the ground make of a named, framed row. */
  ghost predicate EvidenceStands(w: World, idents: seq<Named>, turned: Turned, e: Evidence) {
    var id := MapId(idents);
    if id !in w.metas then e == Without(TargetMetaMissing, Some(id))
    else
      var p := PassageOf(w.metas[id].(rotation := turned.rotation, side := turned.side), w.metas[id]);
      e == if p.NoGround? then Without(TransformUnavailable, Some(id)) else Evidence.Evidence(idents, p)
  }

  lemma {:induction false} EvidenceBeyond(s: Setup, w: World, conf: Option<Row>, frame: Option<Row>, idents: seq<Named>,
                                          turned: Turned)
    requires SetUp(s) && ResolveFrame(s, frame).Found? && ResolveFrame(s, frame).turned == turned
    requires var named := match conf case None => map[] case Some(r) => r;
             !AnyBlank(s, named) && Identity(s, named, s.identity) == Some(idents)
    ensures EvidenceStands(w, idents, turned, EvidenceOf(s, w, conf, frame))
  {
    hide ResolveFrame, AnyBlank, Identity, PassageOf, MapId;
  }

  lemma {:induction false} FateBeyond(s: Setup, w: World, row: Row, idents: seq<Named>, turned: Turned, e: Evidence)
    requires SetUp(s) && EvidenceStands(w, idents, turned, e)
    requires e == EvidenceOf(s, w, Attribution(w.confirmed, PickAll(row, s.confirmedLeft)),
                             Attribution(w.frames, PickAll(row, s.frameLeft)))
    ensures Beyond(s, w, row, turned.rotation, turned.side, MapId(idents), FateOf(s, w, row))
  {
    CoordinatesThere(s, row, s.coords);
    CoordinatesWidth(s, row, s.coords);
    hide EvidenceOf, PassageOf, MapId, Coordinates, CellOf, PickAll, Attribution, Pick, Carried;
  }

  lemma {:induction false} NothingIsNoFrame(s: Setup)
    ensures ParseFrame(s, Null) == None
  {
  }

  lemma {:induction false} CoordinatesThere(s: Setup, row: Row, cols: seq<string>)
    ensures Coordinates(s, row, cols).None? <==>
              exists i :: 0 <= i < |cols| && s.coordinate(Pick(row, cols[i])) == None
    decreases |cols|
  {
    if cols != [] {
      CoordinatesThere(s, row, cols[1..]);
      if exists i :: 0 <= i < |cols| - 1 && s.coordinate(Pick(row, cols[1..][i])) == None {
        var i :| 0 <= i < |cols| - 1 && s.coordinate(Pick(row, cols[1..][i])) == None;
        assert cols[i + 1] == cols[1..][i];
      }
      if i :| 0 <= i < |cols| && s.coordinate(Pick(row, cols[i])) == None {
        if i > 0 { assert cols[1..][i - 1] == cols[i]; }
      }
      hide Pick;
    }
  }

  /** Past the frame: the map's record, the ground to move on, the coordinates. */
  ghost predicate Beyond(s: Setup, w: World, row: Row, rotation: int, side: string, id: string, fate: Fate) {
    if id !in w.metas then fate == Held(Hold(TargetMetaMissing, Text(id)))
    else
      var target := w.metas[id];
      var p := PassageOf(target.(rotation := rotation, side := side), target);
      && (p.NoGround? ==> fate == Held(Hold(TransformUnavailable, Text(id))))
      && (p.NoRecord? ==> fate == Raised)
      && (p.Straight? || p.Moved? ==>
            if exists i :: 0 <= i < |s.coords| && s.coordinate(Pick(row, s.coords[i])) == None then
              fate == Held(Hold(CoordinatesMissing, Pick(row, s.sourceColumn)))
            else if p.Straight? || |s.coords| == 2 then fate.Cell?
            else fate == Held(Hold(TransformUnavailable, Text(id))))
  }

  lemma {:induction false} NamedIs(s: Setup, w: World, row: Row)
    requires SetUp(s)
    ensures var confirmed := Attribution(w.confirmed, PickAll(row, s.confirmedLeft));
            && ConfirmedOf(s, w, row) == (match confirmed case None => map[] case Some(r) => r)
            && (AllNamed(s, w, row) <==> !AnyBlank(s, ConfirmedOf(s, w, row)))
  {
    hide PickAll;
  }

  /** A cell holds its identity, its place, its source and what the declaration lets it carry of its row - no column
      whose identity is filled from another - and nothing else. */
  lemma {:induction false} CellHolds(s: Setup, w: World, row: Row, col: string)
    requires SetUp(s) && FateOf(s, w, row).Cell?
    ensures var cell := FateOf(s, w, row).cell;
            var carried := col in s.coords || col in s.confirmedLeft || col in s.frameLeft || col in s.values
                           || col in s.origins;
            && (col in cell <==>
                  || col in s.identity || col in s.coords || col == s.sourceColumn || (carried && col in s.declared))
            && (col == s.sourceColumn ==> cell[col] == Copied(Pick(row, col)))
            && (col in cell && col != s.sourceColumn && col in s.coords ==> cell[col].Place?)
            && (col in cell && col != s.sourceColumn && col in s.identity ==>
                  cell[col].Id?
                  && s.canonical(col, Pick(ConfirmedOf(s, w, row), s.sources[col])) == Some(cell[col].text))
            && (col in cell && col != s.sourceColumn && col !in s.coords && col !in s.identity ==>
                  cell[col] == Copied(Pick(row, col)))
  {
    var idents, placed := CellIs(s, w, row);
    if col in s.identity { CanonicalParts(s, ConfirmedOf(s, w, row), s.identity, Index(s.identity, col)); }
    CellOfHolds(s, idents, placed, row, col);
    hide FateOf, ConfirmedOf, Identity, Pick, Index, CellOf;
  }

  lemma {:induction false} CellOfHolds(s: Setup, idents: seq<Named>, placed: seq<int>, row: Row, col: string)
    requires SetUp(s) && |idents| == |s.identity| && |placed| == |s.coords|
    ensures var cell := CellOf(s, idents, placed, row);
            var carried := col in s.coords || col in s.confirmedLeft || col in s.frameLeft || col in s.values
                           || col in s.origins;
            && (col in cell <==>
                  || col in s.identity || col in s.coords || col == s.sourceColumn || (carried && col in s.declared))
            && (col == s.sourceColumn ==> cell[col] == Copied(Pick(row, col)))
            && (col in cell && col != s.sourceColumn && col in s.coords ==> cell[col].Place?)
            && (col in cell && col != s.sourceColumn && col in s.identity ==>
                  cell[col] == Id(idents[Index(s.identity, col)].cell))
            && (col in cell && col != s.sourceColumn && col !in s.coords && col !in s.identity ==>
                  cell[col] == Copied(Pick(row, col)))
  {
    hide Pick, Index;
  }

  lemma {:induction false} CellIs(s: Setup, w: World, row: Row) returns (idents: seq<Named>, placed: seq<int>)
    requires SetUp(s) && FateOf(s, w, row).Cell?
    ensures |idents| == |s.identity| && |placed| == |s.coords|
    ensures Identity(s, ConfirmedOf(s, w, row), s.identity) == Some(idents)
    ensures FateOf(s, w, row) == Cell(CellOf(s, idents, placed, row))
  {
    NamedIs(s, w, row);
    CoordinatesWidth(s, row, s.coords);
    var e := EvidenceOf(s, w, Attribution(w.confirmed, PickAll(row, s.confirmedLeft)),
                        Attribution(w.frames, PickAll(row, s.frameLeft)));
    idents, placed := e.idents, Placed(e.passage, Coordinates(s, row, s.coords).value).value;
    hide PassageOf, Attribution, PickAll, ConfirmedOf, ResolveFrame, Identity;
    hide AnyBlank, MapId, Pick, CellOf, Coordinates;
  }

  lemma {:induction false} CanonicalParts(s: Setup, conf: Row, cols: seq<string>, i: nat)
    requires (forall col :: col in cols ==> col in s.sources) && i < |cols|
    ensures Identity(s, conf, cols).Some? ==>
              var idents := Identity(s, conf, cols).value;
              |idents| == |cols| && s.canonical(cols[i], Pick(conf, s.sources[cols[i]])) == Some(idents[i].cell)
    decreases |cols|
  {
    IdentityWidth(s, conf, cols);
    hide Pick;
    if i > 0 { CanonicalParts(s, conf, cols[1..], i - 1); }
  }

  // ---- what is held back -------------------------------------------------------------------------------------------

  const SAMPLES := 5

  function CountOf(counts: map<Reason, nat>, reason: Reason): nat { if reason in counts then counts[reason] else 0 }

  function SamplesOf(samples: map<Reason, seq<Value>>, reason: Reason): seq<Value> {
    if reason in samples then samples[reason] else []
  }

  /** `HoldBack`: a count and the first five keys of every reason. */
  class HoldBack {
    var counts: map<Reason, nat>
    var samples: map<Reason, seq<Value>>
    /** Every row held back, in order. */
    ghost var held: seq<Hold>

    ghost predicate Valid()
      reads this
    {
      && (forall r: Reason :: CountOf(counts, r) == HeldFor(held, r))
      && (forall r: Reason :: SamplesOf(samples, r) == FirstOf(KeysOf(held, r)))
    }

    constructor ()
      ensures Valid() && held == []
    {
      counts, samples, held := map[], map[], [];
    }

    method Add(reason: Reason, key: Value)
      requires Valid()
      modifies this
      ensures Valid() && held == old(held) + [Hold(reason, key)]
    {
      hide KeysOf, FirstOf, HeldFor;
      ghost var grown := held + [Hold(reason, key)];
      counts := counts[reason := CountOf(counts, reason) + 1];
      if key != Null {
        var bucket := SamplesOf(samples, reason);
        if |bucket| < SAMPLES {
          samples := samples[reason := bucket + [key]];
        }
      }
      forall r: Reason
        ensures CountOf(counts, r) == HeldFor(grown, r) && SamplesOf(samples, r) == FirstOf(KeysOf(grown, r))
      {
        KeysGrow(held, reason, key, r);
        FirstGrows(KeysOf(held, r), key);
      }
      held := grown;
    }
  }

  function FirstOf(keys: seq<Value>): seq<Value> { if |keys| <= SAMPLES then keys else keys[..SAMPLES] }

  lemma {:induction false} FirstGrows(keys: seq<Value>, key: Value)
    ensures FirstOf(keys + [key]) == if |FirstOf(keys)| < SAMPLES then FirstOf(keys) + [key] else FirstOf(keys)
  {
  }

  /** How many rows are held back for one reason. */
  ghost function HeldFor(held: seq<Hold>, reason: Reason): nat {
    if held == [] then 0
    else HeldFor(held[..|held| - 1], reason) + if held[|held| - 1].reason == reason then 1 else 0
  }

  /** The keys held back for one reason, in order; a row without one is not sampled. */
  ghost function KeysOf(held: seq<Hold>, reason: Reason): seq<Value> {
    if held == [] then []
    else
      var last := held[|held| - 1];
      KeysOf(held[..|held| - 1], reason) + if last.reason == reason && last.key != Null then [last.key] else []
  }

  lemma {:induction false} KeysGrow(held: seq<Hold>, reason: Reason, key: Value, r: Reason)
    ensures HeldFor(held + [Hold(reason, key)], r) == HeldFor(held, r) + if r == reason then 1 else 0
    ensures KeysOf(held + [Hold(reason, key)], r)
            == if r == reason && key != Null then KeysOf(held, r) + [key] else KeysOf(held, r)
  {
    assert (held + [Hold(reason, key)])[..|held|] == held;
  }

  /** The counts by reason add up to the rows held back: a row is held for one reason. */
  lemma {:induction false} ReasonsAddUp(held: seq<Hold>)
    ensures HeldFor(held, AttributionMissing) + HeldFor(held, FrameMissing) + HeldFor(held, FrameUnreadable)
          + HeldFor(held, TargetMetaMissing) + HeldFor(held, TransformUnavailable)
          + HeldFor(held, CoordinatesMissing) == |held|
    decreases |held|
  {
    if held != [] { ReasonsAddUp(held[..|held| - 1]); }
  }

  // ---- the whole derivation ----------------------------------------------------------------------------------------

  type Cells = seq<map<string, CellValue>>

  ghost function CellsOf(s: Setup, w: World, rows: seq<Row>): Cells
    requires SetUp(s)
  {
    if rows == [] then []
    else
      var n := |rows| - 1;
      CellsOf(s, w, rows[..n]) + match FateOf(s, w, rows[n]) case Cell(c) => [c] case _ => []
  }

  /** The rows held back, in order. */
  ghost function HoldsOf(s: Setup, w: World, rows: seq<Row>): seq<Hold>
    requires SetUp(s)
  {
    if rows == [] then []
    else
      var n := |rows| - 1;
      HoldsOf(s, w, rows[..n]) + match FateOf(s, w, rows[n]) case Held(h) => [h] case _ => []
  }

  ghost predicate Runs(s: Setup, w: World, rows: seq<Row>)
    requires SetUp(s)
  {
    forall i :: 0 <= i < |rows| ==> !FateOf(s, w, rows[i]).Raised?
  }

  /** Nothing is lost and nothing is invented: every row is a cell or is held back for one reason. */
  lemma {:induction false} DerivationConserves(s: Setup, w: World, rows: seq<Row>)
    requires SetUp(s) && Runs(s, w, rows)
    ensures |CellsOf(s, w, rows)| + |HoldsOf(s, w, rows)| == |rows|
    decreases |rows|
  {
    hide FateOf;
    if rows != [] {
      var n := |rows| - 1;
      forall i | 0 <= i < n ensures !FateOf(s, w, rows[..n][i]).Raised? { assert rows[..n][i] == rows[i]; }
      DerivationConserves(s, w, rows[..n]);
    }
  }

  /** One call: the cells out, the rows held back counted, the maps' records and transforms read once each. */
  class Deriving {
    const setup: Setup
    const world: World
    const frames: Caches
    const held: HoldBack
    var metas: map<string, Option<Meta>>
    var passages: map<PassageKey, Passage>

    ghost predicate Valid()
      reads this, frames, held
    {
      && SetUp(setup) && frames.Valid() && held.Valid()
      && (forall id :: id in metas ==> metas[id] == RecordOf(world, id))
      && (forall k :: k in passages ==> Leads(setup, world, k, passages[k]))
    }

    constructor (setup: Setup, world: World, frames: Caches, held: HoldBack)
      requires SetUp(setup) && frames.Valid() && held.Valid()
      ensures Valid() && this.setup == setup && this.world == world && this.frames == frames && this.held == held
    {
      this.setup, this.world, this.frames, this.held := setup, world, frames, held;
      metas, passages := map[], map[];
    }

    method RecordFor(id: string) returns (m: Option<Meta>)
      requires Valid()
      modifies this`metas
      ensures Valid() && m == RecordOf(world, id)
    {
      if id !in metas { metas := metas[id := RecordOf(world, id)]; }
      m := metas[id];
    }

    method PassageFor(id: string, text: string, turned: Turned) returns (p: Passage)
      requires Valid() && id in world.metas && ParseFrame(setup, Text(text)) == Some(turned)
      modifies this`passages, frames
      ensures Valid() && p == PassageOf(SourceMeta(world.metas[id], turned), world.metas[id])
    {
      hide PassageOf, ParseFrame;
      var key := PassageKey(id, text);
      if key !in passages {
        p := frames.Bridge(SourceMeta(world.metas[id], turned), world.metas[id]);
        passages := passages[key := p];
      }
      p := passages[key];
    }

    /** The gates before the coordinates for one row. */
    method EvidenceFor(confirmed: Option<Row>, frame: Option<Row>) returns (e: Evidence)
      requires Valid()
      modifies this, frames
      ensures Valid() && e == EvidenceOf(setup, world, confirmed, frame)
    {
      hide PassageOf, ParseFrame, Identity, AnyBlank, MapId;
      var conf := match confirmed case None => map[] case Some(r) => r;
      if AnyBlank(setup, conf) {
        return Without(AttributionMissing, None);
      }
      match ResolveFrame(setup, frame) {
        case NoFrame(reason) => return Without(reason, None);
        case Found(text, turned) =>
          FrameTextReads(setup, frame);
          match Identity(setup, conf, setup.identity) {
            case None => return Without(AttributionMissing, None);
            case Some(idents) =>
              var record := RecordFor(MapId(idents));
              if record.None? {
                return Without(TargetMetaMissing, Some(MapId(idents)));
              }
              var p := PassageFor(MapId(idents), text, turned);
              e := if p.NoGround? then Without(TransformUnavailable, Some(MapId(idents))) else Evidence(idents, p);
          }
      }
    }

    method FateFor(row: Row) returns (f: Fate)
      requires Valid()
      modifies this, frames
      ensures Valid() && f == FateOf(setup, world, row)
    {
      hide EvidenceOf, PickAll, Attribution, Coordinates, Placed, CellOf, MapId;
      var e := EvidenceFor(Attribution(world.confirmed, PickAll(row, setup.confirmedLeft)),
                           Attribution(world.frames, PickAll(row, setup.frameLeft)));
      match e {
        case Without(reason, mapId) =>
          return Held(Hold(reason, match mapId case None => Pick(row, setup.sourceColumn) case Some(id) => Text(id)));
        case Evidence(idents, p) =>
          if p.NoRecord? {
            return Raised;
          }
          CoordinatesWidth(setup, row, setup.coords);
          match Coordinates(setup, row, setup.coords) {
            case None => return Held(Hold(CoordinatesMissing, Pick(row, setup.sourceColumn)));
            case Some(nums) =>
              match Placed(p, nums) {
                case None => return Held(Hold(TransformUnavailable, Text(MapId(idents))));
                case Some(placed) => return Cell(CellOf(setup, idents, placed, row));
              }
          }
      }
    }

    /** `derive_cells`: the rows one by one, each a cell or held back; a record that breaks breaks the call. */
    method DeriveCells(rows: seq<Row>) returns (cells: Option<Cells>)
      requires Valid() && held.held == []
      modifies this, frames, held
      ensures Valid()
      ensures cells.Some? <==> Runs(setup, world, rows)
      ensures cells.Some? ==> cells.value == CellsOf(setup, world, rows) && held.held == HoldsOf(setup, world, rows)
    {
      hide FateOf;
      var updates: Cells := [];
      for i := 0 to |rows|
        invariant Valid() && Runs(setup, world, rows[..i])
        invariant updates == CellsOf(setup, world, rows[..i]) && held.held == HoldsOf(setup, world, rows[..i])
      {
        var fate := FateFor(rows[i]);
        assert rows[..i + 1][..i] == rows[..i] && rows[..i + 1][i] == rows[i];
        match fate {
          case Raised => return None;
          case Held(h) => held.Add(h.reason, h.key);
          case Cell(c) => updates := updates + [c];
        }
      }
      assert rows[..|rows|] == rows;
      cells := Some(updates);
    }
  }

  datatype PassageKey = PassageKey(mapId: string, frameText: string)

  function RecordOf(w: World, id: string): Option<Meta> { if id in w.metas then Some(w.metas[id]) else None }

  /** What is held under a key is the transform of that map for any frame so written. */
  ghost predicate Leads(s: Setup, w: World, k: PassageKey, p: Passage) {
    k.mapId in w.metas && ParseFrame(s, Text(k.frameText)).Some?
    && p == PassageOf(SourceMeta(w.metas[k.mapId], ParseFrame(s, Text(k.frameText)).value), w.metas[k.mapId])
  }

  lemma {:induction false} FrameTextReads(s: Setup, row: Option<Row>)
    ensures var f := ResolveFrame(s, row);
            f.Found? ==> ParseFrame(s, Text(f.text)) == Some(f.turned)
  {
    var f := ResolveFrame(s, row);
    if f.Found? { MapKeys.TrimTwice(Pick(row.value, FRAME_COLUMN).text); }
  }

  // ---- the ban on the stored identity ------------------------------------------------------------------------------

  /** Two rows that differ in forbidden columns alone. */
  ghost predicate SameBut(s: Setup, a: Row, b: Row) {
    forall col :: col !in Forbidden(s) ==> Pick(a, col) == Pick(b, col)
  }

  /** No forbidden column is a join key, and the source column is not one. */
  predicate KeysApart(s: Setup) {
    && (forall col :: col in s.confirmedLeft ==> col !in Forbidden(s))
    && (forall col :: col in s.frameLeft ==> col !in Forbidden(s))
    && s.sourceColumn !in Forbidden(s)
  }

  lemma {:induction false} SamePicks(s: Setup, a: Row, b: Row, cols: seq<string>)
    requires SameBut(s, a, b) && forall col :: col in cols ==> col !in Forbidden(s)
    ensures PickAll(a, cols) == PickAll(b, cols)
  {
    hide Pick;
    forall i | 0 <= i < |cols| ensures Pick(a, cols[i]) == Pick(b, cols[i]) { assert cols[i] in cols; }
  }

  lemma {:induction false} SameCoordinates(s: Setup, a: Row, b: Row, cols: seq<string>)
    requires SameBut(s, a, b) && forall col :: col in cols ==> col !in Forbidden(s)
    ensures Coordinates(s, a, cols) == Coordinates(s, b, cols)
    decreases |cols|
  {
    hide Pick;
    if cols != [] {
      assert cols[0] in cols;
      assert forall col :: col in cols[1..] ==> col in cols;
      SameCoordinates(s, a, b, cols[1..]);
    }
  }

  lemma {:induction false} SameCell(s: Setup, idents: seq<Named>, placed: seq<int>, a: Row, b: Row)
    requires |idents| == |s.identity| && |placed| == |s.coords|
    requires SameBut(s, a, b) && KeysApart(s)
    ensures CellOf(s, idents, placed, a) == CellOf(s, idents, placed, b)
  {
    hide Pick, Index, Carried;
  }

  /** The derivation reads no forbidden column: rows that differ in those alone have one fate. */
  lemma {:induction false} StoredIdentityIsNotRead(s: Setup, w: World, a: Row, b: Row)
    requires SetUp(s) && KeysApart(s) && SameBut(s, a, b)
    ensures FateOf(s, w, a) == FateOf(s, w, b)
  {
    SamePicks(s, a, b, s.confirmedLeft);
    SamePicks(s, a, b, s.frameLeft);
    SameCoordinates(s, a, b, s.coords);
    hide EvidenceOf, Placed, CellOf, PickAll, Coordinates, Attribution, SameBut, KeysApart;
    var e := EvidenceOf(s, w, Attribution(w.confirmed, PickAll(a, s.confirmedLeft)),
                        Attribution(w.frames, PickAll(a, s.frameLeft)));
    if e.Evidence? && Coordinates(s, a, s.coords).Some? {
      CoordinatesWidth(s, a, s.coords);
      var placed := Placed(e.passage, Coordinates(s, a, s.coords).value);
      if placed.Some? && |placed.value| == |s.coords| { SameCell(s, e.idents, placed.value, a, b); }
    }
  }

  /** Two inputs that differ in stored identity columns alone: the same cells, the same rows held back for the same
      reasons. */
  lemma {:induction false} DerivationDoesNotInterfere(s: Setup, w: World, rows: seq<Row>, others: seq<Row>)
    requires SetUp(s) && KeysApart(s) && |rows| == |others|
    requires forall i :: 0 <= i < |rows| ==> SameBut(s, rows[i], others[i])
    ensures CellsOf(s, w, rows) == CellsOf(s, w, others) && HoldsOf(s, w, rows) == HoldsOf(s, w, others)
    decreases |rows|
  {
    hide FateOf, SameBut, KeysApart;
    if rows != [] {
      var n := |rows| - 1;
      forall i | 0 <= i < n ensures SameBut(s, rows[..n][i], others[..n][i]) {
        assert rows[..n][i] == rows[i] && others[..n][i] == others[i];
      }
      DerivationDoesNotInterfere(s, w, rows[..n], others[..n]);
      StoredIdentityIsNotRead(s, w, rows[n], others[n]);
    }
  }

  /** The condition is needed: a stored identity column that is also the join key decides a row's fate. */
  lemma {:induction false} JoinKeyInterferes(s: Setup, w: World)
    requires SetUp(s) && s.identity == ["lot"] && s.sources == map["lot" := "lot_confirmed"]
    requires s.confirmedLeft == ["lot"] && s.frameLeft == ["eqp"] && s.sourceColumn == "job"
    requires w.confirmed == map[[Text("A")] := map["lot_confirmed" := Text("L")]] && w.frames == map[]
    ensures var a, b: Row := map["lot" := Text("A")], map["lot" := Text("B")];
            SameBut(s, a, b) && !KeysApart(s) && FateOf(s, w, a) != FateOf(s, w, b)
  {
    var a, b: Row := map["lot" := Text("A")], map["lot" := Text("B")];
    assert PickAll(a, ["lot"]) == [Text("A")] && PickAll(b, ["lot"]) == [Text("B")];
    assert MapKeys.Trim("L") == "L";
    var found: Row := map["lot_confirmed" := Text("L")];
    assert "lot" in s.identity && s.sources["lot"] == "lot_confirmed";
    assert Attribution(w.confirmed, [Text("A")]) == Some(found) && Attribution(w.confirmed, [Text("B")]) == None;
    var none: Row := map[];
    assert !AnyBlank(s, found) && AnyBlank(s, none);
    assert "lot" in Forbidden(s);
    hide AnyBlank, Attribution, PickAll, Identity, PassageOf;
  }

  // ---- only while they are apart -----------------------------------------------------------------------------------

  /** Whatever is read beside the rows, two that differ in forbidden columns alone have one fate. */
  ghost predicate Blind(s: Setup)
    requires SetUp(s)
  {
    forall w, a, b :: SameBut(s, a, b) ==> FateOf(s, w, a) == FateOf(s, w, b)
  }

  function KeyColumns(s: Setup): seq<string> { s.confirmedLeft + s.frameLeft + [s.sourceColumn] }

  /** A row that carries every key column, with a text of its own in one. */
  function Marked(s: Setup, col: string, own: string): Row {
    map c | c in KeyColumns(s) :: Text(if c == col then own else "x")
  }

  lemma {:induction false} MarkedApart(s: Setup, col: string)
    requires col in Forbidden(s) && col in KeyColumns(s)
    ensures SameBut(s, Marked(s, col, "A"), Marked(s, col, "B"))
    ensures Pick(Marked(s, col, "A"), col) == Text("A") && Pick(Marked(s, col, "B"), col) == Text("B")
  {
    hide KeyColumns, Forbidden;
  }

  lemma {:induction false} KeysTell(s: Setup, col: string, cols: seq<string>)
    requires col in Forbidden(s) && col in cols && forall c :: c in cols ==> c in KeyColumns(s)
    ensures PickAll(Marked(s, col, "A"), cols) != PickAll(Marked(s, col, "B"), cols)
    ensures Null !in PickAll(Marked(s, col, "A"), cols)
  {
    MarkedApart(s, col);
    MarkedIsFull(s, col, cols);
    hide KeyColumns, Forbidden, Pick, Marked;
    var i :| 0 <= i < |cols| && cols[i] == col;
    assert PickAll(Marked(s, col, "A"), cols)[i] == Text("A") && PickAll(Marked(s, col, "B"), cols)[i] == Text("B");
  }

  lemma {:induction false} MarkedIsFull(s: Setup, col: string, cols: seq<string>)
    requires forall c :: c in cols ==> c in KeyColumns(s)
    ensures Null !in PickAll(Marked(s, col, "A"), cols)
  {
    hide KeyColumns;
    var key := PickAll(Marked(s, col, "A"), cols);
    forall i | 0 <= i < |cols| ensures key[i] != Null { assert cols[i] in cols; }
  }

  /** A confirmed attribution that names every identity column. */
  function Naming(s: Setup): Row { map c | c in s.sources.Values :: Text("L") }

  lemma {:induction false} NamingIsWhole(s: Setup)
    requires SetUp(s)
    ensures !AnyBlank(s, Naming(s))
    ensures s.identity != [] ==> AnyBlank(s, map[])
  {
    assert MapKeys.Trim("L") == "L";
    if s.identity != [] { assert s.identity[0] in s.identity; }
  }

  const UNREADABLE := map[FRAME_COLUMN := Text("zz")]

  lemma {:induction false} UnreadableIs(s: Setup)
    ensures ResolveFrame(s, Some(UNREADABLE)) == NoFrame(FrameUnreadable)
  {
    assert MapKeys.Trim("zz") == "zz" && |Lower("zz")| == 2;
  }

  /** The fates of rows held back before their map is named. */
  lemma {:induction false} HeldEarly(s: Setup, w: World, row: Row)
    requires SetUp(s) && s.identity != []
    ensures var conf := Attribution(w.confirmed, PickAll(row, s.confirmedLeft));
            var frame := Attribution(w.frames, PickAll(row, s.frameLeft));
            var fate, key := FateOf(s, w, row), Pick(row, s.sourceColumn);
            && (conf == None ==> fate == Held(Hold(AttributionMissing, key)))
            && (conf == Some(Naming(s)) && frame == None ==> fate == Held(Hold(FrameMissing, key)))
            && (conf == Some(Naming(s)) && frame == Some(UNREADABLE) ==> fate == Held(Hold(FrameUnreadable, key)))
  {
    NamingIsWhole(s);
    UnreadableIs(s);
    hide AnyBlank, Attribution, PickAll, Identity, PassageOf, MapId, ParseFrame, Naming, Blank;
  }

  lemma {:induction false} SourceColumnTells(s: Setup)
    requires SetUp(s) && s.identity != [] && s.sourceColumn in Forbidden(s)
    ensures !Blind(s)
  {
    var w := World(map[], map[], map[]);
    var a, b := Marked(s, s.sourceColumn, "A"), Marked(s, s.sourceColumn, "B");
    MarkedApart(s, s.sourceColumn);
    HeldEarly(s, w, a);
    HeldEarly(s, w, b);
    assert Attribution(w.confirmed, PickAll(a, s.confirmedLeft)) == None;
    assert Attribution(w.confirmed, PickAll(b, s.confirmedLeft)) == None;
    hide SetUp, SameBut, FateOf, Marked, Forbidden, PickAll, Attribution;
  }

  lemma {:induction false} OnlyUnder(key: seq<Value>, other: seq<Value>, row: Row)
    requires Null !in key && other != key
    ensures Attribution(map[key := row], key) == Some(row) && Attribution(map[key := row], other) == None
  {
  }

  lemma {:induction false} TwoFatesTell(s: Setup, w: World, a: Row, b: Row)
    requires SetUp(s) && SameBut(s, a, b) && FateOf(s, w, a) != FateOf(s, w, b)
    ensures !Blind(s)
  {
    hide SetUp, SameBut, FateOf;
  }

  lemma {:induction false} ConfirmedKeyTells(s: Setup, col: string)
    requires SetUp(s) && s.identity != [] && col in Forbidden(s) && col in s.confirmedLeft
    ensures !Blind(s)
  {
    hide SetUp, SameBut, FateOf, Marked, Forbidden, PickAll, Attribution, Naming, Blind;
    var a, b := Marked(s, col, "A"), Marked(s, col, "B");
    var key, other := PickAll(a, s.confirmedLeft), PickAll(b, s.confirmedLeft);
    var w := World(map[key := Naming(s)], map[], map[]);
    MarkedApart(s, col);
    KeysTell(s, col, s.confirmedLeft);
    OnlyUnder(key, other, Naming(s));
    assert Attribution(w.frames, PickAll(a, s.frameLeft)) == None by { NothingAttributed(PickAll(a, s.frameLeft)); }
    HeldEarly(s, w, a);
    HeldEarly(s, w, b);
    TwoFatesTell(s, w, a, b);
  }

  lemma {:induction false} NothingAttributed(key: seq<Value>)
    ensures Attribution(map[], key) == None
  {
  }

  lemma {:induction false} FrameKeyTells(s: Setup, col: string)
    requires SetUp(s) && s.identity != [] && col in Forbidden(s) && col in s.frameLeft
    requires forall c :: c in s.confirmedLeft ==> c !in Forbidden(s)
    ensures !Blind(s)
  {
    hide SetUp, SameBut, FateOf, Marked, Forbidden, PickAll, Attribution, Naming, Blind;
    var a, b := Marked(s, col, "A"), Marked(s, col, "B");
    var key, other := PickAll(a, s.frameLeft), PickAll(b, s.frameLeft);
    var common := PickAll(a, s.confirmedLeft);
    var w := World(map[common := Naming(s)], map[key := UNREADABLE], map[]);
    MarkedApart(s, col);
    SamePicks(s, a, b, s.confirmedLeft);
    MarkedIsFull(s, col, s.confirmedLeft);
    OnlyUnder(common, common + [Null], Naming(s));
    KeysTell(s, col, s.frameLeft);
    OnlyUnder(key, other, UNREADABLE);
    HeldEarly(s, w, a);
    HeldEarly(s, w, b);
    TwoFatesTell(s, w, a, b);
  }

  /** The ban holds in every world exactly while no stored identity column is a join key or the source column. */
  lemma {:induction false} BlindExactlyWhereApart(s: Setup)
    requires SetUp(s)
    ensures Blind(s) <==> KeysApart(s)
  {
    hide FateOf, SameBut;
    if KeysApart(s) {
      forall w, a, b | SameBut(s, a, b) ensures FateOf(s, w, a) == FateOf(s, w, b) {
        StoredIdentityIsNotRead(s, w, a, b);
      }
    } else {
      ForbiddenIsNamed(s);
      hide SetUp, Forbidden, Blind;
      if col :| col in s.confirmedLeft && col in Forbidden(s) {
        ConfirmedKeyTells(s, col);
      } else if col :| col in s.frameLeft && col in Forbidden(s) {
        FrameKeyTells(s, col);
      } else {
        SourceColumnTells(s);
      }
    }
  }

  lemma {:induction false} ForbiddenIsNamed(s: Setup)
    requires SetUp(s) && !KeysApart(s)
    ensures s.identity != []
  {
    var col :| col in Forbidden(s);
    assert col in s.identity;
  }
}
