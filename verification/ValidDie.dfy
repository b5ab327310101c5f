/** The valid-die set a map declares, resolved in its own frame, and the work cache its answers are shared from
    (map_overlay.parse_valid_die_ref, valid_die_chain_error, resolve_valid_die_set). */
module ValidDie {
  import opened Syntax
  import opened Frames
  import opened Wafer
  import opened FrameCaches
  import opened MapKeys

  const VALID_DIE_TABLE := "valid_die_ref"

  // ---- the declaration ---------------------------------------------------------------------------------------------

  datatype Declaration = NoDeclaration | Unreadable | Declares(mapId: string, table: Option<string>)

  function Stripped(t: Option<string>): string { match t case None => "" case Some(s) => Trim(s) }

  /** `parse_valid_die_ref`: only what is not there is no declaration. `home` is the declaring map's own table. */
  function ParseRef(raw: RawRef, home: Option<string>): Declaration {
    match raw
    case RefAbsent => NoDeclaration
    case RefText(text) => if Trim(text) == "" then Unreadable else Declares(Trim(text), home)
    case RefObject(table, mapId) =>
      if Stripped(mapId) == "" then Unreadable
      else Declares(Stripped(mapId), if Stripped(table) != "" then Some(Stripped(table)) else home)
    case RefOther => Unreadable
  }

  /** `apply_valid_die_ref`: what is stored for a declaration that is written. */
  function ApplyRef(ref: RawRef): RawRef {
    match ref
    case RefAbsent => RefAbsent
    case RefText(text) => if Trim(text) == "" then RefAbsent else RefText(Trim(text))
    case RefObject(table, mapId) =>
      if Stripped(mapId) == "" then RefAbsent
      else if Stripped(table) == "" then RefText(Stripped(mapId))
      else RefObject(Some(Stripped(table)), Some(Stripped(mapId)))
    case RefOther => RefAbsent
  }

  /** Writing and reading back is reading what was written: nothing unreadable is ever stored, a blank clears. */
  lemma {:induction false} WrittenReadsBack(ref: RawRef, home: Option<string>)
    ensures ParseRef(ApplyRef(ref), home)
            == if ParseRef(ref, home).Declares? then ParseRef(ref, home) else NoDeclaration
  {
    hide Trim;
    match ref
    case RefText(text) => TrimTwice(text);
    case RefObject(table, mapId) =>
      if mapId.Some? { TrimTwice(mapId.value); }
      if table.Some? { TrimTwice(table.value); }
    case _ =>
  }

  /** A text, padded or not, declares the map it names in the declarer's own table; an object the map and the table it
      names, or its own where it names none; a blank name is not read. */
  lemma {:induction false} DeclaresWhatItNames(name: string, table: Option<string>, home: Option<string>)
    ensures ParseRef(RefAbsent, home) == NoDeclaration && ParseRef(RefOther, home) == Unreadable
    ensures ParseRef(RefText(name), home) == if Trim(name) == "" then Unreadable else Declares(Trim(name), home)
    ensures ParseRef(RefObject(None, Some(name)), home) == ParseRef(RefText(name), home)
    ensures table.Some? && Trim(table.value) != "" ==>
              ParseRef(RefObject(table, Some(name)), home)
                == if Trim(name) == "" then Unreadable else Declares(Trim(name), Some(Trim(table.value)))
    ensures table.Some? && Trim(table.value) == "" ==>
              ParseRef(RefObject(table, Some(name)), home) == ParseRef(RefText(name), home)
    ensures ParseRef(RefObject(table, None), home) == Unreadable
  {
    hide Trim;
  }

  // ---- the uncached answer -----------------------------------------------------------------------------------------

  datatype MapName = MapName(table: string, key: string)
  datatype Stored = Stored(x: Option<int>, y: Option<int>)

  /** What one piece of work reads: whether the valid-die table is installed and bound, the stored records and cells. */
  datatype World = World(registered: bool, bound: bool, coordinates: bool, keyed: bool, canonical: string -> string,
                         metas: map<MapName, Meta>, cells: map<string, seq<Stored>>, failing: set<string>, cap: nat)

  /** A map asking for its valid dies. */
  datatype Asker = Asker(name: MapName, meta: Meta)

  datatype Answer = NotDeclared | SourceMissing | AlignUnavailable | RefUnavailable | NoData | Dies(cells: set<Point>)
    | Raised

  function StoredCells(w: World, key: string): seq<Stored> { if key in w.cells then w.cells[key] else [] }

  ghost function CarriedCells(p: Passage, rows: seq<Stored>): set<Point> {
    set i | 0 <= i < |rows| && rows[i].x.Some? && rows[i].y.Some? :: Carried(p, Point(rows[i].x.value, rows[i].y.value))
  }

  /** `valid_die_chain_error`: a map is not its own valid-die map, and a valid-die map declares none. */
  predicate ChainError(w: World, key: string, asker: MapName) {
    || (asker.table == VALID_DIE_TABLE && w.canonical(asker.key) == key)
    || (MapName(VALID_DIE_TABLE, key) in w.metas && w.metas[MapName(VALID_DIE_TABLE, key)].ref != RefAbsent)
  }

  /** `_resolve_valid_die_uncached`, every branch in its order. */
  ghost function Uncached(w: World, mapId: string, asker: Asker): Answer {
    if !w.registered || !w.bound || !w.coordinates then SourceMissing
    else
      var key := w.canonical(mapId);
      if !w.keyed then SourceMissing
      else if ChainError(w, key, asker.name) then RefUnavailable
      else if MapName(VALID_DIE_TABLE, key) !in w.metas then AlignUnavailable
      else
        var p := PassageOf(w.metas[MapName(VALID_DIE_TABLE, key)], asker.meta);
        if p == NoGround then AlignUnavailable
        else if p == NoRecord then Raised
        else if key in w.failing then SourceMissing
        else if |StoredCells(w, key)| > w.cap then RefUnavailable
        else
          var cells := CarriedCells(p, StoredCells(w, key));
          if cells == {} then NoData else Dies(cells)
  }

  /** The whole answer without a cache. */
  ghost function Resolved(w: World, asker: Asker): Answer {
    match ParseRef(asker.meta.ref, Some(asker.name.table))
    case NoDeclaration => NotDeclared
    case Unreadable => SourceMissing
    case Declares(mapId, _) => Uncached(w, mapId, asker)
  }

  /** The reference the asker names, as it is there: its record and its stored cells. */
  predicate Refers(w: World, mapId: string, reference: Meta, rows: seq<Stored>) {
    var key := w.canonical(mapId);
    && MapName(VALID_DIE_TABLE, key) in w.metas && w.metas[MapName(VALID_DIE_TABLE, key)] == reference
    && rows == if key in w.cells then w.cells[key] else []
  }

  /** An answer of dies is exactly the asker's coordinates of the dies of the reference's complete cells. */
  lemma {:induction false} DiesAreTheReferences(w: World, mapId: string, asker: Asker, reference: Meta,
                                                rows: seq<Stored>, v: Point)
    requires Uncached(w, mapId, asker).Dies? && Refers(w, mapId, reference, rows)
    ensures v in Uncached(w, mapId, asker).cells
        <==> exists i :: 0 <= i < |rows| && rows[i].x.Some? && rows[i].y.Some?
                      && SameDie(reference, Point(rows[i].x.value, rows[i].y.value), asker.meta, v)
  {
    var p := PassageOf(reference, asker.meta);
    hide SameDie, Carried, PassageOf, ChainError;
    forall i | 0 <= i < |rows| && rows[i].x.Some? && rows[i].y.Some?
      ensures SameDie(reference, Point(rows[i].x.value, rows[i].y.value), asker.meta, v)
          <==> v == Carried(p, Point(rows[i].x.value, rows[i].y.value))
    {
      CarriedIsTheSameDie(reference, asker.meta, Point(rows[i].x.value, rows[i].y.value), v);
    }
  }

  /** Nothing refuses: the table is there and bound and keyed, the map is not its own reference and the reference names
      none, it has its record and its passage leads on, its cells can be read and are not too many, and one of them is
      complete. */
  ghost predicate NothingRefuses(w: World, key: string, asker: Asker, rows: seq<Stored>) {
    && w.registered && w.bound && w.coordinates && w.keyed
    && !(asker.name.table == VALID_DIE_TABLE && w.canonical(asker.name.key) == key)
    && MapName(VALID_DIE_TABLE, key) in w.metas
    && var reference := w.metas[MapName(VALID_DIE_TABLE, key)];
    && reference.ref == RefAbsent
    && (PassageOf(reference, asker.meta).Straight? || PassageOf(reference, asker.meta).Moved?)
    && key !in w.failing && rows == (if key in w.cells then w.cells[key] else []) && |rows| <= w.cap
    && exists i :: 0 <= i < |rows| && rows[i].x.Some? && rows[i].y.Some?
  }

  /** There is an answer of dies exactly there. */
  lemma {:induction false} DiesExactlyWhere(w: World, mapId: string, asker: Asker)
    ensures Uncached(w, mapId, asker).Dies? <==> exists rows :: NothingRefuses(w, w.canonical(mapId), asker, rows)
  {
    hide PassageOf, Carried;
    var key := w.canonical(mapId);
    if MapName(VALID_DIE_TABLE, key) in w.metas {
      var rows := StoredCells(w, key);
      SomeCarried(PassageOf(w.metas[MapName(VALID_DIE_TABLE, key)], asker.meta), rows);
      if Uncached(w, mapId, asker).Dies? { assert NothingRefuses(w, key, asker, rows); }
    }
  }

  lemma {:induction false} SomeCarried(p: Passage, rows: seq<Stored>)
    ensures CarriedCells(p, rows) != {} <==> exists i :: 0 <= i < |rows| && rows[i].x.Some? && rows[i].y.Some?
  {
    hide Carried;
    if i :| 0 <= i < |rows| && rows[i].x.Some? && rows[i].y.Some? {
      assert Carried(p, Point(rows[i].x.value, rows[i].y.value)) in CarriedCells(p, rows);
    }
  }

  // ---- what the cache's key carries, and what it does not ----------------------------------------------------------

  datatype WorkKey = WorkKey(mapId: string, axes: Axes, own: Option<string>)

  function KeyOf(mapId: string, asker: Asker): WorkKey {
    WorkKey(mapId, FrameAxes(asker.meta), if asker.name.table == VALID_DIE_TABLE then Some(asker.name.key) else None)
  }

  /** Resolving comes down to the asker's own geometry: the reference is there and legal, its frame is another one of
      the same grid, and its own geometry is ground to compute on. */
  predicate AsksForGround(w: World, mapId: string, asker: Asker) {
    var key := w.canonical(mapId);
    && w.registered && w.bound && w.coordinates && w.keyed && !ChainError(w, key, asker.name)
    && MapName(VALID_DIE_TABLE, key) in w.metas
    && var ref := w.metas[MapName(VALID_DIE_TABLE, key)];
    FrameAxes(ref) != FrameAxes(asker.meta) && SameGrid(ref, asker.meta) && Computable(ref)
  }

  lemma {:induction false} KeyCarriesTheChain(w: World, mapId: string, a: Asker, b: Asker)
    requires KeyOf(mapId, a) == KeyOf(mapId, b)
    ensures ChainError(w, w.canonical(mapId), a.name) == ChainError(w, w.canonical(mapId), b.name)
  {
  }

  /** Two maps of one key get one answer exactly when their geometries are alike as ground to compute on, or the answer
      never comes down to the asker's ground. The key carries everything else. */
  lemma {:induction false} SharedAnswerExactly(w: World, mapId: string, a: Asker, b: Asker)
    requires KeyOf(mapId, a) == KeyOf(mapId, b)
    ensures Uncached(w, mapId, a) == Uncached(w, mapId, b)
        <==> (Computable(a.meta) == Computable(b.meta) || !AsksForGround(w, mapId, a))
  {
    KeyCarriesTheChain(w, mapId, a, b);
    var key := w.canonical(mapId);
    if MapName(VALID_DIE_TABLE, key) in w.metas {
      PassageNeedsGround(w.metas[MapName(VALID_DIE_TABLE, key)], a.meta, b.meta);
    }
    hide ChainError, PassageOf, Computable, CarriedCells, StoredCells, FrameAxes, SameGrid;
  }

  // ---- a case in point ---------------------------------------------------------------------------------------------

  const SPEC := Spec(300.0, 5.0, 5.0, 0.0, 0.0, 3.0)
  const REFERENCE := Meta(180, "front", false, Some(Grid(3, 3, 1, 1)), PhysRead(SPEC), false, false, false, RefAbsent)
  const MEASURED := Meta(0, "front", false, Some(Grid(3, 3, 1, 1)), PhysRead(SPEC), false, false, false, RefText("T"))
  const FILLED_IN := MEASURED.(autoRegistered := true)

  const MEASURING := Asker(MapName("dt_map", "A"), MEASURED)
  const FILLING := Asker(MapName("dt_map", "B"), FILLED_IN)

  /** A map someone measured and one registered with the same numbers by nobody share a key and not an answer. */
  lemma {:induction false} ProvenanceIsNotInTheKey(w: World)
    requires w.registered && w.bound && w.coordinates && w.keyed && w.canonical("T") == "T"
    requires w.metas == map[MapName(VALID_DIE_TABLE, "T") := REFERENCE]
    ensures KeyOf("T", MEASURING) == KeyOf("T", FILLING) && Resolved(w, MEASURING) != Resolved(w, FILLING)
  {
    hide Uncached, KeyOf, Computable, ChainError, SameGrid, FrameAxes;
    OneKey();
    ReferenceDiffers(w);
    SharedAnswerExactly(w, "T", MEASURING, FILLING);
    assert Trim("T") == "T";
  }

  lemma {:induction false} OneKey()
    ensures KeyOf("T", MEASURING) == KeyOf("T", FILLING)
    ensures Computable(MEASURED) && !Computable(FILLED_IN)
  {
  }

  lemma {:induction false} ReferenceDiffers(w: World)
    requires w.canonical("T") == "T" && w.metas == map[MapName(VALID_DIE_TABLE, "T") := REFERENCE]
    ensures !ChainError(w, w.canonical("T"), MapName("dt_map", "A"))
    ensures SameGrid(REFERENCE, MEASURED) && Computable(REFERENCE)
    ensures FrameAxes(REFERENCE) != FrameAxes(MEASURED)
  {
    assert FrameAxes(REFERENCE).rotation != FrameAxes(MEASURED).rotation;
    assert VALID_DIE_TABLE[0] != "dt_map"[0];
  }

  // ---- the cached resolution ---------------------------------------------------------------------------------------

  const CACHE_MAX := 64

  function Read(w: World, n: MapName): Option<Meta> { if n in w.metas then Some(w.metas[n]) else None }

  /** Every answer shared is the uncached one of the asker it was resolved for. */
  ghost predicate Shares(w: World, answers: map<WorkKey, Answer>, askers: map<WorkKey, Asker>) {
    && answers.Keys == askers.Keys
    && forall k :: k in answers ==>
         && Names(askers[k], k.mapId) && KeyOf(k.mapId, askers[k]) == k
         && answers[k] == Uncached(w, k.mapId, askers[k])
  }

  lemma {:induction false} SharesNothing(w: World)
    ensures Shares(w, map[], map[])
  {
  }

  lemma {:induction false} SharesOneMore(w: World, answers: map<WorkKey, Answer>, askers: map<WorkKey, Asker>,
                                         mapId: string, asker: Asker, a: Answer)
    requires Shares(w, answers, askers) && Names(asker, mapId) && a == Uncached(w, mapId, asker)
    ensures var key := KeyOf(mapId, asker); Shares(w, answers[key := a], askers[key := asker])
  {
    hide Uncached, KeyOf, Names;
    KeyNames(mapId, asker);
  }

  /** A map asked about, with the record a caller may hand along. */
  datatype Ask = Ask(name: MapName, given: Option<Meta>)

  function RecordOf(w: World, ask: Ask): Option<Meta> { if ask.given.Some? then ask.given else Read(w, ask.name) }

  /** What an ask is answered without a cache; a map with no record declares nothing. */
  ghost function Told(w: World, ask: Ask): Answer {
    match RecordOf(w, ask) case None => NotDeclared case Some(meta) => Resolved(w, Asker(ask.name, meta))
  }

  /** The maps a run of asks resolves. */
  function Met(w: World, asks: seq<Ask>): set<Asker> {
    set ask | ask in asks && RecordOf(w, ask).Some? :: Asker(ask.name, RecordOf(w, ask).value)
  }

  /** One piece of work: the frames' caches, the answers shared, and the records read once. */
  class Work {
    const world: World
    const frames: Caches
    var answers: map<WorkKey, Answer>
    var metas: map<MapName, Option<Meta>>
    /** The asker each shared answer was resolved for. */
    ghost var askers: map<WorkKey, Asker>

    ghost predicate Valid()
      reads this, frames
    {
      && frames.Valid()
      && (forall n :: n in metas ==> metas[n] == Read(world, n))
      && Shares(world, answers, askers)
    }

    constructor (world: World, frames: Caches)
      requires frames.Valid()
      ensures Valid() && this.world == world && this.frames == frames && answers == map[]
    {
      this.world, this.frames := world, frames;
      answers, metas, askers := map[], map[], map[];
    }

    /** `load_map_meta_cached` */
    method MetaOf(n: MapName) returns (m: Option<Meta>)
      requires Valid()
      modifies this`metas
      ensures Valid() && m == Read(world, n)
    {
      if n !in metas {
        metas := metas[n := Read(world, n)];
      }
      m := metas[n];
    }

    /** `_resolve_valid_die_uncached` */
    method ResolveUncached(mapId: string, asker: Asker) returns (a: Answer)
      requires Valid()
      modifies frames
      ensures Valid() && a == Uncached(world, mapId, asker)
    {
      hide PassageOf, KeyOf, Read, Carried, ChainError;
      if !world.registered || !world.bound || !world.coordinates {
        return SourceMissing;
      }
      var key := world.canonical(mapId);
      if !world.keyed {
        return SourceMissing;
      }
      if ChainError(world, key, asker.name) {
        return RefUnavailable;
      }
      if MapName(VALID_DIE_TABLE, key) !in world.metas {
        return AlignUnavailable;
      }
      var p := frames.Bridge(world.metas[MapName(VALID_DIE_TABLE, key)], asker.meta);
      if p.NoGround? {
        return AlignUnavailable;
      }
      if p.NoRecord? {
        return Raised;
      }
      if key in world.failing {
        return SourceMissing;
      }
      var rows := StoredCells(world, key);
      if |rows| > world.cap {
        return RefUnavailable;
      }
      var cells := Carry(p, rows);
      a := if cells == {} then NoData else Dies(cells);
    }

    /** The cells of a reference with both coordinates, carried over one by one. */
    static method Carry(p: Passage, rows: seq<Stored>) returns (cells: set<Point>)
      ensures cells == CarriedCells(p, rows)
    {
      hide Carried;
      cells := {};
      for i := 0 to |rows|
        invariant cells == CarriedCells(p, rows[..i])
      {
        assert rows[..i + 1][..i] == rows[..i] && rows[..i + 1][i] == rows[i];
        CarriedGrows(p, rows[..i], rows[i]);
        assert rows[..i + 1] == rows[..i] + [rows[i]];
        if rows[i].x.Some? && rows[i].y.Some? {
          cells := cells + {Carried(p, Point(rows[i].x.value, rows[i].y.value))};
        }
      }
      assert rows[..|rows|] == rows;
    }

    /** `resolve_valid_die_set`: an answer shared under the key, or the uncached one - kept unless it raised. */
    method Resolve(name: MapName, given: Option<Meta>) returns (a: Answer, ghost m: Option<Meta>)
      requires Valid()
      modifies this, frames
      ensures Valid() && m == if given.Some? then given else Read(world, name)
      ensures m.None? ==> a == NotDeclared && answers == old(answers) && askers == old(askers)
      ensures m.Some? ==> var asker := Asker(name, m.value);
                          && SharedOrOwn(world, old(askers), asker, a)
                          && forall k :: k in askers ==>
                               (k in old(askers) && askers[k] == old(askers)[k]) || askers[k] == asker
    {
      hide Uncached, KeyOf, Read;
      var meta := given;
      if given.None? {
        meta := MetaOf(name);
      }
      m := meta;
      if meta.None? {
        return NotDeclared, m;
      }
      var asker := Asker(name, meta.value);
      match ParseRef(meta.value.ref, Some(name.table)) {
        case NoDeclaration => return NotDeclared, m;
        case Unreadable => return SourceMissing, m;
        case Declares(mapId, _) =>
          var key := KeyOf(mapId, asker);
          KeyNames(mapId, asker);
          if key in answers {
            assert key in old(askers);
            return answers[key], m;
          }
          a := ResolveUncached(mapId, asker);
          if a != Raised {
            Keep(mapId, asker, a);
          }
      }
    }

    /** An answer shared under its key from now on; a full cache is emptied first. */
    method Keep(mapId: string, asker: Asker, a: Answer)
      requires Valid() && a == Uncached(world, mapId, asker) && Names(asker, mapId)
      modifies this
      ensures Valid()
      ensures forall k :: k in askers ==> (k in old(askers) && askers[k] == old(askers)[k]) || askers[k] == asker
    {
      hide Uncached, KeyOf, Read, Names, Shares;
      SharesNothing(world);
      var key := KeyOf(mapId, asker);
      if |answers| + |metas| >= CACHE_MAX {
        answers, metas, askers := map[], map[], map[];
      }
      SharesOneMore(world, answers, askers, mapId, asker, a);
      answers, askers := answers[key := a], askers[key := asker];
    }

    /** Any run of resolutions on any cache, with records handed along or looked up: as long as maps of one key, met now
        or before, are alike as ground to compute on or are not asked for it, every answer is the uncached one. */
    method ResolveAll(asks: seq<Ask>) returns (told: seq<Answer>)
      requires Valid()
      requires GroundsAlike(world, Met(world, asks) + askers.Values)
      modifies this, frames
      ensures Valid()
      ensures told == seq(|asks|, i requires 0 <= i < |asks| => Told(world, asks[i]))
    {
      hide Uncached, KeyOf, Read, Resolved, Computable, AsksForGround, Shares;
      told := [];
      ghost var met := Met(world, asks) + askers.Values;
      for i := 0 to |asks|
        invariant Valid()
        invariant |told| == i && forall j :: 0 <= j < i ==> told[j] == Told(world, asks[j])
        invariant forall k :: k in askers ==> askers[k] in met
      {
        ghost var was := askers;
        var a, m := Resolve(asks[i].name, asks[i].given);
        assert asks[i] in asks && m == RecordOf(world, asks[i]);
        if m.Some? {
          SharedIsOwn(world, was, met, Asker(asks[i].name, m.value), a);
        }
        told := told + [a];
      }
    }
  }

  lemma {:induction false} KeyNames(mapId: string, asker: Asker)
    ensures KeyOf(mapId, asker).mapId == mapId
  {
  }

  lemma {:induction false} CarriedGrows(p: Passage, rows: seq<Stored>, row: Stored)
    ensures CarriedCells(p, rows + [row]) == CarriedCells(p, rows)
          + if row.x.Some? && row.y.Some? then {Carried(p, Point(row.x.value, row.y.value))} else {}
  {
    hide Carried;
    var all := rows + [row];
    assert all[|rows|] == row;
    forall i | 0 <= i < |rows| ensures all[i] == rows[i] {}
    forall v | v in CarriedCells(p, all) && v !in CarriedCells(p, rows)
      ensures row.x.Some? && row.y.Some? && v == Carried(p, Point(row.x.value, row.y.value))
    {
      var i :| 0 <= i < |all| && all[i].x.Some? && all[i].y.Some?
               && v == Carried(p, Point(all[i].x.value, all[i].y.value));
      assert i == |rows|;
    }
  }

  /** The map declares that key. */
  predicate Names(a: Asker, mapId: string) {
    var d := ParseRef(a.meta.ref, Some(a.name.table));
    d.Declares? && d.mapId == mapId
  }

  /** The answer is what the first asker of the key was resolved to where there was one, else the asker's own. */
  ghost predicate SharedOrOwn(w: World, askers: map<WorkKey, Asker>, asker: Asker, a: Answer) {
    match ParseRef(asker.meta.ref, Some(asker.name.table))
    case Declares(mapId, _) =>
      var key := KeyOf(mapId, asker);
      if key in askers then
        Names(askers[key], mapId) && KeyOf(mapId, askers[key]) == key && a == Uncached(w, mapId, askers[key])
      else a == Uncached(w, mapId, asker)
    case _ => a == Resolved(w, asker)
  }

  /** Maps that share a key are alike as ground, or their answer does not come down to it. */
  predicate GroundsAlike(w: World, met: set<Asker>) {
    forall a, b :: a in met && b in met && SharesKey(a, b) ==>
      Computable(a.meta) == Computable(b.meta) || !AsksForGround(w, ParseRef(a.meta.ref, Some(a.name.table)).mapId, a)
  }

  predicate SharesKey(a: Asker, b: Asker) {
    var d := ParseRef(a.meta.ref, Some(a.name.table));
    d.Declares? && Names(b, d.mapId) && KeyOf(d.mapId, a) == KeyOf(d.mapId, b)
  }

  lemma {:induction false} SharedIsOwn(w: World, askers: map<WorkKey, Asker>, met: set<Asker>, asker: Asker, a: Answer)
    requires GroundsAlike(w, met) && asker in met && forall k :: k in askers ==> askers[k] in met
    requires SharedOrOwn(w, askers, asker, a)
    ensures a == Resolved(w, asker)
  {
    match ParseRef(asker.meta.ref, Some(asker.name.table))
    case Declares(mapId, _) =>
      var key := KeyOf(mapId, asker);
      if key in askers {
        assert SharesKey(asker, askers[key]);
        SharedAnswerExactly(w, mapId, asker, askers[key]);
      }
    case _ =>
  }
}
