/** Taking back what a source no longer derives: the plan, its budget, its application in chunks, and whole histories of
    runs by several sources (dt_map_derivation.derived_keys_of, plan_retraction, apply_retraction). */
module Retraction {
  import opened Syntax

  /** A row of the derived map: its business key, the source it carries, and whether a human overwrote a cell of it. */
  datatype MapRow = MapRow(key: string, source: string, touched: bool)

  type Table = map<nat, MapRow>

  /** The business key is unique. */
  ghost predicate KeysDistinct(t: Table) { forall a, b :: a in t && b in t && t[a].key == t[b].key ==> a == b }

  // ---- the plan ----------------------------------------------------------------------------------------------------

  datatype Budget = Budget(fraction: real, population: nat)

  function Owned(t: Table, source: string): set<nat> { set id | id in t && t[id].source == source }
  function Stale(t: Table, source: string, keys: set<string>): set<nat> {
    set id | id in Owned(t, source) && t[id].key !in keys
  }
  function Protected(t: Table, source: string, keys: set<string>): set<nat> {
    set id | id in Stale(t, source, keys) && t[id].touched
  }
  function Retractable(t: Table, source: string, keys: set<string>): set<nat> {
    set id | id in Stale(t, source, keys) && !t[id].touched
  }

  /** The part `n` is of `p`, 0 of nothing. */
  function ShareOf(n: nat, p: nat): real { if p > 0 then n as real / p as real else 0.0 }

  /** More than the budgeted share of a population large enough to judge. */
  predicate Declined(t: Table, source: string, keys: set<string>, b: Budget) {
    var population := |Owned(t, source)|;
    population >= b.population && ShareOf(|Retractable(t, source, keys)|, population) > b.fraction
  }

  function ToDelete(t: Table, source: string, keys: set<string>, b: Budget): set<nat> {
    if Declined(t, source, keys, b) then {} else Retractable(t, source, keys)
  }

  /** A row of the source, not derived again and not touched. */
  predicate StaleRow(r: MapRow, source: string, keys: set<string>) {
    r.source == source && r.key !in keys && !r.touched
  }

  /** More than the share of what the source owns; of nothing owned, the share is none. */
  predicate OverShare(n: nat, owned: nat, share: real) {
    if owned == 0 then 0.0 > share else n as real > share * owned as real
  }

  lemma {:induction false} OverShareIs(n: nat, owned: nat, share: real)
    ensures ShareOf(n, owned) > share <==> OverShare(n, owned, share)
  {
    if owned > 0 {
      var p := owned as real;
      assert n as real / p * p == n as real;
      if n as real / p > share { assert (n as real / p - share) * p > 0.0; }
      else { assert (share - n as real / p) * p >= 0.0; }
    }
  }

  datatype Plan = Plan(population: nat, stale: nat, held: nat, retractable: nat, declined: bool, ids: seq<nat>)

  /** The ids a plan lists, each once. */
  ghost predicate Lists(ids: seq<nat>, s: set<nat>) {
    (forall id :: id in ids <==> id in s) && forall i, j :: 0 <= i < j < |ids| ==> ids[i] != ids[j]
  }

  const CHUNK := 1000

  function IdSet(ids: seq<nat>): set<nat> { set id | id in ids }

  /** The derived map's table. */
  class DtMap {
    var rows: Table

    /** `plan_retraction`: decides and writes nothing. */
    method PlanRetraction(source: string, keys: set<string>, b: Budget) returns (p: Plan)
      ensures p.population == |Owned(rows, source)| && p.stale == |Stale(rows, source, keys)|
      ensures p.held == |Protected(rows, source, keys)| && p.retractable == |Retractable(rows, source, keys)|
      ensures p.declined <==> Declined(rows, source, keys, b)
      ensures Lists(p.ids, ToDelete(rows, source, keys, b))
      ensures p.declined <==> p.population >= b.population && OverShare(p.retractable, p.population, b.fraction)
      ensures p.declined ==> p.ids == []
      ensures !p.declined ==> forall id :: id in p.ids <==> id in rows && StaleRow(rows[id], source, keys)
    {
      OverShareIs(|Retractable(rows, source, keys)|, |Owned(rows, source)|, b.fraction);
      var owned := Owned(rows, source);
      var stale := Stale(rows, source, keys);
      var held := Protected(rows, source, keys);
      var retractable := Retractable(rows, source, keys);
      var population := |owned|;
      var declined := population >= b.population && ShareOf(|retractable|, population) > b.fraction;
      var ids: seq<nat> := [];
      if !declined {
        ids := Listed(retractable);
      }
      p := Plan(population, |stale|, |held|, |retractable|, declined, ids);
    }

    static method Listed(s: set<nat>) returns (ids: seq<nat>)
      ensures Lists(ids, s)
    {
      ids := [];
      var left := s;
      while left != {}
        invariant left <= s && Lists(ids, s - left)
        decreases |left|
      {
        var id :| id in left;
        ids, left := ids + [id], left - {id};
      }
    }

    /** One chunk counted and removed. */
    method PurgeRows(ids: seq<nat>) returns (there: nat)
      modifies this
      ensures rows == old(rows) - IdSet(ids) && there == |IdSet(ids) * old(rows).Keys|
    {
      there := |IdSet(ids) * rows.Keys|;
      rows := rows - IdSet(ids);
    }

    /** `apply_retraction`: exactly the ids the plan named, a chunk at a time, counting the rows that were there. */
    method ApplyRetraction(ids: seq<nat>) returns (deleted: nat)
      requires forall i, j :: 0 <= i < j < |ids| ==> ids[i] != ids[j]
      modifies this
      ensures rows == old(rows) - IdSet(ids)
      ensures deleted == |IdSet(ids) * old(rows).Keys|
    {
      ghost var was := rows;
      deleted := 0;
      var i := 0;
      assert Taken(was, rows, ids, 0, 0) by { assert IdSet(ids[..0]) == {}; }
      while i < |ids|
        invariant 0 <= i <= |ids| && Taken(was, rows, ids, i, deleted)
      {
        hide Taken, IdSet;
        var next := if i + CHUNK < |ids| then i + CHUNK else |ids|;
        TakenGrows(was, rows, ids, i, next, deleted);
        var there := PurgeRows(ids[i..next]);
        deleted := deleted + there;
        i := next;
      }
      assert ids[..|ids|] == ids;
    }
  }

  /** The first `i` ids are taken out and the rows that were there counted. */
  ghost predicate Taken(was: Table, now: Table, ids: seq<nat>, i: nat, deleted: nat)
    requires i <= |ids|
  {
    now == was - IdSet(ids[..i]) && deleted == |IdSet(ids[..i]) * was.Keys|
  }

  lemma {:induction false} TakenGrows(was: Table, now: Table, ids: seq<nat>, i: nat, next: nat, deleted: nat)
    requires i <= next <= |ids| && forall a, b :: 0 <= a < b < |ids| ==> ids[a] != ids[b]
    requires Taken(was, now, ids, i, deleted)
    ensures Taken(was, now - IdSet(ids[i..next]), ids, next, deleted + |IdSet(ids[i..next]) * now.Keys|)
  {
    var done, chunk := IdSet(ids[..i]), IdSet(ids[i..next]);
    ChunkIsNew(ids, i, next);
    hide IdSet;
    ChunkCounts(done, chunk, was.Keys);
    MinusTwice(was, done, chunk);
  }

  lemma {:induction false} MinusTwice(t: Table, a: set<nat>, b: set<nat>)
    requires a !! b
    ensures t - a - b == t - (a + b) && b * (t - a).Keys == b * t.Keys
  {
    assert (t - a - b).Keys == (t - (a + b)).Keys;
    assert (t - a).Keys == t.Keys - a;
  }

  lemma {:induction false} ChunkIsNew(ids: seq<nat>, i: nat, next: nat)
    requires i <= next <= |ids| && forall a, b :: 0 <= a < b < |ids| ==> ids[a] != ids[b]
    ensures IdSet(ids[..next]) == IdSet(ids[..i]) + IdSet(ids[i..next]) && IdSet(ids[..i]) !! IdSet(ids[i..next])
  {
    assert ids[..next] == ids[..i] + ids[i..next];
    forall a | 0 <= a < i ensures ids[a] !in ids[i..next] {
      assert forall k :: 0 <= k < next - i ==> ids[i..next][k] == ids[i + k] != ids[a];
    }
  }

  lemma {:induction false} ChunkCounts(done: set<nat>, chunk: set<nat>, keys: set<nat>)
    requires done !! chunk
    ensures |(done + chunk) * keys| == |done * keys| + |chunk * keys|
  {
    assert (done + chunk) * keys == done * keys + chunk * keys;
    assert done * keys !! chunk * keys;
  }

  /** `derived_keys_of`: the keys the write came back with, or a refusal when one came back without. */
  method DerivedKeysOf(items: seq<Option<string>>, blank: string -> bool) returns (keys: Option<set<string>>)
    ensures keys.None? <==> exists i :: 0 <= i < |items| && Unkeyed(items[i], blank)
    ensures keys.Some? ==> forall k :: k in keys.value <==> Some(k) in items
  {
    var found, unkeyed := {}, 0;
    for i := 0 to |items|
      invariant unkeyed > 0 <==> exists j :: 0 <= j < i && Unkeyed(items[j], blank)
      invariant unkeyed >= 0
      invariant unkeyed == 0 ==> forall k :: k in found <==> Some(k) in items[..i]
    {
      if Unkeyed(items[i], blank) {
        unkeyed := unkeyed + 1;
      } else {
        found := found + {items[i].value};
      }
    }
    assert items[..|items|] == items;
    keys := if unkeyed > 0 then None else Some(found);
  }

  predicate Unkeyed(item: Option<string>, blank: string -> bool) { item.None? || blank(item.value) }

  // ---- one run -----------------------------------------------------------------------------------------------------

  /** What the batch write of a run leaves: every key it derived is there and carries the run's source, the rest
      stays. */
  ghost predicate WrittenBy(before: Table, after: Table, source: string, keys: set<string>) {
    && KeysDistinct(after) && before.Keys <= after.Keys
    && (forall id :: id in before ==>
          after[id] == if before[id].key in keys then before[id].(source := source) else before[id])
    && (forall id :: id in after && id !in before ==>
          after[id].key in keys && after[id].source == source && !after[id].touched)
    && (forall k :: k in keys ==> HasKey(after, k))
  }

  ghost predicate HasKey(t: Table, key: string) { exists id :: id in t && t[id].key == key }

  /** A row a plan takes carried the run's source, was not touched and was not just derived; and no plan that acts takes
      more than its share. */
  lemma {:induction false} PlanTakesOnlyItsOwn(t: Table, source: string, keys: set<string>, b: Budget)
    ensures forall id :: id in ToDelete(t, source, keys, b) ==>
              id in t && t[id].source == source && !t[id].touched && t[id].key !in keys
    ensures |Owned(t, source)| >= b.population ==>
              |ToDelete(t, source, keys, b)| == 0
              || |ToDelete(t, source, keys, b)| as real <= b.fraction * |Owned(t, source)| as real
  {
    var n, p := |Retractable(t, source, keys)|, |Owned(t, source)|;
    SubsetIsNoLarger(Retractable(t, source, keys), Owned(t, source));
    if p > 0 && ShareOf(n, p) <= b.fraction { Share(n, p, b.fraction); }
  }

  lemma {:induction false} Share(n: nat, p: nat, f: real)
    requires p > 0 && ShareOf(n, p) <= f
    ensures n as real <= f * p as real
  {
    var q := ShareOf(n, p);
    assert q * p as real == n as real;
    assert (f - q) * p as real >= 0.0;
  }

  lemma {:induction false} SubsetIsNoLarger(a: set<nat>, b: set<nat>)
    requires a <= b
    ensures |a| <= |b|
  {
    assert b == a + (b - a);
  }

  /** After a run that was not declined, its source owns exactly the keys it derived and the rows that are protected. */
  lemma {:induction false} RunLeavesDerivedAndProtected(before: Table, t: Table, source: string, keys: set<string>,
                                                        b: Budget)
    requires WrittenBy(before, t, source, keys) && !Declined(t, source, keys, b)
    ensures var after := t - ToDelete(t, source, keys, b);
            && (forall id :: id in Owned(after, source) <==>
                  id in t && t[id].source == source && (t[id].key in keys || t[id].touched))
            && (forall k :: k in keys ==> exists id :: id in Owned(after, source) && after[id].key == k)
  {
    var after := t - ToDelete(t, source, keys, b);
    forall k | k in keys ensures exists id :: id in Owned(after, source) && after[id].key == k {
      var id :| id in t && t[id].key == k;
      assert id in before ==> before[id].key in keys;
      assert id in after;
      assert id in Owned(after, source);
    }
  }

  /** After a run whose stale rows are within the budget none of them is left, and every other row is. */
  lemma {:induction false} WithinBudgetNoneIsLeft(t: Table, source: string, keys: set<string>, b: Budget)
    requires var owned := set id | id in t && t[id].source == source;
             var stale := set id | id in t && StaleRow(t[id], source, keys);
             |owned| < b.population || !OverShare(|stale|, |owned|, b.fraction)
    ensures var after := t - ToDelete(t, source, keys, b);
            && (forall id :: id in after <==> id in t && !StaleRow(t[id], source, keys))
            && (forall id :: id in after ==> after[id] == t[id])
  {
    assert Owned(t, source) == set id | id in t && t[id].source == source;
    assert Retractable(t, source, keys) == set id | id in t && StaleRow(t[id], source, keys);
    OverShareIs(|Retractable(t, source, keys)|, |Owned(t, source)|, b.fraction);
  }

  // ---- whole histories ---------------------------------------------------------------------------------------------

  /** A run by one source - written, planned and applied with no write between - or a human's edit of one row. */
  datatype Event = Ran(source: string, keys: set<string>, declined: bool) | Touched(key: string)

  ghost predicate Follows(before: Table, e: Event, after: Table, b: Budget) {
    match e
    case Ran(source, keys, declined) =>
      exists t :: WrittenBy(before, t, source, keys) && declined == Declined(t, source, keys, b)
               && after == t - ToDelete(t, source, keys, b)
    case Touched(key) =>
      after == map id | id in before :: if before[id].key == key then before[id].(touched := true) else before[id]
  }

  /** The tables of a history, from an empty one. */
  ghost predicate History(tables: seq<Table>, events: seq<Event>, b: Budget) {
    && |tables| == |events| + 1 && tables[0] == map[]
    && forall i :: 0 <= i < |events| ==> Follows(tables[i], events[i], tables[i + 1], b)
  }

  /** In every history a row goes only by a run of the source it carries that was not declined, that did not derive its
      key and found it untouched. */
  lemma {:induction false} DeletedOnlyByItsSource(tables: seq<Table>, events: seq<Event>, b: Budget, i: nat, id: nat)
    requires History(tables, events, b) && i < |events| && id in tables[i] && id !in tables[i + 1]
    ensures var row, e := tables[i][id], events[i];
            e.Ran? && e.source == row.source && !e.declined && row.key !in e.keys && !row.touched
  {
    var before, after := tables[i], tables[i + 1];
    assert Follows(before, events[i], after, b);
    match events[i]
    case Ran(source, keys, declined) =>
      var t :| WrittenBy(before, t, source, keys) && declined == Declined(t, source, keys, b)
            && after == t - ToDelete(t, source, keys, b);
      PlanTakesOnlyItsOwn(t, source, keys, b);
      assert id in t && id in ToDelete(t, source, keys, b);
    case Touched(_) =>
  }

  datatype Entry = Entry(source: string, touched: bool)

  /** Whose a key is after a history, from the events alone. */
  function Ledger(events: seq<Event>, key: string): Option<Entry> {
    if events == [] then None else Moved(Ledger(events[..|events| - 1], key), events[|events| - 1], key)
  }

  /** What one event makes of a key. */
  function Moved(was: Option<Entry>, e: Event, key: string): Option<Entry> {
    match e
    case Ran(source, keys, declined) =>
      if key in keys then Some(Entry(source, was.Some? && was.value.touched))
      else if was.Some? && was.value.source == source && !was.value.touched && !declined then None
      else was
    case Touched(k) => if k == key && was.Some? then Some(was.value.(touched := true)) else was
  }

  /** The table says of a key what the ledger says. */
  ghost predicate Says(t: Table, key: string, entry: Option<Entry>) {
    match entry
    case None => !HasKey(t, key)
    case Some(e) => exists id :: id in t && t[id] == MapRow(key, e.source, e.touched)
  }

  lemma {:induction false} RunFollowsLedger(before: Table, t: Table, source: string, keys: set<string>, b: Budget,
                                            key: string,
                                            was: Option<Entry>)
    requires KeysDistinct(before) && WrittenBy(before, t, source, keys) && Says(before, key, was)
    ensures Says(t - ToDelete(t, source, keys, b), key,
                 if key in keys then Some(Entry(source, was.Some? && was.value.touched))
                 else if was.Some? && was.value.source == source && !was.value.touched && !Declined(t, source, keys, b)
                   then None
                 else was)
  {
    hide Declined;
    var after := t - ToDelete(t, source, keys, b);
    if key in keys {
      var id :| id in t && t[id].key == key;
      if was.Some? {
        var prior :| prior in before && before[prior] == MapRow(key, was.value.source, was.value.touched);
        assert t[prior].key == key;
        assert id == prior;
      } else {
        assert id !in before;
      }
      assert id in after && after[id] == MapRow(key, source, was.Some? && was.value.touched);
    } else if was.Some? {
      var id :| id in before && before[id] == MapRow(key, was.value.source, was.value.touched);
      assert t[id] == before[id];
      if id in after { assert after[id] == t[id]; }
    } else {
      forall id | id in t ensures t[id].key != key {
        if id in before { assert before[id].key != key; }
      }
    }
  }

  lemma {:induction false} StepKeepsDistinct(before: Table, e: Event, after: Table, b: Budget)
    requires KeysDistinct(before) && Follows(before, e, after, b)
    ensures KeysDistinct(after)
  {
    hide Declined, ToDelete;
  }

  lemma {:induction false} StepFollowsLedger(before: Table, e: Event, after: Table, b: Budget, key: string,
                                             events: seq<Event>)
    requires KeysDistinct(before) && Follows(before, e, after, b) && Says(before, key, Ledger(events, key))
    ensures Says(after, key, Ledger(events + [e], key))
  {
    var was := Ledger(events, key);
    assert (events + [e])[..|events|] == events;
    match e
    case Ran(source, keys, declined) =>
      var t :| WrittenBy(before, t, source, keys) && declined == Declined(t, source, keys, b)
            && after == t - ToDelete(t, source, keys, b);
      RunFollowsLedger(before, t, source, keys, b, key, was);
    case Touched(k) =>
      if was.Some? {
        var id :| id in before && before[id] == MapRow(key, was.value.source, was.value.touched);
        assert id in after;
      }
  }

  lemma {:induction false} KeysStayDistinct(tables: seq<Table>, events: seq<Event>, b: Budget)
    requires History(tables, events, b)
    ensures KeysDistinct(tables[|events|])
    decreases |events|
  {
    hide Follows;
    if events != [] {
      var n := |events| - 1;
      assert History(tables[..n + 1], events[..n], b);
      KeysStayDistinct(tables[..n + 1], events[..n], b);
      StepKeepsDistinct(tables[n], events[n], tables[n + 1], b);
    }
  }

  /** Over every history the table holds exactly what its events say: a key is there, with its source and its mark, or
      it is not. */
  lemma {:induction false} TableIsTheLedger(tables: seq<Table>, events: seq<Event>, b: Budget, key: string)
    requires History(tables, events, b)
    ensures Says(tables[|events|], key, Ledger(events, key))
    decreases |events|
  {
    hide Follows, Ledger;
    if events == [] {
      EmptyLedger(key);
    } else {
      var n := |events| - 1;
      assert History(tables[..n + 1], events[..n], b);
      TableIsTheLedger(tables[..n + 1], events[..n], b, key);
      KeysStayDistinct(tables[..n + 1], events[..n], b);
      StepFollowsLedger(tables[n], events[n], tables[n + 1], b, key, events[..n]);
      assert events[..n] + [events[n]] == events;
    }
  }

  lemma {:induction false} EmptyLedger(key: string)
    ensures Ledger([], key) == None
  {
  }

  /** Event `i` derived the key for a source, and no event since derived it again or took it back. */
  ghost predicate LastWord(events: seq<Event>, key: string, i: int) {
    && 0 <= i < |events| && events[i].Ran? && key in events[i].keys
    && (forall j :: i < j < |events| && events[j].Ran? ==> key !in events[j].keys)
    && (forall j :: i < j < |events| && events[j].Ran?
                    && events[j].source == events[i].source && !events[j].declined ==>
          Ledger(events[..j], key).Some? && Ledger(events[..j], key).value.touched)
  }

  /** How the last word moves with one more event. */
  lemma {:induction false} LastWordStep(events: seq<Event>, key: string, i: int)
    requires events != []
    ensures var n := |events| - 1;
            var past, last := events[..n], events[n];
            var again := last.Ran? && key in last.keys;
            var was := Ledger(past, key);
            LastWord(events, key, i) <==>
              if again then i == n
              else
                && LastWord(past, key, i)
                && (last.Ran? && last.source == past[i].source && !last.declined ==> was.Some? && was.value.touched)
  {
    var n := |events| - 1;
    var past := events[..n];
    hide Ledger;
    if 0 <= i < n {
      forall j | 0 <= j < n ensures past[..j] == events[..j] && past[j] == events[j] {}
    }
  }

  /** A key is a source's exactly when that source was the last to derive it, and every run of it since was declined or
      found the row touched. */
  lemma {:induction false} OwnedExactlyByLastWord(events: seq<Event>, key: string, source: string)
    ensures (Ledger(events, key).Some? && Ledger(events, key).value.source == source)
        <==> exists i :: LastWord(events, key, i) && events[i].source == source
    decreases |events|
  {
    if events == [] {
      return;
    }
    var n := |events| - 1;
    var past, last := events[..n], events[n];
    OwnedExactlyByLastWord(past, key, source);
    forall i ensures LastWord(past, key, i) ==> 0 <= i < n && past[i] == events[i] && events[i].Ran? {}
    forall i ensures LastWord(events, key, i) ==> 0 <= i <= n && events[i].Ran? {}
    LedgerStep(events, key);
    hide Ledger, LastWord;
    if last.Ran? && key in last.keys {
      LastWordStep(events, key, n);
      forall i ensures LastWord(events, key, i) ==> i == n { LastWordStep(events, key, i); }
    } else {
      forall i ensures LastWord(events, key, i) ==> LastWord(past, key, i) { LastWordStep(events, key, i); }
      if Ledger(events, key).Some? && Ledger(events, key).value.source == source {
        var i :| LastWord(past, key, i) && past[i].source == source;
        LastWordStep(events, key, i);
        assert LastWord(events, key, i);
      }
      if exists i :: LastWord(events, key, i) && events[i].source == source {
        var i :| LastWord(events, key, i) && events[i].source == source;
        LastWordStep(events, key, i);
      }
    }
  }

  lemma {:induction false} LedgerStep(events: seq<Event>, key: string)
    requires events != []
    ensures var was := Ledger(events[..|events| - 1], key);
            Ledger(events, key) ==
              match events[|events| - 1]
              case Ran(source, keys, declined) =>
                if key in keys then Some(Entry(source, was.Some? && was.value.touched))
                else if was.Some? && was.value.source == source && !was.value.touched && !declined then None
                else was
              case Touched(k) => if k == key && was.Some? then Some(was.value.(touched := true)) else was
  {
  }

  // ---- between the plan and its application ------------------------------------------------------------------------

  /** What a plan may take of a table: rows of its source, untouched and not just derived. */
  predicate Spares(t: Table, ids: set<nat>, source: string, keys: set<string>) {
    forall id :: id in ids && id in t ==> t[id].source == source && !t[id].touched && t[id].key !in keys
  }

  /** After one write between, the ids - not asked again - are still all the plan's to take exactly where the writer is
      its own source or wrote none of their keys. */
  lemma {:induction false} WriteBetweenHarmlessExactly(t: Table, u: Table, source: string, keys: set<string>, b: Budget,
                                                       other: string, written: set<string>)
    requires WrittenBy(t, u, other, written)
    ensures var ids := ToDelete(t, source, keys, b);
            Spares(u, ids, source, keys) <==> (other == source || forall id :: id in ids ==> t[id].key !in written)
  {
    PlanTakesOnlyItsOwn(t, source, keys, b);
    hide ToDelete, KeysDistinct;
  }

  /** What can come between: a whole run or an edit, a run's write alone, or another plan applied, fresh or late. */
  datatype Step = Whole(e: Event) | Wrote(source: string, keys: set<string>) | Took(ids: set<nat>)

  ghost predicate StepsTo(before: Table, s: Step, after: Table, b: Budget) {
    match s
    case Whole(e) => Follows(before, e, after, b)
    case Wrote(source, keys) => WrittenBy(before, after, source, keys)
    case Took(ids) => after == before - ids
  }

  /** The tables from a plan to its application. */
  ghost predicate Gap(tables: seq<Table>, steps: seq<Step>, b: Budget) {
    |tables| == |steps| + 1 && forall i :: 0 <= i < |steps| ==> StepsTo(tables[i], steps[i], tables[i + 1], b)
  }

  /** No id that is gone is given again. */
  ghost predicate GoneForGood(tables: seq<Table>, ids: set<nat>) {
    forall id, i, j :: id in ids && 0 <= i <= j < |tables| && id !in tables[i] ==> id !in tables[j]
  }

  /** What the steps make of one row, from the steps alone; a row that is gone stays gone. */
  function Since(steps: seq<Step>, id: nat, key: string, e: Entry): Option<Entry> {
    if steps == [] then Some(e)
    else
      match Since(steps[..|steps| - 1], id, key, e)
      case None => None
      case Some(was) => RowMoved(was, steps[|steps| - 1], id, key)
  }

  function RowMoved(was: Entry, s: Step, id: nat, key: string): Option<Entry> {
    match s
    case Whole(e) => Moved(Some(was), e, key)
    case Wrote(source, keys) => if key in keys then Some(was.(source := source)) else Some(was)
    case Took(ids) => if id in ids then None else Some(was)
  }

  /** A planned row is gone, or still what it was. */
  predicate AsPlanned(entry: Option<Entry>, source: string) { entry.None? || entry == Some(Entry(source, false)) }

  predicate AllAsPlanned(steps: seq<Step>, t: Table, ids: set<nat>, source: string) {
    forall id :: id in ids && id in t ==> AsPlanned(Since(steps, id, t[id].key, Entry(source, false)), source)
  }

  predicate RowIs(t: Table, id: nat, key: string, entry: Option<Entry>) {
    match entry
    case None => id !in t
    case Some(e) => id in t && t[id] == MapRow(key, e.source, e.touched)
  }

  lemma {:induction false} RowMoves(before: Table, s: Step, after: Table, b: Budget, id: nat, key: string, was: Entry)
    requires StepsTo(before, s, after, b) && RowIs(before, id, key, Some(was))
    ensures RowIs(after, id, key, RowMoved(was, s, id, key))
  {
    if s.Whole? && s.e.Ran? {
      RunMovesRow(before, s.e, after, b, id, key, was);
    }
    hide Declined, ToDelete, KeysDistinct, HasKey;
  }

  lemma {:induction false} RunMovesRow(before: Table, e: Event, after: Table, b: Budget, id: nat, key: string,
                                       was: Entry)
    requires e.Ran? && Follows(before, e, after, b) && RowIs(before, id, key, Some(was))
    ensures RowIs(after, id, key, Moved(Some(was), e, key))
  {
    hide Declined, KeysDistinct, HasKey;
    var t :| WrittenBy(before, t, e.source, e.keys) && e.declined == Declined(t, e.source, e.keys, b)
          && after == t - ToDelete(t, e.source, e.keys, b);
    var now := if key in e.keys then was.(source := e.source) else was;
    assert t[id] == MapRow(key, now.source, now.touched);
  }

  /** A planned row is, at every later table, what the steps since make of it. */
  lemma {:induction false} RowIsItsSteps(tables: seq<Table>, steps: seq<Step>, b: Budget, id: nat, key: string,
                                         e: Entry)
    requires Gap(tables, steps, b) && GoneForGood(tables, {id}) && RowIs(tables[0], id, key, Some(e))
    ensures RowIs(tables[|steps|], id, key, Since(steps, id, key, e))
    decreases |steps|
  {
    hide StepsTo, RowMoved;
    if steps != [] {
      var n := |steps| - 1;
      assert Gap(tables[..n + 1], steps[..n], b);
      RowIsItsSteps(tables[..n + 1], steps[..n], b, id, key, e);
      var was := Since(steps[..n], id, key, e);
      if was.Some? { RowMoves(tables[n], steps[n], tables[n + 1], b, id, key, was.value); }
    }
  }

  /** Whatever came between, the application keeps what the plan promised - rows of its source, untouched, not just
      derived - exactly where the steps since leave each planned row as it was planned, or have taken it already. */
  lemma {:induction false} GapHarmlessExactly(tables: seq<Table>, steps: seq<Step>, b: Budget, source: string,
                                              keys: set<string>)
    requires Gap(tables, steps, b) && GoneForGood(tables, ToDelete(tables[0], source, keys, b))
    ensures var ids := ToDelete(tables[0], source, keys, b);
            Spares(tables[|steps|], ids, source, keys) <==> AllAsPlanned(steps, tables[0], ids, source)
  {
    var t, u, own := tables[0], tables[|steps|], Entry(source, false);
    var ids := ToDelete(t, source, keys, b);
    PlanTakesOnlyItsOwn(t, source, keys, b);
    hide Gap, ToDelete, Since;
    forall id | id in ids
      ensures var o := Since(steps, id, t[id].key, own);
              t[id].key !in keys && RowIs(u, id, t[id].key, o)
    {
      assert t[id] == MapRow(t[id].key, source, false);
      RowIsItsSteps(tables, steps, b, id, t[id].key, own);
    }
  }

  /** Applying a plan after another source wrote takes a row that source just derived: the ids are not asked again. */
  lemma {:induction false} WriteBetweenTakesAnothersRow(b: Budget)
    requires b.population > 1
    ensures var before: Table := map[0 := MapRow("k", "A", false)];
            var after: Table := map[0 := MapRow("k", "B", false)];
            WrittenBy(before, after, "B", {"k"}) && ToDelete(before, "A", {}, b) == {0} && after[0].source == "B"
  {
    var before: Table := map[0 := MapRow("k", "A", false)];
    var after: Table := map[0 := MapRow("k", "B", false)];
    assert Owned(before, "A") == {0};
    assert HasKey(after, "k") by { assert after[0].key == "k"; }
  }
}
