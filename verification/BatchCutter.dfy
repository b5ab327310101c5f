/** Cutting the outbox into batches: a prefix within the row budget and the smallest cap it holds
    (event_constants.payload_row_count, trim_events_to_row_budget). */
module BatchCutter {
  import opened Syntax

  /** An event stands for one row, or names its rows and may say how many they are. */
  datatype Payload = PerRow | Collapsed(rowCount: Option<int>, rowIds: nat)

  /** An event as the cutter sees it: its payload and the cap the rules it wakes bring. */
  datatype Event = Event(id: nat, payload: Payload, cap: Option<int>)

  /** `payload_row_count`: a count below zero is not believed. */
  function Rows(p: Payload): nat {
    match p
    case PerRow => 1
    case Collapsed(count, ids) => if count.Some? && count.value >= 0 then count.value else ids
  }

  function Total(events: seq<Event>): nat {
    if events == [] then 0 else Total(events[..|events| - 1]) + Rows(events[|events| - 1].payload)
  }

  function Smaller(budget: int, cap: Option<int>): int { if cap.Some? && cap.value < budget then cap.value else budget }

  /** The budget left when every cap among the events is kept to. */
  function SmallestCap(budget: int, events: seq<Event>): int {
    if events == [] then budget else Smaller(SmallestCap(budget, events[..|events| - 1]), events[|events| - 1].cap)
  }

  /** The batch fits what it holds, or is one event that had to go somewhere. */
  predicate Fits(budget: int, batch: seq<Event>) { |batch| == 1 || Total(batch) <= SmallestCap(budget, batch) }

  /** One event more would not have fitted. */
  predicate Full(budget: int, events: seq<Event>, n: nat)
    requires n <= |events|
  {
    n == |events| || Total(events[..n + 1]) > SmallestCap(budget, events[..n + 1])
  }

  /** The cut is a prefix, never empty while there is something, fits, and is the longest of its kind reached in
      order. */
  ghost predicate IsCut(budget: int, events: seq<Event>, batch: seq<Event>) {
    && batch <= events && (events != [] ==> batch != [])
    && (batch != [] ==> Fits(budget, batch))
    && Full(budget, events, |batch|)
    && forall k :: 1 < k <= |batch| ==> Total(events[..k]) <= SmallestCap(budget, events[..k])
  }

  /** `trim_events_to_row_budget` */
  method Trim(events: seq<Event>, budget: int) returns (kept: seq<Event>)
    ensures IsCut(budget, events, kept)
  {
    kept := [];
    if events == [] {
      return;
    }
    var total, left, i := 0, budget, 0;
    while i < |events|
      invariant 0 <= i <= |events| && kept == events[..i]
      invariant total == Total(kept) && left == SmallestCap(budget, kept)
      invariant kept != [] ==> Fits(budget, kept)
      invariant forall k :: 1 < k <= i ==> Total(events[..k]) <= SmallestCap(budget, events[..k])
    {
      assert events[..i + 1][..i] == events[..i];
      left := Smaller(left, events[i].cap);
      if kept != [] && total + Rows(events[i].payload) > left {
        return;
      }
      kept := kept + [events[i]];
      total := total + Rows(events[i].payload);
      assert kept == events[..i + 1];
      i := i + 1;
    }
  }

  /** No other cut meets that: there is one. */
  lemma {:induction false} CutIsOne(budget: int, events: seq<Event>, a: seq<Event>, b: seq<Event>)
    requires IsCut(budget, events, a) && IsCut(budget, events, b)
    ensures a == b
  {
    assert |a| >= |b| && |b| >= |a|;
    assert a == events[..|a|] && b == events[..|b|];
  }

  function Concat(batches: seq<seq<Event>>): seq<Event> {
    if batches == [] then [] else Concat(batches[..|batches| - 1]) + batches[|batches| - 1]
  }

  /** Cutting again and again delivers every event once and in order, in at most as many batches as there are events,
      and every batch fits. */
  method Drain(events: seq<Event>, budget: int) returns (batches: seq<seq<Event>>)
    ensures Concat(batches) == events && |batches| <= |events|
    ensures forall i :: 0 <= i < |batches| ==> batches[i] != [] && Fits(budget, batches[i])
  {
    batches := [];
    var left := events;
    while left != []
      invariant Concat(batches) + left == events && |batches| + |left| <= |events|
      invariant forall i :: 0 <= i < |batches| ==> batches[i] != [] && Fits(budget, batches[i])
      decreases |left|
    {
      var batch := Trim(left, budget);
      assert left == batch + left[|batch|..];
      assert (batches + [batch])[..|batches|] == batches;
      assert Concat(batches) + left == Concat(batches) + batch + left[|batch|..];
      batches := batches + [batch];
      left := left[|batch|..];
    }
  }

  /** No cap of a batch of several is passed by its rows. */
  lemma {:induction false} EveryCapIsKept(budget: int, batch: seq<Event>, i: nat)
    requires i < |batch| && |batch| > 1 && Fits(budget, batch)
    ensures Total(batch) <= budget
    ensures batch[i].cap.Some? ==> Total(batch) <= batch[i].cap.value
  {
    SmallestIsBelow(budget, batch, i);
  }

  lemma {:induction false} SmallestIsBelow(budget: int, events: seq<Event>, i: nat)
    requires i < |events|
    ensures SmallestCap(budget, events) <= budget
    ensures events[i].cap.Some? ==> SmallestCap(budget, events) <= events[i].cap.value
    decreases |events|
  {
    var n := |events| - 1;
    if i < n {
      SmallestIsBelow(budget, events[..n], i);
    } else if n > 0 {
      SmallestIsBelow(budget, events[..n], 0);
    }
  }

  /** An event counts for one row, for as many as it says, or - where it says nothing or less than none - for as many as
      it names: a batch of several, counted so, stays within the budget and every cap. */
  lemma {:induction false} SaidRowsAreKept(budget: int, batch: seq<Event>, said: seq<nat>)
    requires |batch| > 1 && Fits(budget, batch) && |said| == |batch|
    requires forall i :: 0 <= i < |batch| ==> Says(batch[i].payload, said[i])
    ensures Sum(said) <= budget
    ensures forall i :: 0 <= i < |batch| && batch[i].cap.Some? ==> Sum(said) <= batch[i].cap.value
  {
    TotalIsSaid(batch, said);
    forall i | 0 <= i < |batch| ensures batch[i].cap.Some? ==> Total(batch) <= batch[i].cap.value {
      EveryCapIsKept(budget, batch, i);
    }
    assert Total(batch) <= budget by { EveryCapIsKept(budget, batch, 0); }
  }

  predicate Says(p: Payload, rows: nat) {
    match p
    case PerRow => rows == 1
    case Collapsed(Some(count), ids) => if count < 0 then rows == ids else rows == count
    case Collapsed(None, ids) => rows == ids
  }

  function Sum(said: seq<nat>): nat { if said == [] then 0 else said[0] + Sum(said[1..]) }

  lemma {:induction false} TotalIsSaid(batch: seq<Event>, said: seq<nat>)
    requires |said| == |batch| && forall i :: 0 <= i < |batch| ==> Says(batch[i].payload, said[i])
    ensures Total(batch) == Sum(said)
    decreases |batch|
  {
    var n := |batch| - 1;
    if batch != [] {
      TotalIsSaid(batch[..n], said[..n]);
      SumLast(said);
    }
  }

  lemma {:induction false} SumLast(said: seq<nat>)
    requires said != []
    ensures Sum(said) == Sum(said[..|said| - 1]) + said[|said| - 1]
    decreases |said|
  {
    var n := |said| - 1;
    if n > 0 {
      SumLast(said[1..]);
      assert said[1..][..n - 1] == said[..n][1..];
    }
  }
}
