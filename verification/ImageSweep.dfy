/** Received pictures no cell holds any more: one sweep, and any run of sweeps with the days between them
    (image_sources._read_marks, referenced, sweep). */
module ImageSweep {
  import opened Syntax

  type File = string

  /** A day as the state file writes it: one that reads as a day, or not. */
  datatype DayText = ADay(day: int) | NotADay

  /** The state file: none, one that is not an object of days, or the day each picture was first seen unreferenced. */
  datatype MarksFile = Missing | Broken | Marks(days: map<File, DayText>)

  /** `_read_marks`: the readable days of the files listed now; anything else is counted afresh. */
  function ReadMarks(m: MarksFile, files: set<File>): map<File, int> {
    match m
    case Marks(days) => map f | f in days && f in files && days[f].ADay? :: days[f].day
    case _ => map[]
  }

  /** The receiving source: none, a receive cell that is refused, or the days a picture is kept - none for ever. */
  datatype Config = NoReceiver | Refused | Keeps(days: Option<KeepDays>)

  type KeepDays = d: nat | d > 0 witness 1

  /** What one sweep meets: the day, the declaration, the pictures some cell holds, a column that could not be read, the
      files that will not go, and whether the state file can be written. */
  datatype Pass = Pass(today: int, config: Config, held: set<File>, unread: bool, stuck: set<File>, writable: bool)

  datatype Store = Store(files: set<File>, marks: MarksFile)

  /** The pass reads every column under a declaration it takes. */
  predicate Judges(p: Pass) { p.config.Keeps? && !p.unread }

  /** The days counted after the pass's own look: held again is taken off, first seen today is today. */
  function Counted(s: Store, p: Pass): map<File, int> {
    var marks := ReadMarks(s.marks, s.files);
    map f | f in s.files && f !in p.held :: if f in marks then marks[f] else p.today
  }

  function Due(s: Store, p: Pass): set<File> {
    if !Judges(p) || p.config.days.None? then {}
    else set f | f in Counted(s, p) && p.today - Counted(s, p)[f] >= p.config.days.value
  }

  function Deleted(s: Store, p: Pass): set<File> { Due(s, p) - p.stuck }

  /** One sweep's effect. */
  function Swept(s: Store, p: Pass): Store {
    if !Judges(p) then s
    else
      Store(s.files - Deleted(s, p),
            if p.writable then Marks(map f | f in Counted(s, p) && f !in Deleted(s, p) :: ADay(Counted(s, p)[f]))
            else s.marks)
  }

  /** The folder of the receiving source and its state file. */
  class Folder {
    var store: Store

    /** `sweep`: the pictures are judged one by one, due ones removed; what would not go is tried again. */
    method Sweep(p: Pass) returns (deleted: set<File>)
      modifies this
      ensures store == Swept(old(store), p)
      ensures deleted == Deleted(old(store), p)
    {
      hide Counted, ReadMarks;
      if p.config.NoReceiver? || p.config.Refused? || p.unread {
        return {};
      }
      var days := Count(store, p);
      var due: set<File> := {};
      if p.config.days.Some? {
        due := set f | f in days && p.today - days[f] >= p.config.days.value;
      }
      assert due == Due(store, p);
      hide Due;
      deleted := Remove(due, p.stuck);
      if p.writable {
        store := Store(store.files, Marks(map f | f in days && f !in deleted :: ADay(days[f])));
      }
    }

    /** The days of the pictures nothing holds, each looked at once. */
    static method Count(s: Store, p: Pass) returns (days: map<File, int>)
      ensures days == Counted(s, p)
    {
      var marks := ReadMarks(s.marks, s.files);
      hide ReadMarks;
      var left := s.files;
      days := map[];
      while left != {}
        invariant left <= s.files
        invariant days == map f | f in s.files - left && f !in p.held :: if f in marks then marks[f] else p.today
        decreases |left|
      {
        var f :| f in left;
        left := left - {f};
        if f !in p.held {
          days := days[f := if f in marks then marks[f] else p.today];
        }
      }
    }

    /** The files removed one by one, but for the ones that will not go. */
    method Remove(due: set<File>, stuck: set<File>) returns (deleted: set<File>)
      modifies this
      ensures deleted == due - stuck
      ensures store == Store(old(store).files - deleted, old(store).marks)
    {
      deleted := {};
      var left := due;
      while left != {}
        invariant left <= due && deleted == due - left - stuck
        invariant store == Store(old(store).files - deleted, old(store).marks)
        decreases |left|
      {
        var f :| f in left;
        left := left - {f};
        if f !in stuck {
          store := Store(store.files - {f}, store.marks);
          deleted := deleted + {f};
        }
      }
    }
  }

  // ---- runs --------------------------------------------------------------------------------------------------------

  /** What happens to the folder: a sweep, a picture kept, pictures taken away by hand, the state file lost or
      damaged. */
  datatype Event = Sweeps(pass: Pass) | Received(file: File) | Taken(files: set<File>) | Damaged(marks: MarksFile)

  /** Damage makes no day readable that was not there. */
  predicate Damages(was: MarksFile, now: MarksFile) {
    now.Marks? ==>
      forall f :: f in now.days && now.days[f].ADay? ==> was.Marks? && f in was.days && was.days[f] == now.days[f]
  }

  predicate Marked(m: MarksFile, f: File) { m.Marks? && f in m.days }

  /** A picture received has a name never used before: 32 random hex digits. */
  predicate Follows(s: Store, e: Event, t: Store) {
    match e
    case Sweeps(p) => t == Swept(s, p)
    case Received(f) => f !in s.files && !Marked(s.marks, f) && t == Store(s.files + {f}, s.marks)
    case Taken(gone) => t == Store(s.files - gone, s.marks)
    case Damaged(m) => Damages(s.marks, m) && t == Store(s.files, m)
  }

  ghost predicate Run(stores: seq<Store>, events: seq<Event>) {
    && |stores| == |events| + 1 && stores[0] == Store({}, Missing)
    && forall i :: 0 <= i < |events| ==> Follows(stores[i], events[i], stores[i + 1])
  }

  /** Event `i` is a sweep that judged and wrote its state down. */
  predicate Completed(events: seq<Event>, i: int) {
    0 <= i < |events| && events[i].Sweeps? && Judges(events[i].pass) && events[i].pass.writable
  }

  /** The sweep of event `i` found the file there and no cell holding it. */
  predicate SawUnreferenced(stores: seq<Store>, events: seq<Event>, i: int, f: File)
    requires |stores| == |events| + 1 && 0 <= i < |events| && events[i].Sweeps?
  {
    f in stores[i].files && f !in events[i].pass.held
  }

  /** From the completed sweep of event `i` on, every completed sweep before `n` saw the file unreferenced. */
  ghost predicate UnreferencedSince(stores: seq<Store>, events: seq<Event>, i: int, n: int, f: File)
    requires |stores| == |events| + 1 && n <= |events|
  {
    && 0 <= i < n && Completed(events, i) && SawUnreferenced(stores, events, i, f)
    && forall k :: i < k < n && Completed(events, k) ==> SawUnreferenced(stores, events, k, f)
  }

  /** A day in the state file is the day of a completed sweep that saw the picture unreferenced, and every completed
      sweep since did too. */
  lemma {:induction false} MarkedSince(stores: seq<Store>, events: seq<Event>, n: nat, f: File)
    requires Run(stores, events) && n <= |events|
    requires stores[n].marks.Marks? && f in stores[n].marks.days && stores[n].marks.days[f].ADay?
    ensures exists i ::
              UnreferencedSince(stores, events, i, n, f) && events[i].pass.today == stores[n].marks.days[f].day
    decreases n
  {
    assert n > 0;
    var s, e, day := stores[n - 1], events[n - 1], stores[n].marks.days[f].day;
    assert Follows(s, e, stores[n]);
    if Completed(events, n - 1) && !(f in ReadMarks(s.marks, s.files)) {
      assert UnreferencedSince(stores, events, n - 1, n, f);
    } else {
      MarkedSince(stores, events, n - 1, f);
      var i :| UnreferencedSince(stores, events, i, n - 1, f)
               && events[i].pass.today == stores[n - 1].marks.days[f].day;
      assert UnreferencedSince(stores, events, i, n, f);
    }
  }

  /** A picture is deleted on a day only if a completed sweep at least `keep_days` earlier saw it unreferenced, every
      completed sweep since did too, and so does the sweep that deletes it. */
  lemma {:induction false} DeletedOnlyAfterWaiting(stores: seq<Store>, events: seq<Event>, n: nat, f: File)
    requires Run(stores, events) && n < |events| && events[n].Sweeps? && f in Deleted(stores[n], events[n].pass)
    ensures SawUnreferenced(stores, events, n, f)
    ensures exists i :: UnreferencedSince(stores, events, i, n, f)
                     && events[n].pass.today - events[i].pass.today >= events[n].pass.config.days.value
  {
    MarkedSince(stores, events, n, f);
    var i :| UnreferencedSince(stores, events, i, n, f) && events[i].pass.today == stores[n].marks.days[f].day;
  }

  /** Event `n` is a sweep that judges, and the file was there and unreferenced in every completed sweep since that of
      event `i`, at least keep_days earlier, the state file never damaged in between. */
  ghost predicate WaitedOut(stores: seq<Store>, events: seq<Event>, i: int, n: nat, f: File)
    requires |stores| == |events| + 1 && n < |events|
  {
    && UnreferencedSince(stores, events, i, n, f) && (forall k :: i <= k <= n ==> f in stores[k].files)
    && (forall k :: i < k < n ==> !events[k].Damaged?)
    && events[n].Sweeps? && Judges(events[n].pass) && f !in events[n].pass.held
    && events[n].pass.config.days.Some?
    && events[n].pass.today - events[i].pass.today >= events[n].pass.config.days.value
  }

  /** A picture a completed sweep saw unreferenced that many days ago, as every completed sweep did since, goes - if the
      state file was not damaged meanwhile, the clock did not run back before that sweep, and the file lets itself be
      removed. */
  lemma {:induction false} WaitedOutIsDeleted(stores: seq<Store>, events: seq<Event>, i: int, n: nat, f: File)
    requires Run(stores, events) && n < |events| && WaitedOut(stores, events, i, n, f)
    requires forall k :: 0 <= k < i && events[k].Sweeps? ==> events[k].pass.today <= events[i].pass.today
    ensures f in Due(stores[n], events[n].pass)
    ensures f !in events[n].pass.stuck ==> f !in stores[n + 1].files
  {
    MarkStays(stores, events, i, n, f);
    assert Follows(stores[n], events[n], stores[n + 1]);
  }

  /** From that sweep on its day is in the state file. */
  lemma {:induction false} MarkStays(stores: seq<Store>, events: seq<Event>, i: int, n: nat, f: File)
    requires Run(stores, events) && n <= |events| && UnreferencedSince(stores, events, i, n, f)
    requires (forall k :: i <= k <= n ==> f in stores[k].files) && (forall k :: i < k < n ==> !events[k].Damaged?)
    requires forall k :: 0 <= k < i && events[k].Sweeps? ==> events[k].pass.today <= events[i].pass.today
    ensures var days := ReadMarks(stores[n].marks, stores[n].files);
            f in days && days[f] <= events[i].pass.today
    decreases n
  {
    var s, e := stores[n - 1], events[n - 1];
    assert Follows(s, e, stores[n]);
    if n - 1 == i {
      if f in ReadMarks(s.marks, s.files) { MarkedSince(stores, events, i, f); }
    } else {
      MarkStays(stores, events, i, n - 1, f);
      if Completed(events, n - 1) { assert SawUnreferenced(stores, events, n - 1, f); }
      StepKeepsMark(s, e, stores[n], f);
    }
  }

  lemma {:induction false} StepKeepsMark(s: Store, e: Event, t: Store, f: File)
    requires Follows(s, e, t) && f in ReadMarks(s.marks, s.files) && f in t.files && !e.Damaged?
    requires e.Sweeps? && Judges(e.pass) && e.pass.writable ==> f !in e.pass.held
    ensures f in ReadMarks(t.marks, t.files) && ReadMarks(t.marks, t.files)[f] == ReadMarks(s.marks, s.files)[f]
  {
    if e.Sweeps? && Judges(e.pass) && e.pass.writable {
      assert f in Counted(s, e.pass) && f !in Deleted(s, e.pass);
    }
  }

  /** A sweep that could not read a column, or is not taken by its declaration, changes nothing at all; without
      keep_days no picture goes. */
  lemma {:induction false} UnreadDeletesNothing(s: Store, p: Pass)
    ensures !Judges(p) ==> Swept(s, p) == s
    ensures Judges(p) && p.config.days.None? ==> Swept(s, p).files == s.files
  {
    if Judges(p) && p.config.days.None? { assert s.files - {} == s.files; }
  }

  // ---- damage only delays ------------------------------------------------------------------------------------------

  /** The second folder is the first with a state file that was damaged on the way: nothing is gone from it that is not
      gone from the first, and no picture still in both is counted from an earlier day. */
  predicate Behind(a: Store, b: Store, last: int) {
    var days, late := ReadMarks(a.marks, a.files), ReadMarks(b.marks, b.files);
    && a.files <= b.files
    && (forall f :: f in days ==> days[f] <= last)
    && (forall f :: f in late && f in a.files ==> f in days && days[f] <= late[f])
  }

  lemma {:induction false} SweepKeepsBehind(a: Store, b: Store, last: int, p: Pass)
    requires Behind(a, b, last) && last <= p.today
    ensures Behind(Swept(a, p), Swept(b, p), p.today)
  {
    if Judges(p) {
      var days, late := Counted(a, p), Counted(b, p);
      assert forall f :: f in days ==> days[f] <= p.today;
      assert forall f :: f in days ==> f in late && days[f] <= late[f];
      forall f | f in Deleted(b, p) && f in a.files ensures f in Deleted(a, p) {
        assert days[f] <= late[f];
      }
      assert Swept(a, p).files <= Swept(b, p).files;
      if p.writable {
        forall f | f in ReadMarks(Swept(b, p).marks, Swept(b, p).files) && f in Swept(a, p).files
          ensures f in ReadMarks(Swept(a, p).marks, Swept(a, p).files)
              && ReadMarks(Swept(a, p).marks, Swept(a, p).files)[f]
                 <= ReadMarks(Swept(b, p).marks, Swept(b, p).files)[f]
        {
          assert f in days && f in late && days[f] <= late[f];
        }
      }
    }
  }

  /** Two runs of the same events but for damage to the second's state file, on a clock that does not run back. */
  ghost predicate SideBySide(a: seq<Store>, b: seq<Store>, events: seq<Event>, others: seq<Event>) {
    && Run(a, events) && Run(b, others) && |events| == |others|
    && (forall i :: 0 <= i < |events| ==> !events[i].Damaged?)
    && (forall i :: 0 <= i < |events| ==> others[i] == events[i] || (others[i].Damaged? && events[i] == Taken({})))
    && (forall i, j :: 0 <= i < j < |events| && events[i].Sweeps? && events[j].Sweeps? ==>
          events[i].pass.today <= events[j].pass.today)
  }

  ghost predicate LastDay(events: seq<Event>, n: int, day: int)
    requires n <= |events|
  {
    forall i :: 0 <= i < n && events[i].Sweeps? ==> events[i].pass.today <= day
  }

  lemma {:induction false} StepKeepsBehind(a: Store, b: Store, c: Store, d: Store, e: Event, other: Event, last: int,
                                           day: int)
    requires Behind(a, b, last) && last <= day && Follows(a, e, c) && Follows(b, other, d)
    requires other == e || (other.Damaged? && e == Taken({}))
    requires e.Sweeps? ==> last <= e.pass.today <= day
    requires !e.Damaged?
    ensures Behind(c, d, day)
  {
    match e
    case Sweeps(p) => SweepKeepsBehind(a, b, last, p);
    case Received(f) =>
    case Taken(gone) =>
  }

  /** A lost or damaged state file only ever delays: whatever is gone from the folder with the damage is gone from the
      one without. */
  lemma {:induction false} DamageOnlyDelays(a: seq<Store>, b: seq<Store>, events: seq<Event>, others: seq<Event>,
                                            n: nat, day: int)
    requires SideBySide(a, b, events, others) && n <= |events| && LastDay(events, n, day)
    ensures Behind(a[n], b[n], day) && a[n].files <= b[n].files
    decreases n
  {
    hide Behind;
    if n == 0 {
      assert Behind(Store({}, Missing), Store({}, Missing), day) by { BehindAtFirst(day); }
    } else {
      var e := events[n - 1];
      var last := if e.Sweeps? then e.pass.today else day;
      assert LastDay(events, n - 1, last);
      DamageOnlyDelays(a, b, events, others, n - 1, last);
      StepKeepsBehind(a[n - 1], b[n - 1], a[n], b[n], e, others[n - 1], last, day);
    }
    BehindHolds(a[n], b[n], day);
  }

  lemma {:induction false} BehindAtFirst(day: int)
    ensures Behind(Store({}, Missing), Store({}, Missing), day)
  {
  }

  lemma {:induction false} BehindHolds(a: Store, b: Store, day: int)
    requires Behind(a, b, day)
    ensures a.files <= b.files
  {
  }
}
