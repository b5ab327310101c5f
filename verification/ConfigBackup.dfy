/** Dated snapshots of configuration files: their names, a day's letters, the pruning window and its floor, and any
    run of snapshots (config_backup.snapshot_name, _parse, list_snapshots, _prune, take_snapshot, due). */
module ConfigBackup {
  import opened Syntax
  import opened Words
  import opened Digits
  import opened Calendar

  const INTERVAL_DAYS := 7
  const RETENTION_DAYS := 31
  const RETENTION_MIN_KEEP := 4
  const SUFFIX := ".json.bak"

  /** A day's snapshots are numbered: no letter, then b to z. */
  type Seq = s: nat | s <= 25
  const LAST_SEQ := 25

  datatype Entry = Entry(date: Date, letter: Seq)

  /** A snapshot's name read back. */
  datatype Named = Named(stem: string, entry: Entry)

  // ---- names -------------------------------------------------------------------------------------------------------

  function Letter(s: Seq): string { if s == 0 then "" else ['a' + s as char] }

  /** strftime %y%m%d */
  function Stamp(d: Date): string
    requires IsDate(d)
  {
    Two(d.year % 100) + Two(d.month) + Two(d.day)
  }

  /** `snapshot_name` */
  function SnapshotName(stem: string, e: Entry): string
    requires IsDate(e.date)
  {
    stem + "_" + Stamp(e.date) + Letter(e.letter) + SUFFIX
  }

  /** strptime's %y: 69 to 99 are of the last century. */
  function Century(yy: int): int { if yy <= 68 then 2000 + yy else 1900 + yy }

  /** strptime %y%m%d of six characters. */
  function ReadStamp(s: string): Option<Date>
    requires |s| == 6
  {
    if !(forall i :: 0 <= i < 6 ==> IsDigit(s[i])) then None
    else
      var d := Date(Century(Number(s[0], s[1])), Number(s[2], s[3]), Number(s[4], s[5]));
      if IsDate(d) then Some(d) else None
  }

  /** What stands before the suffix: a stem, `_` and a stamp. */
  function ReadBody(body: string, letter: Seq): Option<Named> {
    var n := |body|;
    if n < 8 || body[n - 7] != '_' || '\n' in body[..n - 7] then None
    else match ReadStamp(body[n - 6..]) case None => None case Some(d) => Some(Named(body[..n - 7], Entry(d, letter)))
  }

  /** `_parse` */
  function Parse(name: string): Option<Named> {
    var n := |name| - |SUFFIX|;
    if n < 1 || name[n..] != SUFFIX then None
    else
      var body := name[..n];
      if 'b' <= body[n - 1] <= 'z' then ReadBody(body[..n - 1], (body[n - 1] as int - 'a' as int) as Seq)
      else ReadBody(body, 0)
  }

  /** The stems and days whose names read back. */
  predicate Readable(stem: string, d: Date) { stem != "" && '\n' !in stem && 1969 <= d.year <= 2068 }

  lemma {:induction false} StampReads(d: Date)
    requires IsDate(d)
    ensures |Stamp(d)| == 6
    ensures ReadStamp(Stamp(d)) == Some(Date(Century(d.year % 100), d.month, d.day))
         || (ReadStamp(Stamp(d)) == None && !IsDate(Date(Century(d.year % 100), d.month, d.day)))
    ensures IsDigit(Stamp(d)[5])
  {
    hide IsDate, Century;
    TwoReads(d.year % 100);
    DayAndMonth(d);
    TwoReads(d.month);
    TwoReads(d.day);
  }

  lemma {:induction false} DayAndMonth(d: Date)
    requires IsDate(d)
    ensures 1 <= d.month <= 12 && 1 <= d.day <= 31
  {
  }

  lemma {:induction false} CenturyExactly(y: int)
    requires 1 <= y <= 9999
    ensures Century(y % 100) == y <==> 1969 <= y <= 2068
  {
  }

  lemma {:induction false} BodyReads(stem: string, d: Date, letter: Seq)
    requires IsDate(d)
    ensures ReadBody(stem + "_" + Stamp(d), letter) == Some(Named(stem, Entry(d, letter))) <==> Readable(stem, d)
  {
    var body := stem + "_" + Stamp(d);
    StampReads(d);
    CenturyExactly(d.year);
    hide Stamp, ReadStamp, IsDate, Century;
    var n := |body|;
    assert n == |stem| + 7 && body[n - 7] == '_' && body[..n - 7] == stem && body[n - 6..] == Stamp(d);
  }

  /** Reading a name back gives what it was made of exactly for a stem that is there and on one line, and a year
      strptime's two digits can name. */
  lemma {:induction false} NameReadsBackExactly(stem: string, e: Entry)
    requires IsDate(e.date)
    ensures Parse(SnapshotName(stem, e)) == Some(Named(stem, e)) <==> Readable(stem, e.date)
  {
    var plain := stem + "_" + Stamp(e.date);
    var body := plain + Letter(e.letter);
    var name := SnapshotName(stem, e);
    StampReads(e.date);
    BodyReads(stem, e.date, e.letter);
    hide Stamp, ReadBody, IsDate, Readable;
    var n := |name| - |SUFFIX|;
    assert name == body + SUFFIX && name[n..] == SUFFIX && name[..n] == body;
    if e.letter == 0 {
      assert body == plain && body[n - 1] == Stamp(e.date)[5];
    } else {
      assert body[n - 1] == 'a' + e.letter as char && body[..n - 1] == plain;
    }
  }

  /** By character code, a text before the ones it begins. */
  predicate Less(a: string, b: string) {
    if b == "" then false else if a == "" then true else if a[0] != b[0] then a[0] < b[0] else Less(a[1..], b[1..])
  }

  lemma {:induction false} LessAfter(p: string, a: string, b: string)
    ensures Less(p + a, p + b) <==> Less(a, b)
    decreases |p|
  {
    if p == "" {
      assert p + a == a && p + b == b;
    } else {
      assert (p + a)[1..] == p[1..] + a && (p + b)[1..] == p[1..] + b;
      LessAfter(p[1..], a, b);
    }
  }

  lemma {:induction false} TwoLess(m: int, n: int, a: string, b: string)
    requires 0 <= m <= 99 && 0 <= n <= 99
    ensures Less(Two(m) + a, Two(n) + b) <==> m < n || (m == n && Less(a, b))
  {
    if m == n {
      LessAfter(Two(m), a, b);
    } else {
      var x, y := Two(m) + a, Two(n) + b;
      assert x[0] == Digit(m / 10) && x[1..][0] == Digit(m % 10) && y[0] == Digit(n / 10) && y[1..][0] == Digit(n % 10);
      assert Less(x, y) <==> if x[0] != y[0] then x[0] < y[0] else Less(x[1..], y[1..]);
      assert m / 10 == n / 10 ==> m % 10 != n % 10;
    }
  }

  predicate EntryBefore(a: Entry, b: Entry) { Earlier(a.date, b.date) || (a.date == b.date && a.letter < b.letter) }

  lemma {:induction false} LetterLess(a: Seq, b: Seq)
    ensures Less(Letter(a) + SUFFIX, Letter(b) + SUFFIX) <==> a < b
  {
    var x, y := Letter(a) + SUFFIX, Letter(b) + SUFFIX;
    assert x[0] == (if a == 0 then '.' else 'a' + a as char) && y[0] == if b == 0 then '.' else 'a' + b as char;
    if a == b { NotLess(x); }
  }

  lemma {:induction false} NotLess(x: string)
    ensures !Less(x, x)
    decreases |x|
  {
    if x != "" { NotLess(x[1..]); }
  }

  /** Within a century the names of one file sort as their dates and letters do. */
  lemma {:induction false} NameOrderIsEntryOrder(stem: string, a: Entry, b: Entry)
    requires IsDate(a.date) && IsDate(b.date) && a.date.year / 100 == b.date.year / 100
    ensures Less(SnapshotName(stem, a), SnapshotName(stem, b)) <==> EntryBefore(a, b)
  {
    var restA, restB := Letter(a.letter) + SUFFIX, Letter(b.letter) + SUFFIX;
    DayAndMonth(a.date);
    DayAndMonth(b.date);
    assert SnapshotName(stem, a)
        == stem + "_" + (Two(a.date.year % 100) + (Two(a.date.month) + (Two(a.date.day) + restA)));
    assert SnapshotName(stem, b)
        == stem + "_" + (Two(b.date.year % 100) + (Two(b.date.month) + (Two(b.date.day) + restB)));
    hide Two, Less, IsDate, SnapshotName;
    LessAfter(stem + "_", Two(a.date.year % 100) + (Two(a.date.month) + (Two(a.date.day) + restA)),
              Two(b.date.year % 100) + (Two(b.date.month) + (Two(b.date.day) + restB)));
    TwoLess(a.date.year % 100, b.date.year % 100, Two(a.date.month) + (Two(a.date.day) + restA),
            Two(b.date.month) + (Two(b.date.day) + restB));
    TwoLess(a.date.month, b.date.month, Two(a.date.day) + restA, Two(b.date.day) + restB);
    TwoLess(a.date.day, b.date.day, restA, restB);
    LetterLess(a.letter, b.letter);
  }

  // ---- one file's snapshots ----------------------------------------------------------------------------------------

  datatype Now = Now(date: Date, second: nat)

  /** A file's snapshots: what each holds. */
  type View = map<Entry, string>

  predicate InOrder(entries: seq<Entry>) {
    forall i, j :: 0 <= i < j < |entries| ==> EntryBefore(entries[i], entries[j])
  }

  function Letters(v: View, d: Date): set<Seq> { set e | e in v && e.date == d :: e.letter }

  predicate Greatest(letters: set<Seq>, s: Seq) { s in letters && forall t :: t in letters ==> t <= s }

  /** The greatest letter of a day that has one. */
  function Newest(letters: set<Seq>): (s: Seq)
    requires letters != {}
    ensures Greatest(letters, s)
  {
    NewestIsThere(letters);
    var s: Seq :| Greatest(letters, s);
    s
  }

  lemma {:induction false} NewestIsThere(letters: set<Seq>)
    requires letters != {}
    ensures exists s :: Greatest(letters, s)
    decreases |letters|
  {
    var s :| s in letters;
    var rest := letters - {s};
    if rest == {} {
      assert Greatest(letters, s) by { assert letters == {s}; }
    } else {
      NewestIsThere(rest);
      var r :| Greatest(rest, r);
      assert letters == rest + {s};
      assert Greatest(letters, if r < s then s else r);
    }
  }

  /** The first letter from `k` on that the day has not used. */
  function FirstUnused(used: set<Seq>, k: nat): (s: Option<Seq>)
    ensures s.Some? ==> k <= s.value && s.value !in used && forall j :: k <= j < s.value ==> j in used
    ensures s.None? ==> forall j: Seq :: k <= j ==> j in used
    decreases LAST_SEQ + 1 - k
  {
    if k > LAST_SEQ then None else if k !in used then Some(k) else FirstUnused(used, k + 1)
  }

  /** The letter today's snapshot of a content takes: none where today's last holds it already, or no letter is left. */
  datatype Choice = Same(letter: Seq) | Next(letter: Seq) | NoLetter

  function Choose(v: View, content: string, today: Date): Choice {
    var used := Letters(v, today);
    if used == {} then Next(0)
    else
      var last := Newest(used);
      if v[Entry(today, last)] == content then Same(last)
      else match FirstUnused(used, 1) case None => NoLetter case Some(s) => Next(s)
  }

  function TakenView(v: View, content: string, now: Now): View {
    match Choose(v, content, now.date)
    case Next(s) => v[Entry(now.date, s) := content]
    case _ => v
  }

  /** Outside the window: its midnight is before now less 31 days. */
  predicate Outside(d: Date, now: Now)
    requires 1 <= d.month <= 12 && 1 <= now.date.month <= 12
  {
    var limit := Ordinal(now.date) - RETENTION_DAYS;
    Ordinal(d) < limit || (Ordinal(d) == limit && now.second > 0)
  }

  function Newer(v: View, e: Entry): set<Entry> { set x | x in v && EntryBefore(e, x) }

  predicate Dated(v: View) { forall e :: e in v ==> IsDate(e.date) }

  /** Old and with four newer ones beside it. */
  predicate Prunable(v: View, e: Entry, now: Now)
    requires IsDate(e.date) && IsDate(now.date)
  {
    |Newer(v, e)| >= RETENTION_MIN_KEEP && Outside(e.date, now)
  }

  function PrunedView(v: View, now: Now): View
    requires Dated(v) && IsDate(now.date)
  {
    map e | e in v && !Prunable(v, e, now) :: v[e]
  }

  /** One pass over one file: taken where the file is there, then pruned. */
  function StepView(v: View, content: Option<string>, now: Now): View
    requires Dated(v) && IsDate(now.date)
  {
    PrunedView(AfterTurns(v, content, now), now)
  }

  function AfterTurns(v: View, content: Option<string>, now: Now): View {
    match content case None => v case Some(c) => TakenView(v, c, now)
  }

  /** The newest snapshot by date and letter. */
  ghost predicate IsNewest(v: View, e: Entry) { e in v && forall x :: x in v ==> x == e || EntryBefore(x, e) }

  /** No snapshot is of a later day, and the day's letters have no gap. */
  ghost predicate Steady(v: View, d: Date) {
    && Dated(v) && IsDate(d)
    && (forall e :: e in v ==> e.date == d || Earlier(e.date, d))
    && (forall j: Seq, k: Seq :: j < k && Entry(d, k) in v ==> Entry(d, j) in v)
  }

  /** What was taken last is what the newest snapshot holds. */
  ghost predicate Holds(v: View, taken: Option<string>) {
    taken.Some? ==> exists e :: IsNewest(v, e) && v[e] == taken.value
  }

  /** The day's first snapshot is the newest of all. */
  lemma {:induction false} FirstOfTheDay(v: View, content: string, d: Date, last: Date)
    requires Steady(v, last) && IsDate(d) && (last == d || Earlier(last, d)) && Letters(v, d) == {}
    ensures var w := v[Entry(d, 0) := content];
            Steady(w, d) && IsNewest(w, Entry(d, 0))
  {
    hide IsDate;
    forall k: Seq ensures k in Letters(v, d) <==> Entry(d, k) in v {}
  }

  /** The day's letters, used without a gap: the next one is past them all. */
  lemma {:induction false} NextOfTheDay(v: View, content: string, d: Date, last: Date)
    requires Steady(v, last) && IsDate(d) && (last == d || Earlier(last, d)) && Letters(v, d) != {}
    ensures last == d && IsNewest(v, Entry(d, Newest(Letters(v, d))))
    ensures var s := FirstUnused(Letters(v, d), 1);
            s.Some? ==>
              && Steady(v[Entry(d, s.value) := content], d)
              && IsNewest(v[Entry(d, s.value) := content], Entry(d, s.value))
  {
    hide IsDate;
    var used := Letters(v, d);
    forall k: Seq ensures k in used <==> Entry(d, k) in v {}
    var newest := Newest(used);
    assert Entry(d, newest) in v;
    if FirstUnused(used, 1).Some? {
      var s := FirstUnused(used, 1).value;
      assert Entry(d, s) !in v;
      assert s > newest;
      assert forall j: Seq :: j < s ==> Entry(d, j) in v by {
        assert Entry(d, 0) in v;
      }
    }
  }

  lemma {:induction false} TakeKeepsSteady(v: View, content: string, now: Now, last: Date)
    requires Steady(v, last) && IsDate(now.date) && (last == now.date || Earlier(last, now.date))
    ensures Steady(TakenView(v, content, now), now.date)
    ensures !Choose(v, content, now.date).NoLetter? ==> Holds(TakenView(v, content, now), Some(content))
  {
    if Letters(v, now.date) == {} {
      FirstOfTheDay(v, content, now.date, last);
    } else {
      NextOfTheDay(v, content, now.date, last);
    }
    hide IsDate, Steady, IsNewest, Earlier, Letters, Newest, FirstUnused;
  }

  /** The four newest stay whatever their age. */
  lemma {:induction false} NewestSurvives(v: View, now: Now, e: Entry)
    requires Dated(v) && IsDate(now.date) && IsNewest(v, e)
    ensures e in PrunedView(v, now) && IsNewest(PrunedView(v, now), e)
  {
    hide IsDate, Outside;
    forall x | x in v ensures !EntryBefore(e, x) {}
    assert Newer(v, e) == {};
  }

  lemma {:induction false} PruneKeepsSteady(v: View, now: Now)
    requires Steady(v, now.date)
    ensures Steady(PrunedView(v, now), now.date)
  {
    assert !Outside(now.date, now);
  }

  /** What today's last snapshot holds is not taken again; anything else is, while a letter is left. */
  lemma {:induction false} SkippedExactly(v: View, content: string, now: Now)
    ensures (Choose(v, content, now.date).Same? <==> exists e :: LastOfTheDay(v, e, now.date) && v[e] == content)
    ensures (Choose(v, content, now.date).NoLetter? <==>
               (forall s: Seq :: s >= 1 ==> Entry(now.date, s) in v)
               && exists e :: LastOfTheDay(v, e, now.date) && v[e] != content)
  {
    LettersAre(v, now.date);
    var d, used := now.date, Letters(v, now.date);
    if used != {} {
      var last := Newest(used);
      assert LastOfTheDay(v, Entry(d, last), d);
      hide Letters;
    }
  }

  ghost predicate LastOfTheDay(v: View, e: Entry, d: Date) {
    e in v && e.date == d && forall x :: x in v && x.date == d ==> x.letter <= e.letter
  }

  /** So taking a content twice is taking it once, as long as the day's letters have no gap. */
  lemma {:induction false} TakenTwiceIsOnce(v: View, content: string, now: Now)
    requires forall j: Seq, k: Seq :: j < k && Entry(now.date, k) in v ==> Entry(now.date, j) in v
    ensures var w := TakenView(v, content, now);
            !Choose(v, content, now.date).NoLetter? ==> TakenView(w, content, now) == w
  {
    var w, d := TakenView(v, content, now), now.date;
    LettersAre(v, d);
    LettersAre(w, d);
    if Choose(v, content, d).Next? {
      var k := Choose(v, content, d).letter;
      assert w == v[Entry(d, k) := content];
      forall x | x in w && x.date == d ensures x.letter <= k {
        if x.letter > k { assert x in v && Entry(d, x.letter) == x; ChosenIsUnused(v, content, d, k); }
      }
      assert LastOfTheDay(w, Entry(d, k), d);
      SkippedExactly(w, content, now);
    }
    hide Choose;
  }

  lemma {:induction false} LettersAre(v: View, d: Date)
    ensures forall s: Seq :: s in Letters(v, d) <==> Entry(d, s) in v
    ensures forall e :: e in v && e.date == d ==> e.letter in Letters(v, d)
  {
  }

  /** A snapshot is outside the window once its day's midnight is more than 31 days of 86400 seconds ago. */
  lemma {:induction false} OutsideExactly(d: Date, now: Now)
    requires IsDate(d) && IsDate(now.date) && now.second < 86400
    ensures Outside(d, now) <==>
              (Ordinal(now.date) * 86400 + now.second) - Ordinal(d) * 86400 > 31 * 86400
  {
    hide Ordinal;
  }

  /** A run of passes over one file on a clock that does not run back. */
  datatype Pass = Pass(content: Option<string>, now: Now)

  ghost predicate Run(views: seq<View>, passes: seq<Pass>) {
    && |views| == |passes| + 1 && views[0] == map[]
    && (forall i :: 0 <= i < |passes| ==> IsDate(passes[i].now.date))
    && (forall i, j :: 0 <= i < j < |passes| ==>
          passes[i].now.date == passes[j].now.date || Earlier(passes[i].now.date, passes[j].now.date))
    && (forall i :: 0 <= i < |views| ==> Dated(views[i]))
    && (forall i :: 0 <= i < |passes| ==> views[i + 1] == StepView(views[i], passes[i].content, passes[i].now))
  }

  /** The content last taken after a pass, from the one before it. */
  function Kept(v: View, p: Pass, taken: Option<string>): Option<string> {
    if p.content.Some? && !Choose(v, p.content.value, p.now.date).NoLetter? then p.content else taken
  }

  /** The content last taken before pass `n`; a pass with no letter left takes nothing. */
  ghost function LastTaken(views: seq<View>, passes: seq<Pass>, n: nat): Option<string>
    requires n <= |passes| && |views| == |passes| + 1
  {
    if n == 0 then None
    else
      Kept(views[n - 1], passes[n - 1], LastTaken(views, passes, n - 1))
  }

  /** Over every run the newest snapshot by name holds the content taken last. */
  lemma {:induction false} NewestIsTheLatestTaken(views: seq<View>, passes: seq<Pass>, n: nat)
    requires Run(views, passes) && n <= |passes|
    ensures Holds(views[n], LastTaken(views, passes, n))
  {
    if n == 0 {
      HoldsNothing(views[0]);
    } else {
      RunStaysSteady(views, passes, n);
    }
  }

  lemma {:induction false} RunStaysSteady(views: seq<View>, passes: seq<Pass>, n: nat)
    requires Run(views, passes) && 0 < n <= |passes|
    ensures Steady(views[n], passes[n - 1].now.date) && Holds(views[n], LastTaken(views, passes, n))
    decreases n
  {
    assert |views| == |passes| + 1;
    RunStep(views, passes, n);
    LastTakenStep(views, passes, n);
    hide Run, Steady, Holds, Choose, StepView, LastTaken, IsDate, Earlier;
    if n == 1 {
      NothingIsSteady(passes[0].now.date);
      HoldsNothing(views[0]);
      PassKeeps(views[0], passes[0], passes[0].now.date, None);
    } else {
      RunStaysSteady(views, passes, n - 1);
      PassKeeps(views[n - 1], passes[n - 1], passes[n - 2].now.date, LastTaken(views, passes, n - 1));
    }
  }

  lemma {:induction false} LastTakenStep(views: seq<View>, passes: seq<Pass>, n: nat)
    requires 0 < n <= |passes| && |views| == |passes| + 1
    ensures LastTaken(views, passes, n) == Kept(views[n - 1], passes[n - 1], LastTaken(views, passes, n - 1))
    ensures LastTaken(views, passes, 0) == None
  {
  }

  lemma {:induction false} HoldsNothing(v: View)
    ensures Holds(v, None)
  {
  }

  lemma {:induction false} RunStep(views: seq<View>, passes: seq<Pass>, n: nat)
    requires Run(views, passes) && 0 < n <= |passes|
    ensures var p := passes[n - 1];
            && IsDate(p.now.date) && Dated(views[n - 1]) && views[n] == StepView(views[n - 1], p.content, p.now)
            && (n == 1 ==> views[0] == map[])
            && (n > 1 ==> passes[n - 2].now.date == p.now.date || Earlier(passes[n - 2].now.date, p.now.date))
  {
  }

  lemma {:induction false} NothingIsSteady(d: Date)
    requires IsDate(d)
    ensures Steady(map[], d)
  {
  }

  lemma {:induction false} PassKeeps(v: View, p: Pass, last: Date, taken: Option<string>)
    requires Steady(v, last) && Holds(v, taken) && IsDate(p.now.date)
    requires (last == p.now.date || Earlier(last, p.now.date))
    ensures Dated(v) && Steady(StepView(v, p.content, p.now), p.now.date)
    ensures Holds(StepView(v, p.content, p.now), Kept(v, p, taken))
  {
    hide IsDate, PrunedView, Choose;
    var w := match p.content case None => v case Some(c) => TakenView(v, c, p.now);
    var kept := Kept(v, p, taken);
    if p.content.Some? {
      TakeKeepsSteady(v, p.content.value, p.now, last);
    } else {
      LaterIsSteady(v, last, p.now.date);
    }
    assert Holds(w, kept);
    PruneKeepsSteady(w, p.now);
    if kept.Some? {
      var e :| IsNewest(w, e) && w[e] == kept.value;
      NewestSurvives(w, p.now, e);
      PrunedKeeps(w, p.now, e);
    }
  }

  lemma {:induction false} PrunedKeeps(v: View, now: Now, e: Entry)
    requires Dated(v) && IsDate(now.date) && e in PrunedView(v, now)
    ensures e in v && PrunedView(v, now)[e] == v[e]
  {
  }

  lemma {:induction false} LaterIsSteady(v: View, last: Date, d: Date)
    requires Steady(v, last) && IsDate(d) && (last == d || Earlier(last, d))
    ensures Steady(v, d)
  {
    hide IsDate;
  }

  /** The pass that comes to view `k` drops the entry: outside the window, four newer ones beside it. */
  ghost predicate Drops(views: seq<View>, passes: seq<Pass>, k: nat, e: Entry)
    requires Run(views, passes) && k < |passes| && IsDate(e.date)
  {
    Prunable(AfterTurns(views[k], passes[k].content, passes[k].now), e, passes[k].now)
  }

  lemma {:induction false} TurnKeeps(v: View, content: Option<string>, now: Now, e: Entry)
    ensures e in v ==> e in AfterTurns(v, content, now) && AfterTurns(v, content, now)[e] == v[e]
    ensures e !in v && e.date != now.date ==> e !in AfterTurns(v, content, now)
  {
    if content.Some? && Choose(v, content.value, now.date).Next? {
      ChosenIsUnused(v, content.value, now.date, Choose(v, content.value, now.date).letter);
    }
    hide Choose;
  }

  lemma {:induction false} StepKeeps(v: View, p: Pass, e: Entry)
    requires Dated(v) && IsDate(p.now.date) && IsDate(e.date)
    ensures var w := StepView(v, p.content, p.now);
            && (e in v ==> (e in w <==> !Prunable(AfterTurns(v, p.content, p.now), e, p.now)))
            && (e in v && e in w ==> w[e] == v[e])
            && (e !in v && e.date != p.now.date ==> e !in w)
            && (e in v && e !in w ==> Ordinal(e.date) < Ordinal(p.now.date))
  {
    TurnKeeps(v, p.content, p.now, e);
    hide AfterTurns, Newer, IsDate;
  }

  lemma {:induction false} LaterDay(d: Date, e: Date, f: Date)
    requires IsDate(d) && IsDate(e) && IsDate(f) && Ordinal(d) < Ordinal(e) && (e == f || Earlier(e, f))
    ensures Ordinal(d) < Ordinal(f) && d != f
  {
    if e != f { OrdinalGrows(e, f); }
    hide Ordinal;
  }

  /** Over every run a snapshot is there, with what it held, exactly until a pass finds it outside the window with four
      newer ones beside it - and never again after. */
  lemma {:induction false} SnapshotStaysExactly(views: seq<View>, passes: seq<Pass>, i: nat, j: nat, e: Entry)
    requires Run(views, passes) && i <= j <= |passes| && e in views[i]
    ensures IsDate(e.date) && (e in views[j] <==> forall k :: i <= k < j ==> !Drops(views, passes, k, e))
    ensures e in views[j] ==> views[j][e] == views[i][e]
    ensures e !in views[j] ==>
              j > i && IsDate(passes[j - 1].now.date) && Ordinal(e.date) < Ordinal(passes[j - 1].now.date)
    decreases j
  {
    assert Dated(views[i]);
    if i < j {
      SnapshotStaysExactly(views, passes, i, j - 1, e);
      RunStep(views, passes, j);
      assert Drops(views, passes, j - 1, e)
          == Prunable(AfterTurns(views[j - 1], passes[j - 1].content, passes[j - 1].now), e, passes[j - 1].now);
      hide Run, StepView, IsDate, Earlier, Ordinal, Drops, Prunable, AfterTurns;
      StepKeeps(views[j - 1], passes[j - 1], e);
      if e !in views[j - 1] { LaterDay(e.date, passes[j - 2].now.date, passes[j - 1].now.date); }
    }
  }

  // ---- the directory -----------------------------------------------------------------------------------------------

  lemma {:induction false} StampBack(s: string)
    requires |s| == 6 && ReadStamp(s).Some?
    ensures Stamp(ReadStamp(s).value) == s
  {
    var d := ReadStamp(s).value;
    CenturyYear(Number(s[0], s[1]));
    TwoBack(s[0], s[1]);
    TwoBack(s[2], s[3]);
    TwoBack(s[4], s[5]);
    assert Stamp(d) == [s[0], s[1]] + [s[2], s[3]] + [s[4], s[5]];
  }

  lemma {:induction false} CenturyYear(yy: int)
    requires 0 <= yy <= 99
    ensures Century(yy) % 100 == yy && 1969 <= Century(yy) <= 2068
  {
  }

  lemma {:induction false} BodyBack(body: string, letter: Seq)
    requires ReadBody(body, letter).Some?
    ensures var n := ReadBody(body, letter).value;
            && IsDate(n.entry.date) && n.entry.letter == letter && Readable(n.stem, n.entry.date)
            && n.stem + "_" + Stamp(n.entry.date) == body
  {
    var n := |body|;
    StampBack(body[n - 6..]);
    CenturyYear(Number(body[n - 6..][0], body[n - 6..][1]));
    hide Stamp, IsDate;
    assert body == body[..n - 7] + "_" + body[n - 6..];
  }

  /** A name that reads is the name of what it reads as. */
  lemma {:induction false} ParsedIsBuilt(name: string)
    requires Parse(name).Some?
    ensures var n := Parse(name).value;
            IsDate(n.entry.date) && Readable(n.stem, n.entry.date) && SnapshotName(n.stem, n.entry) == name
  {
    var n := |name| - |SUFFIX|;
    var body := name[..n];
    assert name == body + SUFFIX;
    hide ReadBody, Stamp, IsDate;
    if 'b' <= body[n - 1] <= 'z' {
      BodyBack(body[..n - 1], (body[n - 1] as int - 'a' as int) as Seq);
      assert body == body[..n - 1] + [body[n - 1]];
    } else {
      BodyBack(body, 0);
    }
  }

  type Files = map<string, string>

  /** The snapshots of a file among the names of the directory. */
  ghost function Listed(files: Files, stem: string): set<Entry> {
    set name | name in files && Parse(name).Some? && Parse(name).value.stem == stem :: Parse(name).value.entry
  }

  lemma {:induction false} ListedIs(files: Files, stem: string, e: Entry)
    ensures e in Listed(files, stem) ==>
              IsDate(e.date) && Readable(stem, e.date) && SnapshotName(stem, e) in files
              && Parse(SnapshotName(stem, e)) == Some(Named(stem, e))
    ensures IsDate(e.date) && SnapshotName(stem, e) in files && Parse(SnapshotName(stem, e)) == Some(Named(stem, e)) ==>
              e in Listed(files, stem)
  {
    hide Parse, SnapshotName, IsDate, Readable;
    if e in Listed(files, stem) {
      var name :| name in files && Parse(name).Some? && Parse(name).value.stem == stem && Parse(name).value.entry == e;
      ParsedIsBuilt(name);
    }
  }

  /** A file's snapshots and what they hold. */
  ghost function ViewOf(files: Files, stem: string): (v: View)
    ensures Dated(v)
  {
    ListedAll(files, stem);
    map e | e in Listed(files, stem) :: files[SnapshotName(stem, e)]
  }

  lemma {:induction false} ListedAll(files: Files, stem: string)
    ensures forall e :: e in Listed(files, stem) ==> IsDate(e.date) && SnapshotName(stem, e) in files
  {
    hide Parse, SnapshotName, IsDate, Listed;
    forall e | e in Listed(files, stem) ensures IsDate(e.date) && SnapshotName(stem, e) in files {
      ListedIs(files, stem, e);
    }
  }

  lemma {:induction false} NameTells(stem: string, other: string, a: Entry, b: Entry)
    requires IsDate(a.date) && IsDate(b.date) && Readable(stem, a.date) && Readable(other, b.date)
    requires SnapshotName(stem, a) == SnapshotName(other, b)
    ensures stem == other && a == b
  {
    hide IsDate, Readable, SnapshotName, Parse;
    NameReadsBackExactly(stem, a);
    NameReadsBackExactly(other, b);
  }

  /** A snapshot written shows in its file's view. */
  lemma {:induction false} WrittenShows(files: Files, stem: string, e: Entry, content: string)
    requires IsDate(e.date) && Readable(stem, e.date)
    ensures ViewOf(files[SnapshotName(stem, e) := content], stem) == ViewOf(files, stem)[e := content]
  {
    hide Parse, SnapshotName, IsDate, Readable, Listed;
    var after := files[SnapshotName(stem, e) := content];
    ListedGrows(files, stem, e, content);
    ListedAll(after, stem);
    ListedAll(files, stem);
    var v, w := ViewOf(files, stem), ViewOf(after, stem);
    forall x | x in w ensures w[x] == if x == e then content else v[x] {
      if x != e { ListedBut(files, stem, e, content, x); }
    }
    hide ViewOf;
    assert w == v[e := content];
  }

  lemma {:induction false} ListedGrows(files: Files, stem: string, e: Entry, content: string)
    requires IsDate(e.date) && Readable(stem, e.date)
    ensures Listed(files[SnapshotName(stem, e) := content], stem) == Listed(files, stem) + {e}
  {
    var after := files[SnapshotName(stem, e) := content];
    NameReadsBackExactly(stem, e);
    hide Parse, SnapshotName, IsDate, Readable, Listed;
    ListedIs(after, stem, e);
    forall x | x != e ensures x in Listed(after, stem) <==> x in Listed(files, stem) {
      ListedBut(files, stem, e, content, x);
    }
  }

  lemma {:induction false} ListedBut(files: Files, stem: string, e: Entry, content: string, x: Entry)
    requires IsDate(e.date) && Readable(stem, e.date) && x != e
    ensures x in Listed(files[SnapshotName(stem, e) := content], stem) <==> x in Listed(files, stem)
    ensures x in Listed(files, stem) ==> IsDate(x.date) && SnapshotName(stem, x) != SnapshotName(stem, e)
  {
    hide Parse, SnapshotName, IsDate, Readable, Listed;
    var after := files[SnapshotName(stem, e) := content];
    ListedIs(files, stem, x);
    ListedIs(after, stem, x);
    if IsDate(x.date) && Readable(stem, x.date) && SnapshotName(stem, x) == SnapshotName(stem, e) {
      NameTells(stem, stem, e, x);
    }
  }

  /** Snapshots removed are gone from their file's view and from no other. */
  lemma {:induction false} RemovedGoes(files: Files, stem: string, gone: set<Entry>, names: set<string>, other: string)
    requires gone <= Listed(files, stem)
    requires forall e :: e in gone ==> IsDate(e.date)
    requires names == set e | e in gone :: SnapshotName(stem, e)
    ensures ViewOf(files - names, other)
         == if other == stem then ViewOf(files, stem) - gone else ViewOf(files, other)
  {
    hide Parse, SnapshotName, IsDate, Readable, Listed;
    var after := files - names;
    forall x ensures x in Listed(after, other) <==> x in Listed(files, other) && !(other == stem && x in gone) {
      ListedIs(files, other, x);
      ListedIs(after, other, x);
      if other == stem && x in gone { assert SnapshotName(stem, x) in names; }
      if x in Listed(files, other) && SnapshotName(other, x) in names {
        var e :| e in gone && SnapshotName(stem, e) == SnapshotName(other, x);
        ListedIs(files, stem, e);
        NameTells(stem, other, e, x);
      }
    }
    ListedAll(after, other);
    ListedAll(files, other);
    if other == stem {
      assert Listed(after, stem) == Listed(files, stem) - gone;
      assert ViewOf(after, stem) == ViewOf(files, stem) - gone;
    } else {
      assert Listed(after, other) == Listed(files, other);
      assert ViewOf(after, other) == ViewOf(files, other);
    }
  }

  // ---- the passes --------------------------------------------------------------------------------------------------

  /** A live configuration file without its `.json`. */
  datatype Live = Live(stem: string, content: string)

  datatype Outcome = Created(name: string) | Skipped(name: string) | OutOfLetters

  /** The backup directory. */
  class Backups {
    var files: Files

    /** `list_snapshots` for one file: its snapshots sorted by date and letter. */
    method ListSnapshots(stem: string) returns (entries: seq<Entry>)
      ensures InOrder(entries) && forall e :: e in entries <==> e in ViewOf(files, stem)
    {
      hide Parse, IsDate, SnapshotName;
      entries := [];
      var left := files.Keys;
      while left != {}
        invariant left <= files.Keys && InOrder(entries)
        invariant forall e :: e in entries <==> exists n :: n in files.Keys - left && Parse(n) == Some(Named(stem, e))
        decreases |left|
      {
        var name :| name in left;
        left := left - {name};
        var n := Parse(name);
        if n.Some? && n.value.stem == stem && n.value.entry !in entries {
          InsertedIsOrdered(entries, n.value.entry);
          entries := Inserted(entries, n.value.entry);
        }
      }
      forall e ensures e in entries <==> e in ViewOf(files, stem) {
        if e in entries {
          var n :| n in files.Keys && Parse(n) == Some(Named(stem, e));
        }
      }
    }

    /** One file's turn in `take_snapshot`: nothing where today's last snapshot holds its content, else a name today has
        not used - or none left. */
    method TakeOne(live: Live, now: Now) returns (o: Outcome)
      requires IsDate(now.date)
      modifies this
      ensures Readable(live.stem, now.date) ==>
                && ViewOf(files, live.stem) == TakenView(ViewOf(old(files), live.stem), live.content, now)
                && (o.Created? ==> o.name !in old(files))
                && (o.OutOfLetters? <==> Choose(ViewOf(old(files), live.stem), live.content, now.date).NoLetter?)
      ensures forall other :: other != live.stem ==> ViewOf(files, other) == ViewOf(old(files), other)
      ensures o.Created? ==> files == old(files)[o.name := live.content]
      ensures !o.Created? ==> files == old(files)
    {
      hide Parse, SnapshotName, IsDate, Readable, Listed, InOrder;
      ghost var view := ViewOf(files, live.stem);
      var entries := ListSnapshots(live.stem);
      var used, last := LettersOf(entries, now.date);
      assert used == Letters(view, now.date);
      var letter: Seq := 0;
      if used != {} {
        var name := SnapshotName(live.stem, Entry(now.date, last));
        assert Entry(now.date, last) in view;
        ListedAll(files, live.stem);
        if files[name] == live.content {
          return Skipped(name);
        }
        var next := FirstUnused(used, 1);
        if next.None? {
          return OutOfLetters;
        }
        letter := next.value;
      }
      var e := Entry(now.date, letter);
      assert e in view ==> letter in Letters(view, now.date);
      if Readable(live.stem, now.date) { FreshName(files, live.stem, e); }
      WrittenElsewhere(files, live.stem, e, live.content);
      files := files[SnapshotName(live.stem, e) := live.content];
      o := Created(SnapshotName(live.stem, e));
    }

    /** `_prune`: of all but the newest four, the ones outside the window. */
    method Prune(stem: string, now: Now)
      requires IsDate(now.date)
      modifies this
      ensures ViewOf(files, stem) == PrunedView(ViewOf(old(files), stem), now)
      ensures forall other :: other != stem ==> ViewOf(files, other) == ViewOf(old(files), other)
    {
      hide Parse, SnapshotName, Readable, Listed, InOrder, Outside, EntryBefore;
      ghost var view := ViewOf(files, stem);
      var entries := ListSnapshots(stem);
      ListedAll(files, stem);
      var gone: set<Entry> := {};
      var i := 0;
      while i + RETENTION_MIN_KEEP < |entries|
        invariant 0 <= i <= |entries|
        invariant gone == set j |
                    0 <= j < i && j + RETENTION_MIN_KEEP < |entries| && Outside(entries[j].date, now) :: entries[j]
        decreases |entries| - i
      {
        assert entries[i] in view;
        if Outside(entries[i].date, now) {
          gone := gone + {entries[i]};
        }
        i := i + 1;
      }
      forall e | e in view ensures e in gone <==> Prunable(view, e, now) {
        assert e in entries;
        var j :| 0 <= j < |entries| && entries[j] == e;
        NewerCount(view, entries, j);
        OnlyPlace(entries, j);
      }
      assert PrunedView(view, now) == view - gone;
      var names := set e | e in gone :: SnapshotName(stem, e);
      RemovedElsewhere(files, stem, gone, names);
      files := files - names;
    }

    /** `take_snapshot`: every live file's turn, then every file's pruning. */
    method TakeSnapshot(live: seq<Live>, now: Now)
      requires IsDate(now.date) && 1969 <= now.date.year <= 2068
      requires forall i, j :: 0 <= i < j < |live| ==> live[i].stem != live[j].stem
      modifies this
      ensures forall stem :: Readable(stem, now.date) ==>
                ViewOf(files, stem) == StepView(ViewOf(old(files), stem), ContentOf(live, stem), now)
    {
      hide IsDate, Readable, ViewOf, AfterTurns, PrunedView;
      TakeTurns(live, now);
      PruneAll(now);
    }

    method TakeTurns(live: seq<Live>, now: Now)
      requires IsDate(now.date)
      requires forall i, j :: 0 <= i < j < |live| ==> live[i].stem != live[j].stem
      modifies this
      ensures forall stem :: Readable(stem, now.date) ==>
                ViewOf(files, stem) == AfterTurns(ViewOf(old(files), stem), ContentOf(live, stem), now)
    {
      hide IsDate, Readable, Listed, TakenView, PrunedView, Choose, ViewOf;
      for i := 0 to |live|
        invariant forall stem :: Readable(stem, now.date) ==>
                    ViewOf(files, stem) == AfterTurns(ViewOf(old(files), stem), ContentOf(live[..i], stem), now)
      {
        var o := TakeOne(live[i], now);
        forall stem | Readable(stem, now.date)
          ensures ViewOf(files, stem) == AfterTurns(ViewOf(old(files), stem), ContentOf(live[..i + 1], stem), now)
        {
          ContentGrows(live, i, stem);
        }
      }
      assert live[..|live|] == live;
    }

    method PruneAll(now: Now)
      requires IsDate(now.date)
      modifies this
      ensures forall stem :: ViewOf(files, stem) == PrunedView(ViewOf(old(files), stem), now)
    {
      PrunedNothing(now);
      hide IsDate, PrunedView, ViewOf, Parse;
      var left := set name | name in files && Parse(name).Some? :: Parse(name).value.stem;
      ghost var all := left;
      while left != {}
        invariant left <= all
        invariant forall stem :: stem in all - left ==> ViewOf(files, stem) == PrunedView(ViewOf(old(files), stem), now)
        invariant forall stem :: stem !in all - left ==> ViewOf(files, stem) == ViewOf(old(files), stem)
        decreases |left|
      {
        var stem :| stem in left;
        left := left - {stem};
        Prune(stem, now);
      }
      forall stem | stem !in all ensures ViewOf(old(files), stem) == map[] { NoneListed(old(files), stem); }
    }
  }

  /** The content a file has today. */
  function ContentOf(live: seq<Live>, stem: string): Option<string> {
    if live == [] then None
    else if live[|live| - 1].stem == stem then Some(live[|live| - 1].content)
    else ContentOf(live[..|live| - 1], stem)
  }

  /** A day's letters among the entries, and the last of them. */
  method LettersOf(entries: seq<Entry>, d: Date) returns (used: set<Seq>, last: Seq)
    requires InOrder(entries)
    ensures used == set e | e in entries && e.date == d :: e.letter
    ensures used != {} ==> Greatest(used, last)
  {
    used, last := {}, 0;
    for i := 0 to |entries|
      invariant used == set e | e in entries[..i] && e.date == d :: e.letter
      invariant used != {} ==> Greatest(used, last) && exists j :: 0 <= j < i && entries[j] == Entry(d, last)
    {
      if entries[i].date == d {
        used, last := used + {entries[i].letter}, entries[i].letter;
      }
    }
    assert entries[..|entries|] == entries;
  }

  /** An entry put in its place. */
  function Inserted(entries: seq<Entry>, e: Entry): seq<Entry> {
    if entries == [] || !EntryBefore(e, entries[|entries| - 1]) then entries + [e]
    else Inserted(entries[..|entries| - 1], e) + [entries[|entries| - 1]]
  }

  lemma {:induction false} InsertedIsOrdered(entries: seq<Entry>, e: Entry)
    requires InOrder(entries) && e !in entries
    ensures InOrder(Inserted(entries, e)) && forall x :: x in Inserted(entries, e) <==> x == e || x in entries
    decreases |entries|
  {
    if entries != [] {
      var last := entries[|entries| - 1];
      var init := entries[..|entries| - 1];
      if EntryBefore(e, last) {
        InsertedIsOrdered(init, e);
        forall x | x in Inserted(init, e) ensures EntryBefore(x, last) {
          if x != e {
            var i :| 0 <= i < |init| && init[i] == x;
          }
        }
      } else {
        assert last in entries;
        forall i | 0 <= i < |entries| ensures EntryBefore(entries[i], e) {}
      }
    }
  }

  /** Whatever stem a name is built of, it reads as no other's. */
  lemma {:induction false} OwnStemOnly(stem: string, e: Entry)
    requires IsDate(e.date)
    ensures Parse(SnapshotName(stem, e)).Some? ==> Parse(SnapshotName(stem, e)).value.stem == stem
  {
    var name := SnapshotName(stem, e);
    if Parse(name).Some? {
      ParsedIsBuilt(name);
      var n := Parse(name).value;
      StampReads(e.date);
      StampReads(n.entry.date);
      hide Parse, Stamp, ReadStamp, IsDate, Readable;
      var mine := stem + "_" + Stamp(e.date) + Letter(e.letter);
      var read := n.stem + "_" + Stamp(n.entry.date) + Letter(n.entry.letter);
      assert name == mine + SUFFIX == read + SUFFIX;
      assert mine == name[..|name| - |SUFFIX|] == read;
      var k := |mine|;
      assert e.letter == 0 ==> mine[k - 1] == Stamp(e.date)[5];
      assert n.entry.letter == 0 ==> read[k - 1] == Stamp(n.entry.date)[5];
      assert e.letter != 0 ==> mine[k - 1] == 'a' + e.letter as char;
      assert n.entry.letter != 0 ==> read[k - 1] == 'a' + n.entry.letter as char;
      assert (e.letter == 0) == (n.entry.letter == 0);
      assert |stem| == |n.stem| && mine[..|stem|] == stem && read[..|stem|] == n.stem;
    }
  }

  lemma {:induction false} FreshName(files: Files, stem: string, e: Entry)
    requires IsDate(e.date) && e !in ViewOf(files, stem) && Readable(stem, e.date)
    ensures SnapshotName(stem, e) !in files
  {
    hide Parse, SnapshotName, IsDate, Readable, Listed;
    NameReadsBackExactly(stem, e);
    ListedIs(files, stem, e);
  }

  lemma {:induction false} WrittenElsewhere(files: Files, stem: string, e: Entry, content: string)
    requires IsDate(e.date)
    ensures Readable(stem, e.date) ==>
              ViewOf(files[SnapshotName(stem, e) := content], stem) == ViewOf(files, stem)[e := content]
    ensures forall other :: other != stem ==>
              ViewOf(files[SnapshotName(stem, e) := content], other) == ViewOf(files, other)
  {
    hide Parse, SnapshotName, IsDate, Readable, Listed;
    if Readable(stem, e.date) { WrittenShows(files, stem, e, content); }
    forall other | other != stem
      ensures ViewOf(files[SnapshotName(stem, e) := content], other) == ViewOf(files, other)
    {
      OtherUnmoved(files, stem, e, content, other);
    }
  }

  lemma {:induction false} OtherUnmoved(files: Files, stem: string, e: Entry, content: string, other: string)
    requires IsDate(e.date) && other != stem
    ensures ViewOf(files[SnapshotName(stem, e) := content], other) == ViewOf(files, other)
  {
    hide Parse, SnapshotName, IsDate, Readable, Listed;
    var name := SnapshotName(stem, e);
    var after := files[name := content];
    OwnStemOnly(stem, e);
    forall x ensures x in Listed(after, other) <==> x in Listed(files, other) {
      ListedIs(files, other, x);
      ListedIs(after, other, x);
    }
    ListedAll(files, other);
    forall x | x in Listed(files, other) ensures SnapshotName(other, x) != name {
      ListedIs(files, other, x);
    }
    assert Listed(after, other) == Listed(files, other);
  }

  lemma {:induction false} RemovedElsewhere(files: Files, stem: string, gone: set<Entry>, names: set<string>)
    requires gone <= Listed(files, stem)
    requires forall e :: e in gone ==> IsDate(e.date)
    requires names == set e | e in gone :: SnapshotName(stem, e)
    ensures forall other ::
              ViewOf(files - names, other)
              == (if other == stem then ViewOf(files, stem) - gone else ViewOf(files, other))
  {
    hide Parse, SnapshotName, IsDate, Readable, Listed;
    forall other ensures ViewOf(files - names, other)
         == if other == stem then ViewOf(files, stem) - gone else ViewOf(files, other)
    {
      RemovedGoes(files, stem, gone, names, other);
    }
  }

  /** In any directory a turn writes over what is there exactly where its names do not read back and the day's first
      name is taken. */
  lemma {:induction false} OverwrittenExactlyWhereUnreadable(files: Files, stem: string, d: Date, content: string,
                                                             k: Seq)
    requires IsDate(d) && Choose(ViewOf(files, stem), content, d) == Next(k)
    ensures SnapshotName(stem, Entry(d, k)) in files <==> !Readable(stem, d) && SnapshotName(stem, Entry(d, 0)) in files
  {
    hide Parse, SnapshotName, IsDate, Readable, ViewOf, Letters, Newest;
    ChosenIsUnused(ViewOf(files, stem), content, d, k);
    if Readable(stem, d) {
      FreshName(files, stem, Entry(d, k));
    } else {
      UnreadShowsNone(files, stem, d);
    }
  }

  lemma {:induction false} ChosenIsUnused(v: View, content: string, d: Date, k: Seq)
    requires Choose(v, content, d) == Next(k)
    ensures Entry(d, k) !in v && (Letters(v, d) == {} ==> k == 0)
  {
    hide Newest;
    assert Entry(d, k) in v ==> k in Letters(v, d);
  }

  lemma {:induction false} UnreadShowsNone(files: Files, stem: string, d: Date)
    requires !Readable(stem, d)
    ensures Letters(ViewOf(files, stem), d) == {}
  {
    hide Parse, SnapshotName, IsDate, Readable, Listed;
    var v := ViewOf(files, stem);
    forall e | e in v ensures e.date != d { ListedIs(files, stem, e); }
  }

  /** A day's second content beside its first: a second name, or the first one's. */
  lemma {:induction false} SecondContentOfTheDay(stem: string, d: Date, first: string, second: string)
    requires IsDate(d) && first != second
    ensures var files: Files := map[SnapshotName(stem, Entry(d, 0)) := first];
            var c := Choose(ViewOf(files, stem), second, d);
            c.Next? && (SnapshotName(stem, Entry(d, c.letter)) in files <==> !Readable(stem, d))
  {
    hide Parse, SnapshotName, IsDate, Readable, Listed, ViewOf, Letters, FirstUnused, Newest;
    var files: Files := map[SnapshotName(stem, Entry(d, 0)) := first];
    OneSnapshot(stem, d, first);
    FirstAfterNone({0 as Seq});
    OverwrittenExactlyWhereUnreadable(files, stem, d, second, Choose(ViewOf(files, stem), second, d).letter);
  }

  /** The file «.json» of 2024-05-06: its second content takes the first one's name. */
  lemma {:induction false} NamelessIsWrittenOver(first: string, second: string)
    requires first != second
    ensures var d := Date(2024, 5, 6);
            var files: Files := map[SnapshotName("", Entry(d, 0)) := first];
            var c := Choose(ViewOf(files, ""), second, d);
            c.Next? && SnapshotName("", Entry(d, c.letter)) in files
  {
    assert IsDate(Date(2024, 5, 6)) && !Readable("", Date(2024, 5, 6));
    hide Choose, ViewOf, SnapshotName, IsDate, Readable;
    SecondContentOfTheDay("", Date(2024, 5, 6), first, second);
  }

  lemma {:induction false} OneSnapshot(stem: string, d: Date, first: string)
    requires IsDate(d)
    ensures var v := ViewOf(map[SnapshotName(stem, Entry(d, 0)) := first], stem);
            if Readable(stem, d) then Letters(v, d) == {0 as Seq} && Entry(d, 0) in v && v[Entry(d, 0)] == first
            else Letters(v, d) == {}
  {
    var files: Files := map[SnapshotName(stem, Entry(d, 0)) := first];
    NameReadsBackExactly(stem, Entry(d, 0));
    hide Parse, SnapshotName, IsDate, Readable, Listed;
    var v := ViewOf(files, stem);
    forall k: Seq ensures Entry(d, k) in v <==> k == 0 && Readable(stem, d) {
      ListedIs(files, stem, Entry(d, k));
      if Entry(d, k) in v { NameTells(stem, stem, Entry(d, k), Entry(d, 0)); }
    }
    forall k: Seq ensures k in Letters(v, d) <==> Entry(d, k) in v {}
  }

  lemma {:induction false} FirstAfterNone(used: set<Seq>)
    requires used == {0 as Seq}
    ensures Newest(used) == 0 && FirstUnused(used, 1) == Some(1 as Seq)
  {
  }

  lemma {:induction false} PrunedNothing(now: Now)
    requires IsDate(now.date)
    ensures PrunedView(map[], now) == map[]
  {
  }

  lemma {:induction false} NoneListed(files: Files, stem: string)
    requires stem !in set name | name in files && Parse(name).Some? :: Parse(name).value.stem
    ensures ViewOf(files, stem) == map[]
  {
    hide Parse, SnapshotName, IsDate;
    assert Listed(files, stem) == {};
  }

  lemma {:induction false} OnlyPlace(entries: seq<Entry>, j: nat)
    requires InOrder(entries) && j < |entries|
    ensures forall i :: 0 <= i < |entries| && entries[i] == entries[j] ==> i == j
  {
    forall i | 0 <= i < |entries| && i != j ensures entries[i] != entries[j] {
      if i < j { assert EntryBefore(entries[i], entries[j]); } else { assert EntryBefore(entries[j], entries[i]); }
    }
  }

  /** In a sorted list an entry has as many newer ones as stand behind it. */
  lemma {:induction false} NewerCount(v: View, entries: seq<Entry>, j: nat)
    requires InOrder(entries) && (forall e :: e in entries <==> e in v) && j < |entries|
    ensures |Newer(v, entries[j])| == |entries| - 1 - j
    decreases |entries| - j
  {
    NewerStep(v, entries, j);
    hide Newer, InOrder;
    if j + 1 < |entries| { NewerCount(v, entries, j + 1); }
  }

  lemma {:induction false} NewerStep(v: View, entries: seq<Entry>, j: nat)
    requires InOrder(entries) && (forall e :: e in entries <==> e in v) && j < |entries|
    ensures j + 1 == |entries| ==> Newer(v, entries[j]) == {}
    ensures j + 1 < |entries| ==> entries[j + 1] !in Newer(v, entries[j + 1])
    ensures j + 1 < |entries| ==> Newer(v, entries[j]) == Newer(v, entries[j + 1]) + {entries[j + 1]}
  {
    var newer := Newer(v, entries[j]);
    forall x ensures x in newer <==> exists i :: j < i < |entries| && entries[i] == x {
      BehindIsNewer(v, entries, j, x);
    }
    if j + 1 < |entries| {
      var next := Newer(v, entries[j + 1]);
      forall x ensures x in next <==> exists i :: j + 1 < i < |entries| && entries[i] == x {
        BehindIsNewer(v, entries, j + 1, x);
      }
      OnlyPlace(entries, j + 1);
      hide Newer, InOrder;
      forall x ensures x in newer <==> x in next || x == entries[j + 1] {
        if x in newer { var i :| j < i < |entries| && entries[i] == x; }
      }
    }
  }

  lemma {:induction false} BehindIsNewer(v: View, entries: seq<Entry>, j: nat, x: Entry)
    requires InOrder(entries) && (forall e :: e in entries <==> e in v) && j < |entries|
    ensures x in Newer(v, entries[j]) <==> exists i :: j < i < |entries| && entries[i] == x
  {
    hide Earlier;
    BeforeIsOneWay(entries[j], x);
    if x in Newer(v, entries[j]) {
      var i :| 0 <= i < |entries| && entries[i] == x;
      assert i > j;
    }
  }

  lemma {:induction false} BeforeIsOneWay(a: Entry, b: Entry)
    ensures !(EntryBefore(a, b) && EntryBefore(b, a)) && !EntryBefore(a, a)
  {
  }

  /** Of a file's snapshots in order the pruning keeps exactly the last four and the ones inside the window, as they
      are. */
  lemma {:induction false} PrunedExactly(v: View, entries: seq<Entry>, j: nat, now: Now)
    requires Dated(v) && IsDate(now.date)
    requires InOrder(entries) && (forall e :: e in entries <==> e in v) && j < |entries|
    ensures entries[j] in PrunedView(v, now) <==> j + RETENTION_MIN_KEEP >= |entries| || !Outside(entries[j].date, now)
    ensures entries[j] in PrunedView(v, now) ==> PrunedView(v, now)[entries[j]] == v[entries[j]]
  {
    hide Outside, IsDate, Newer, InOrder;
    assert entries[j] in entries;
    NewerCount(v, entries, j);
  }

  lemma {:induction false} ContentGrows(live: seq<Live>, i: nat, stem: string)
    requires i < |live| && forall a, b :: 0 <= a < b < |live| ==> live[a].stem != live[b].stem
    ensures ContentOf(live[..i + 1], stem)
            == if live[i].stem == stem then Some(live[i].content) else ContentOf(live[..i], stem)
    ensures live[i].stem == stem ==> ContentOf(live[..i], stem) == None
  {
    assert live[..i + 1][..i] == live[..i];
    if live[i].stem == stem { ContentNowhere(live[..i], stem); }
  }

  lemma {:induction false} ContentNowhere(live: seq<Live>, stem: string)
    requires forall a :: 0 <= a < |live| ==> live[a].stem != stem
    ensures ContentOf(live, stem) == None
    decreases |live|
  {
    if live != [] { ContentNowhere(live[..|live| - 1], stem); }
  }
}
