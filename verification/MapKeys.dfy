/** Map identities: components canonicalised by their declared type, joined, split and joined again
    (map_overlay.canonical_key_value, compose_map_id, map_key_parts, canonical_map_key). */
module MapKeys {
  import opened Syntax
  import opened Words

  const JOINER := '_'

  // ---- one component -----------------------------------------------------------------------------------------------

  datatype ColumnType = Number | Datetime | Plain

  /** What float() makes of a text: nothing, a number that is no identity (NaN, infinite, 2^53 and up), or one with its
      spelling - an integer's digits or the short spelling of the float. */
  datatype FloatRead = Unread | NoIdentity | Spelled(text: string)

  /** The two readers this file calls and does not hold: float's text, and the zone's wall clock of a time. */
  datatype Readers = Readers(floatText: string -> FloatRead, timeText: string -> Option<string>)

  function TrimLeft(s: string): string { if s != "" && IsSpace(s[0]) then TrimLeft(s[1..]) else s }
  function TrimRight(s: string): string { if s != "" && IsSpace(s[|s| - 1]) then TrimRight(s[..|s| - 1]) else s }
  /** str.strip */
  function Trim(s: string): string { TrimRight(TrimLeft(s)) }

  function Unsigned(s: string): string { if s != "" && (s[0] == '+' || s[0] == '-') then s[1..] else s }

  /** ^[+-]?[0-9]+$ */
  predicate IsInteger(s: string) { var u := Unsigned(s); u != "" && DigitSpan(u) == |u| }

  function NoZeros(s: string): string { if |s| > 1 && s[0] == '0' then NoZeros(s[1..]) else s }

  /** str(int(s)): the digits without their leading zeros, a minus only where there is something below zero. */
  function IntText(s: string): string
    requires IsInteger(s)
  {
    var digits := NoZeros(Unsigned(s));
    if s[0] == '-' && digits != "0" then "-" + digits else digits
  }

  /** What float's and the clock's own spellings keep: spelling one again changes nothing, or it is no longer read. */
  ghost predicate Lawful(r: Readers) {
    && (forall s, t {:trigger r.floatText(s), Trim(t)} :: r.floatText(s) == Spelled(t) ==>
          && t != "" && Trim(t) == t
          && (if IsInteger(t) then IntText(t) == t else r.floatText(t) == Spelled(t)))
    && (forall s, t {:trigger r.timeText(s), Trim(t)} :: r.timeText(s) == Some(t) ==>
          t != "" && Trim(t) == t && (r.timeText(t) == Some(t) || r.timeText(t) == None))
  }

  /** `canonical_key_value` on a text or nothing; a blank is nothing. */
  function Canonical(r: Readers, kind: ColumnType, value: Option<string>): Option<string> {
    if value.None? || Trim(value.value) == "" then None
    else
      var s := Trim(value.value);
      match kind
      case Plain => Some(s)
      case Datetime => (match r.timeText(s) case Some(t) => Some(t) case None => Some(s))
      case Number =>
        if IsInteger(s) then Some(IntText(s))
        else
          match r.floatText(s)
          case Unread => Some(s)
          case NoIdentity => None
          case Spelled(t) => Some(t)
  }

  lemma {:induction false} TrimLeftTwice(s: string)
    ensures TrimLeft(TrimLeft(s)) == TrimLeft(s)
    decreases |s|
  {
    if s != "" && IsSpace(s[0]) { TrimLeftTwice(s[1..]); }
  }

  lemma {:induction false} TrimRightTwice(s: string)
    ensures TrimRight(TrimRight(s)) == TrimRight(s)
    decreases |s|
  {
    if s != "" && IsSpace(s[|s| - 1]) { TrimRightTwice(s[..|s| - 1]); }
  }

  lemma {:induction false} TrimRightKeepsTheStart(s: string)
    requires s == "" || !IsSpace(s[0])
    ensures TrimRight(s) == "" || TrimRight(s)[0] == s[0]
    decreases |s|
  {
    if s != "" && IsSpace(s[|s| - 1]) { TrimRightKeepsTheStart(s[..|s| - 1]); }
  }

  lemma {:induction false} TrimLeftStarts(s: string)
    ensures TrimLeft(s) == "" || !IsSpace(TrimLeft(s)[0])
    decreases |s|
  {
    if s != "" && IsSpace(s[0]) { TrimLeftStarts(s[1..]); }
  }

  lemma {:induction false} TrimTwice(s: string)
    ensures Trim(Trim(s)) == Trim(s)
  {
    TrimLeftStarts(s);
    TrimRightKeepsTheStart(TrimLeft(s));
    TrimRightTwice(TrimLeft(s));
  }

  predicate AllBlank(s: string) { forall i :: 0 <= i < |s| ==> IsSpace(s[i]) }

  /** Trimming takes the blanks at both ends and nothing else. */
  lemma {:induction false} TrimTakesTheEnds(s: string) returns (lead: string, trail: string)
    ensures s == lead + Trim(s) + trail && AllBlank(lead) && AllBlank(trail)
    ensures Trim(s) != "" ==> !IsSpace(Trim(s)[0]) && !IsSpace(Trim(s)[|Trim(s)| - 1])
  {
    lead := LeftEnd(s);
    trail := RightEnd(TrimLeft(s));
    TrimLeftStarts(s);
    TrimRightKeepsTheStart(TrimLeft(s));
  }

  lemma {:induction false} LeftEnd(s: string) returns (lead: string)
    ensures s == lead + TrimLeft(s) && AllBlank(lead)
    decreases |s|
  {
    lead := "";
    if s != "" && IsSpace(s[0]) {
      var more := LeftEnd(s[1..]);
      lead := [s[0]] + more;
      assert s == [s[0]] + s[1..];
    }
  }

  lemma {:induction false} RightEnd(s: string) returns (trail: string)
    ensures s == TrimRight(s) + trail && AllBlank(trail)
    ensures TrimRight(s) != "" ==> !IsSpace(TrimRight(s)[|TrimRight(s)| - 1])
    decreases |s|
  {
    trail := "";
    if s != "" && IsSpace(s[|s| - 1]) {
      var n := |s| - 1;
      var more := RightEnd(s[..n]);
      trail := more + [s[n]];
      assert s == s[..n] + [s[n]];
    }
  }

  predicate AllDigits(s: string) { forall i :: 0 <= i < |s| ==> IsDigit(s[i]) }

  lemma {:induction false} DigitSpanWhole(s: string)
    ensures DigitSpan(s) == |s| <==> AllDigits(s)
    decreases |s|
  {
    if s != "" {
      DigitSpanWhole(s[1..]);
      if IsDigit(s[0]) && AllDigits(s[1..]) {
        forall i | 0 <= i < |s| ensures IsDigit(s[i]) { if i > 0 { assert s[i] == s[1..][i - 1]; } }
      }
      if AllDigits(s) {
        forall i | 0 <= i < |s| - 1 ensures IsDigit(s[1..][i]) { assert s[1..][i] == s[i + 1]; }
      }
    }
  }

  lemma {:induction false} NoZerosDigits(s: string)
    requires s != "" && AllDigits(s)
    ensures NoZeros(s) != "" && AllDigits(NoZeros(s)) && NoZeros(NoZeros(s)) == NoZeros(s)
    decreases |s|
  {
    if |s| > 1 && s[0] == '0' { NoZerosDigits(s[1..]); }
  }

  lemma {:induction false} DigitsEndPlain(s: string)
    requires s != "" && IsDigit(s[|s| - 1]) && !IsSpace(s[0])
    ensures Trim(s) == s
  {
  }

  lemma {:induction false} IntTextSettles(s: string)
    requires IsInteger(s)
    ensures var t := IntText(s);
            t != "" && Trim(t) == t && IsInteger(t) && IntText(t) == t
  {
    var u := Unsigned(s);
    DigitSpanWhole(u);
    NoZerosDigits(u);
    var d := NoZeros(u);
    DigitSpanWhole(d);
    assert IsDigit(d[0]) && IsDigit(d[|d| - 1]);
    assert Unsigned(d) == d && Unsigned("-" + d) == d;
    DigitsEndPlain(d);
    assert ("-" + d)[|d|] == d[|d| - 1];
    DigitsEndPlain("-" + d);
  }

  lemma {:induction false} TrimmedLetters(r: Readers, kind: ColumnType, v: string)
    requires Lawful(r) && Canonical(r, kind, Some(v)).Some?
    ensures var t := Canonical(r, kind, Some(v)).value;
            t != "" && Trim(t) == t
  {
    hide IsInteger, IntText, Trim;
    var s, t := Trim(v), Canonical(r, kind, Some(v)).value;
    TrimTwice(v);
    if IsInteger(s) { IntTextSettles(s); }
    match kind
    case Plain => assert t == s;
    case Datetime =>
      match r.timeText(s) {
        case Some(u) => assert u == t && Trim(u) == u && t != "";
        case None => assert t == s;
      }
    case Number =>
      if IsInteger(s) {
        assert t == IntText(s);
      } else {
        match r.floatText(s)
        case Unread => assert t == s;
        case Spelled(u) => assert u == t && Trim(u) == u && t != "";
      }
  }

  /** Canonicalising twice is canonicalising once. */
  lemma {:induction false} CanonicalSettles(r: Readers, kind: ColumnType, value: Option<string>)
    requires Lawful(r)
    ensures Canonical(r, kind, Canonical(r, kind, value)) == Canonical(r, kind, value)
  {
    hide IsInteger, IntText, Trim;
    if value.Some? && Canonical(r, kind, value).Some? {
      TrimmedLetters(r, kind, value.value);
      TrimTwice(value.value);
      var s := Trim(value.value);
      if IsInteger(s) { IntTextSettles(s); }
    }
  }

  /** A component is no identity exactly where it is nothing or blank, or a number's text that float reads as none;
      and any other keeps its trimmed text but where the declared type has a spelling of its own. */
  lemma {:induction false} NothingExactly(r: Readers, kind: ColumnType, value: Option<string>)
    ensures Canonical(r, kind, value) == None <==>
              || value == None || AllBlank(value.value)
              || (kind == Number && !IsInteger(Trim(value.value)) && r.floatText(Trim(value.value)) == NoIdentity)
    ensures value.Some? && !AllBlank(value.value) && kind == Plain ==>
              Canonical(r, kind, value) == Some(Trim(value.value))
    ensures value.Some? && !AllBlank(value.value) && kind == Datetime ==>
              Canonical(r, kind, value)
                == match r.timeText(Trim(value.value)) case Some(t) => Some(t) case None => Some(Trim(value.value))
    ensures value.Some? && !AllBlank(value.value) && kind == Number && !IsInteger(Trim(value.value)) ==>
              match r.floatText(Trim(value.value))
              case Unread => Canonical(r, kind, value) == Some(Trim(value.value))
              case NoIdentity => Canonical(r, kind, value) == None
              case Spelled(t) => Canonical(r, kind, value) == Some(t)
  {
    hide IsInteger, IntText, Trim;
    if value.Some? { BlankTrims(value.value); }
  }

  lemma {:induction false} BlankTrims(s: string)
    ensures Trim(s) == "" <==> AllBlank(s)
  {
    var lead, trail := TrimTakesTheEnds(s);
    if Trim(s) == "" { assert s == lead + trail; } else { MiddleThere(lead, Trim(s), trail); }
  }

  lemma {:induction false} MiddleThere(lead: string, middle: string, trail: string)
    requires middle != "" && !IsSpace(middle[0])
    ensures !AllBlank(lead + middle + trail)
  {
    assert (lead + middle + trail)[|lead|] == middle[0];
  }

  // ---- composing and splitting -------------------------------------------------------------------------------------

  function Join(parts: seq<string>): string {
    if parts == [] then "" else if |parts| == 1 then parts[0] else parts[0] + [JOINER] + Join(parts[1..])
  }

  /** str.split("_") */
  function Split(s: string): (parts: seq<string>)
    ensures |parts| > 0
  {
    if s == "" then [""]
    else
      var rest := Split(s[1..]);
      if s[0] == JOINER then [""] + rest else [[s[0]] + rest[0]] + rest[1..]
  }

  function PartText(part: Option<string>): string { match part case None => "" case Some(t) => t }

  /** The identity the components make, each by its column's declared type. */
  function Composed(r: Readers, kinds: seq<ColumnType>, values: seq<Option<string>>): string
    requires |kinds| == |values|
  {
    Join(PartTexts(r, kinds, values))
  }

  function PartTexts(r: Readers, kinds: seq<ColumnType>, values: seq<Option<string>>): (parts: seq<string>)
    requires |kinds| == |values|
    ensures |parts| == |values|
  {
    seq(|values|, i requires 0 <= i < |values| => PartText(Canonical(r, kinds[i], values[i])))
  }

  /** `compose_map_id` with a binding: the loop over the identity columns. */
  method ComposeMapId(r: Readers, kinds: seq<ColumnType>, values: seq<Option<string>>) returns (key: string)
    requires |kinds| == |values|
    ensures key == Composed(r, kinds, values)
  {
    var parts: seq<string> := [];
    for i := 0 to |values|
      invariant |parts| == i
      invariant forall k :: 0 <= k < i ==> parts[k] == PartText(Canonical(r, kinds[k], values[k]))
    {
      parts := parts + [PartText(Canonical(r, kinds[i], values[i]))];
    }
    assert parts == PartTexts(r, kinds, values);
    key := Join(parts);
  }

  /** One key column and the piece of the key that is its. */
  datatype Piece = Piece(column: string, text: string)

  /** `map_key_parts`: a column a piece, the last takes all that is left; too few pieces and the whole key is the first
      column's. */
  function KeyParts(columns: seq<string>, key: string): seq<Piece>
    requires columns != []
  {
    var parts := Split(key);
    var n := |columns|;
    if |parts| < n then [Piece(columns[0], key)]
    else seq(n, i requires 0 <= i < n => Piece(columns[i], if i < n - 1 then parts[i] else Join(parts[n - 1..])))
  }

  /** `canonical_map_key`: every piece by its column's declared type, joined again. */
  method CanonicalMapKey(r: Readers, columns: seq<string>, kind: string -> ColumnType,
                         key: string)
    returns (stored: string)
    requires columns != []
    ensures stored == Canonicalised(r, columns, kind, key)
  {
    hide Canonical, KeyParts, PieceText;
    var pieces := KeyParts(columns, key);
    var out: seq<string> := [];
    for i := 0 to |pieces|
      invariant |out| == i
      invariant forall k :: 0 <= k < i ==> out[k] == PieceText(r, kind, pieces[k])
    {
      out := out + [PieceText(r, kind, pieces[i])];
    }
    assert out == PieceTexts(r, kind, pieces);
    stored := Join(out);
  }

  function PieceText(r: Readers, kind: string -> ColumnType, p: Piece): string {
    PartText(Canonical(r, kind(p.column), Some(p.text)))
  }

  function PieceTexts(r: Readers, kind: string -> ColumnType, pieces: seq<Piece>): (texts: seq<string>)
    ensures |texts| == |pieces|
  {
    seq(|pieces|, i requires 0 <= i < |pieces| => PieceText(r, kind, pieces[i]))
  }

  function Canonicalised(r: Readers, columns: seq<string>, kind: string -> ColumnType, key: string): string
    requires columns != []
  {
    Join(PieceTexts(r, kind, KeyParts(columns, key)))
  }

  // ---- the round trip ----------------------------------------------------------------------------------------------

  lemma {:induction false} SplitPlain(s: string)
    requires JOINER !in s
    ensures Split(s) == [s]
    decreases |s|
  {
    if s != "" {
      assert forall c :: c in s[1..] ==> c in s;
      SplitPlain(s[1..]);
      assert [s[0]] + s[1..] == s;
    }
  }

  lemma {:induction false} SplitAt(a: string, s: string)
    requires JOINER !in a
    ensures Split(a + [JOINER] + s) == [a] + Split(s)
    decreases |a|
  {
    if a == "" {
      assert a + [JOINER] + s == [JOINER] + s;
      assert ([JOINER] + s)[1..] == s;
    } else {
      assert forall c :: c in a[1..] ==> c in a;
      SplitAt(a[1..], s);
      assert (a + [JOINER] + s)[1..] == a[1..] + [JOINER] + s;
      assert [a[0]] + a[1..] == a;
    }
  }

  /** Splitting loses nothing. */
  lemma {:induction false} JoinSplit(s: string)
    ensures Join(Split(s)) == s
    decreases |s|
  {
    if s != "" {
      JoinSplit(s[1..]);
      var rest := Split(s[1..]);
      if s[0] == JOINER {
        assert ([""] + rest)[1..] == rest;
        assert Join([""] + rest) == "" + [JOINER] + Join(rest);
        assert [JOINER] + s[1..] == s;
      } else {
        var joined := [[s[0]] + rest[0]] + rest[1..];
        assert joined[1..] == rest[1..];
        if |rest| > 1 {
          assert Join(joined) == [s[0]] + rest[0] + [JOINER] + Join(rest[1..]);
          assert Join(joined) == [s[0]] + Join(rest);
        }
        assert Join(joined) == [s[0]] + Join(rest);
        assert [s[0]] + s[1..] == s;
      }
    }
  }

  lemma {:induction false} SplitHasNoJoiner(s: string)
    ensures forall i :: 0 <= i < |Split(s)| ==> JOINER !in Split(s)[i]
    decreases |s|
  {
    if s != "" { SplitHasNoJoiner(s[1..]); }
  }

  /** No part but the last holds the joiner. */
  predicate Splittable(parts: seq<string>) { forall i :: 0 <= i < |parts| - 1 ==> JOINER !in parts[i] }

  lemma {:induction false} SplitJoin(parts: seq<string>)
    requires parts != [] && Splittable(parts)
    ensures var n := |parts|;
            var whole := Split(Join(parts));
            && |whole| >= n && whole[..n - 1] == parts[..n - 1] && Join(whole[n - 1..]) == parts[n - 1]
    decreases |parts|
  {
    var n := |parts|;
    if n == 1 {
      JoinSplit(parts[0]);
    } else {
      var rest := parts[1..];
      forall i | 0 <= i < |rest| - 1 ensures JOINER !in rest[i] { assert rest[i] == parts[i + 1]; }
      SplitJoin(rest);
      SplitAt(parts[0], Join(rest));
      var whole, inner := Split(Join(parts)), Split(Join(rest));
      assert whole == [parts[0]] + inner;
      assert whole[n - 1..] == inner[n - 2..];
      assert whole[..n - 1] == [parts[0]] + inner[..n - 2];
      assert parts[..n - 1] == [parts[0]] + rest[..n - 2];
    }
  }

  function Named(columns: seq<string>, parts: seq<string>): seq<Piece>
    requires |columns| == |parts|
  {
    seq(|parts|, i requires 0 <= i < |parts| => Piece(columns[i], parts[i]))
  }

  /** Splitting a composed key returns its parts exactly when no part but the last holds the joiner. */
  lemma {:induction false} KeyPartsUndoJoin(columns: seq<string>, parts: seq<string>)
    requires columns != [] && |columns| == |parts|
    ensures KeyParts(columns, Join(parts)) == Named(columns, parts) <==> Splittable(parts)
  {
    var n := |columns|;
    var whole := Split(Join(parts));
    var pieces := KeyParts(columns, Join(parts));
    if Splittable(parts) {
      SplitJoin(parts);
      forall i | 0 <= i < n ensures pieces[i] == Named(columns, parts)[i] {
        if i < n - 1 { assert whole[..n - 1][i] == parts[..n - 1][i]; }
      }
    } else if pieces == Named(columns, parts) {
      SplitHasNoJoiner(Join(parts));
      forall i | 0 <= i < n - 1 ensures JOINER !in parts[i] {
        assert pieces[i] == Named(columns, parts)[i];
        assert |whole| >= n;
        assert pieces[i].text == whole[i];
      }
    }
  }

  /** Two columns whose first part holds the joiner: «A_B» and «C» come back as «A» and «B_C». */
  lemma {:induction false} JoinerInAPartTells(first: string, last: string)
    ensures Join(["A_B", "C"]) == "A_B_C"
    ensures KeyParts([first, last], Join(["A_B", "C"])) == [Piece(first, "A"), Piece(last, "B_C")]
    ensures KeyParts([first, last], Join(["A_B", "C"])) != Named([first, last], ["A_B", "C"])
  {
    var columns := [first, last];
    assert Join(["A_B", "C"]) == "A_B_C";
    JoinerSplits();
    hide Split;
    var pieces := KeyParts(columns, "A_B_C");
    assert pieces[1].text == Join(["A", "B", "C"][1..]);
    assert ["A", "B", "C"][1..] == ["B", "C"] && Join(["B", "C"]) == "B_C";
    assert pieces[0] == Piece(first, "A") && Named(columns, ["A_B", "C"])[0] == Piece(first, "A_B");
  }

  lemma {:induction false} JoinerSplits()
    ensures Split("A_B_C") == ["A", "B", "C"]
  {
    SplitPlain("C");
    SplitAt("B", "C");
    SplitAt("A", "B_C");
    assert "B" + [JOINER] + "C" == "B_C" && "A" + [JOINER] + "B_C" == "A_B_C";
  }

  lemma {:induction false} PartSettles(r: Readers, kind: ColumnType, value: Option<string>)
    requires Lawful(r)
    ensures PartText(Canonical(r, kind, Some(PartText(Canonical(r, kind, value)))))
            == PartText(Canonical(r, kind, value))
  {
    CanonicalSettles(r, kind, value);
  }

  function KindsOf(columns: seq<string>, kind: string -> ColumnType): (kinds: seq<ColumnType>)
    ensures |kinds| == |columns|
  {
    seq(|columns|, i requires 0 <= i < |columns| => kind(columns[i]))
  }

  lemma {:induction false} PiecesSettle(r: Readers, columns: seq<string>, kind: string -> ColumnType,
                                        values: seq<Option<string>>)
    requires Lawful(r) && |columns| == |values|
    ensures var parts := PartTexts(r, KindsOf(columns, kind), values);
            PieceTexts(r, kind, Named(columns, parts)) == parts
  {
    hide Canonical;
    var parts := PartTexts(r, KindsOf(columns, kind), values);
    var texts := PieceTexts(r, kind, Named(columns, parts));
    forall i | 0 <= i < |parts| ensures texts[i] == parts[i] { PartSettles(r, kind(columns[i]), values[i]); }
  }

  /** A composed key is already the stored identity: canonicalising it changes nothing, whatever the components were
      spelled like, as long as no part but the last holds the joiner. */
  lemma {:induction false} ComposedKeyStays(r: Readers, columns: seq<string>, kind: string -> ColumnType,
                                            values: seq<Option<string>>)
    requires Lawful(r) && columns != [] && |columns| == |values|
    requires Splittable(PartTexts(r, KindsOf(columns, kind), values))
    ensures var key := Composed(r, KindsOf(columns, kind), values); Canonicalised(r, columns, kind, key) == key
  {
    var parts := PartTexts(r, KindsOf(columns, kind), values);
    PiecesSettle(r, columns, kind, values);
    hide PartTexts, PieceTexts, KindsOf, KeyParts, Join, Named;
    KeyPartsUndoJoin(columns, parts);
  }

  // ---- the integers of a number column -----------------------------------------------------------------------------

  /** What a row of digits counts. */
  function Counted(s: string): int {
    if s == "" then 0 else 10 * Counted(s[..|s| - 1]) + (s[|s| - 1] as int - '0' as int)
  }

  /** The integer a text spells, as int() reads it. */
  function IntOf(s: string): int
    requires IsInteger(s)
  {
    if s[0] == '-' then -Counted(Unsigned(s)) else Counted(Unsigned(s))
  }

  lemma {:induction false} ZeroInFront(s: string)
    ensures Counted(['0'] + s) == Counted(s)
    decreases |s|
  {
    var t := ['0'] + s;
    if s != "" {
      assert t[..|t| - 1] == ['0'] + s[..|s| - 1];
      ZeroInFront(s[..|s| - 1]);
    }
  }

  lemma {:induction false} NoZerosCounts(s: string)
    ensures Counted(NoZeros(s)) == Counted(s)
    decreases |s|
  {
    if |s| > 1 && s[0] == '0' {
      assert s == ['0'] + s[1..];
      ZeroInFront(s[1..]);
      NoZerosCounts(s[1..]);
    }
  }

  /** Digits without a zero in front, but for zero itself. */
  predicate Short(s: string) { s != "" && AllDigits(s) && (|s| > 1 ==> s[0] != '0') }

  lemma {:induction false} NoZerosIsShort(s: string)
    requires s != "" && AllDigits(s)
    ensures Short(NoZeros(s))
    decreases |s|
  {
    if |s| > 1 && s[0] == '0' { NoZerosIsShort(s[1..]); }
  }

  lemma {:induction false} ShortCounts(s: string)
    requires Short(s)
    ensures Counted(s) >= 0 && (s[0] != '0' ==> Counted(s) > 0) && (|s| > 1 ==> Counted(s) >= 10)
    decreases |s|
  {
    var front := s[..|s| - 1];
    assert IsDigit(s[|s| - 1]);
    if |s| > 1 { ShortCounts(front); } else { assert Counted(front) == 0; }
  }

  /** One number has one short spelling. */
  lemma {:induction false} ShortIsOne(s: string, t: string)
    requires Short(s) && Short(t) && Counted(s) == Counted(t)
    ensures s == t
    decreases |s|
  {
    ShortCounts(s);
    ShortCounts(t);
    LastDigit(s);
    LastDigit(t);
    var f, g := s[..|s| - 1], t[..|t| - 1];
    assert s == f + [s[|s| - 1]] && t == g + [t[|t| - 1]];
    if |s| > 1 && |t| > 1 { ShortIsOne(f, g); }
  }

  lemma {:induction false} LastDigit(s: string)
    requires Short(s)
    ensures Counted(s) % 10 == s[|s| - 1] as int - '0' as int && Counted(s) / 10 == Counted(s[..|s| - 1])
    ensures |s| > 1 ==> Short(s[..|s| - 1])
    ensures |s| == 1 ==> Counted(s) < 10
  {
    assert IsDigit(s[|s| - 1]);
  }

  lemma {:induction false} IntParts(s: string)
    requires IsInteger(s)
    ensures var d := NoZeros(Unsigned(s));
            && Short(d) && Counted(d) >= 0 && (Counted(d) == 0 <==> d == "0")
            && IntOf(s) == (if s[0] == '-' then -Counted(d) else Counted(d))
  {
    var u := Unsigned(s);
    DigitSpanWhole(u);
    NoZerosIsShort(u);
    NoZerosCounts(u);
    ShortCounts(NoZeros(u));
    if NoZeros(u)[0] == '0' { assert NoZeros(u) == "0"; }
  }

  /** Two integers' texts are one exactly when the integers are. */
  lemma {:induction false} OneTextOneInteger(s: string, t: string)
    requires IsInteger(s) && IsInteger(t)
    ensures IntText(s) == IntText(t) <==> IntOf(s) == IntOf(t)
  {
    IntParts(s);
    IntParts(t);
    var d, e := NoZeros(Unsigned(s)), NoZeros(Unsigned(t));
    assert IsDigit(d[0]) && IsDigit(e[0]);
    if Counted(d) == Counted(e) { ShortIsOne(d, e); }
    assert ("-" + d)[1..] == d && ("-" + e)[1..] == e;
    hide IsInteger, NoZeros, Unsigned, IntOf, Counted, Short;
  }

  /** Two integer texts of a number column are one identity exactly when they spell one integer: padding, a plus sign
      and leading zeros do not tell, and nothing else is lost. */
  lemma {:induction false} OneIdentityExactlyOneInteger(r: Readers, v: string, w: string)
    requires IsInteger(Trim(v)) && IsInteger(Trim(w))
    ensures Canonical(r, Number, Some(v)) == Canonical(r, Number, Some(w)) <==> IntOf(Trim(v)) == IntOf(Trim(w))
  {
    OneTextOneInteger(Trim(v), Trim(w));
    assert Trim(v) != "" && Trim(w) != "";
    hide Trim, IntText, IntOf;
  }
}
