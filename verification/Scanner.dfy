/** Reading a text into tokens (`_tokens`) and spelling tokens as a text that reads back. */
module Scanner {
  import opened Syntax
  import opened Words
  import opened Printer
  import Grammar

  datatype ScanWhy = TextNotClosed | NameNotClosed | NotPartOfAnExpression

  datatype Scanned = Tokens(ts: seq<Token>) | Refused(why: ScanWhy)

  /** One token at the start of a text and how long it is there. */
  datatype Step = Step(tok: Token, len: nat) | Fail(why: ScanWhy)

  /** Where `c` stands first, |s| when nowhere (str.find). */
  function Find(s: string, c: char): (n: nat)
    ensures n <= |s|
    ensures n < |s| ==> s[n] == c
    ensures c !in s[..n]
  {
    if s == "" then 0
    else if s[0] == c then 0
    else
      var n := Find(s[1..], c);
      assert s[..n + 1] == [s[0]] + s[1..][..n];
      n + 1
  }

  /** A name after its «[»: «]]» is a «]» inside it, a lone «]» ends it. */
  function NameAt(s: string): (r: Option<(string, nat)>)
    ensures r.Some? ==> 0 < r.value.1 <= |s|
  {
    if s == "" then None
    else if s[0] == ']' then
      if |s| > 1 && s[1] == ']' then
        match NameAt(s[2..])
        case None => None
        case Some((name, n)) => Some(("]" + name, n + 2))
      else Some(("", 1))
    else
      match NameAt(s[1..])
      case None => None
      case Some((name, n)) => Some(([s[0]] + name, n + 1))
  }

  function OpText(op: Op): string {
    match op
    case OpNullEq => "<=>" case OpLe => "<=" case OpGe => ">=" case OpNe => "<>" case OpBangEq => "!="
    case OpLt => "<" case OpGt => ">" case OpEq => "=" case OpPlus => "+" case OpMinus => "-"
    case OpTimes => "*" case OpDivide => "/" case OpPercent => "%" case OpCaret => "^"
    case OpOpen => "(" case OpClose => ")" case OpComma => "," case OpColon => ":"
  }

  /** The operator at the start of a text, the longer spelling first. */
  function OpAt(s: string): (r: Option<Op>)
    requires s != ""
    ensures r.Some? ==> |OpText(r.value)| <= |s|
  {
    var next := if |s| > 1 then s[1] else ' ';
    match s[0]
    case '<' =>
      if next == '=' then (if |s| > 2 && s[2] == '>' then Some(OpNullEq) else Some(OpLe))
      else if next == '>' then Some(OpNe) else Some(OpLt)
    case '>' => if next == '=' then Some(OpGe) else Some(OpGt)
    case '!' => if next == '=' then Some(OpBangEq) else None
    case '=' => Some(OpEq)
    case '+' => Some(OpPlus)
    case '-' => Some(OpMinus)
    case '*' => Some(OpTimes)
    case '/' => Some(OpDivide)
    case '%' => Some(OpPercent)
    case '^' => Some(OpCaret)
    case '(' => Some(OpOpen)
    case ')' => Some(OpClose)
    case ',' => Some(OpComma)
    case ':' => Some(OpColon)
    case _ => None
  }

  function WordToken(w: string): Token {
    match KeywordOf(Lower(w))
    case Some(kw) => TKw(kw)
    case None => TId(w)
  }

  function Next(s: string): (r: Step)
    requires s != ""
    ensures r.Step? ==> 0 < r.len <= |s|
  {
    var n := NumberLen(s);
    if n > 0 then Step(TNum(s[..n]), n)
    else if s[0] == '"' || s[0] == '\'' then
      var close := Find(s[1..], s[0]);
      if close == |s| - 1 then Fail(TextNotClosed) else Step(TStr(s[1..][..close]), close + 2)
    else if s[0] == '[' then
      match NameAt(s[1..])
      case None => Fail(NameNotClosed)
      case Some((name, len)) => Step(TRef(name), len + 1)
    else if WordLen(s) > 0 then Step(WordToken(s[..WordLen(s)]), WordLen(s))
    else
      match OpAt(s)
      case Some(op) => Step(TOp(op), |OpText(op)|)
      case None => Fail(NotPartOfAnExpression)
  }

  function After(out: seq<Token>, r: Scanned): Scanned {
    match r
    case Tokens(ts) => Tokens(out + ts)
    case Refused(why) => Refused(why)
  }

  /** The tokens of a text, blanks between them dropped. */
  function Scan(s: string): Scanned
    decreases |s|
  {
    if s == "" then Tokens([])
    else if IsSpace(s[0]) then Scan(s[1..])
    else
      match Next(s)
      case Fail(why) => Refused(why)
      case Step(tok, n) => After([tok], Scan(s[n..]))
  }

  /** A name after its «[» at `start`: the name and the place after its «]», or past the text when it does not
      close. */
  method ScanName(text: string, start: nat) returns (name: string, next: nat)
    requires start <= |text|
    ensures NameAt(text[start..]) == if next <= |text| then Some((name, next - start)) else None
    ensures next > start
  {
    hide NameAt;
    var j := start;
    name := "";
    NameFrom(name, 0, NameAt(text[start..]));
    while j < |text| && !(text[j] == ']' && (j + 1 == |text| || text[j + 1] != ']'))
      invariant start <= j <= |text|
      invariant NameAt(text[start..]) == Onto(name, j - start, NameAt(text[j..]))
    {
      NameGoesOn(text, start, j, name);
      name := name + [text[j]];
      j := j + if text[j] == ']' then 2 else 1;
    }
    NameEnds(text, j, name, j - start);
    next := j + 1;
  }

  /** A name read so far, put before what is read from there. */
  function Onto(name: string, n: nat, r: Option<(string, nat)>): Option<(string, nat)> {
    match r case None => None case Some((rest, len)) => Some((name + rest, n + len))
  }

  lemma {:induction false} NameFrom(name: string, n: nat, r: Option<(string, nat)>)
    requires name == "" && n == 0
    ensures Onto(name, n, r) == r
  {
    if r.Some? { assert "" + r.value.0 == r.value.0; }
  }

  /** The loop's test: the name ends at `j`, with its text or with its bracket. */
  predicate NameStops(text: string, j: nat) {
    j >= |text| || (text[j] == ']' && (j + 1 == |text| || text[j + 1] != ']'))
  }

  lemma {:induction false} NameGoesOn(text: string, start: nat, j: nat, name: string)
    requires start <= j && !NameStops(text, j)
    requires NameAt(text[start..]) == Onto(name, j - start, NameAt(text[j..]))
    ensures var next := j + if text[j] == ']' then 2 else 1;
            NameAt(text[start..]) == Onto(name + [text[j]], next - start, NameAt(text[next..]))
  {
    hide NameAt;
    var here := text[j..];
    var wide := if text[j] == ']' then 2 else 1;
    assert here[0] == text[j] && (j + 1 < |text| ==> here[1] == text[j + 1]);
    NameSteps(here, wide);
    assert here[wide..] == text[j + wide..];
    OntoOnto(name, j - start, [text[j]], wide, NameAt(text[j + wide..]));
  }

  lemma {:induction false} OntoOnto(a: string, m: nat, b: string, n: nat, r: Option<(string, nat)>)
    ensures Onto(a, m, Onto(b, n, r)) == Onto(a + b, m + n, r)
  {
    if r.Some? { assert a + (b + r.value.0) == a + b + r.value.0; }
  }

  lemma {:induction false} NameSteps(s: string, wide: nat)
    requires !NameStops(s, 0) && wide == if s[0] == ']' then 2 else 1
    ensures NameAt(s) == Onto([s[0]], wide, NameAt(s[wide..]))
  {
  }

  lemma {:induction false} NameEnds(text: string, j: nat, name: string, n: nat)
    requires j <= |text| && NameStops(text, j)
    ensures Onto(name, n, NameAt(text[j..])) == if j < |text| then Some((name, n + 1)) else None
  {
    assert name + "" == name;
  }

  /** `_tokens`: a cursor over the text. */
  method ScanText(text: string) returns (r: Scanned)
    ensures r == Scan(text)
  {
    hide Scan, NumberLen, WordLen, NameAt;
    var out: seq<Token> := [];
    var i := 0;
    ScanEnds();
    assert text[0..] == text;
    AfterNone(Scan(text));
    while i < |text|
      invariant 0 <= i <= |text|
      invariant Scan(text) == After(out, Scan(text[i..]))
    {
      var ch := text[i];
      var left := text[i..];
      ScanGoesOn(text, i, out);
      if IsSpace(ch) {
        i := i + 1;
        continue;
      }
      var n := NumberLen(left);
      if n > 0 {
        out := out + [TNum(left[..n])];
        i := i + n;
        continue;
      }
      if ch == '"' || ch == '\'' {
        var close := Find(left[1..], ch);
        if close == |left| - 1 { return Refused(TextNotClosed); }
        out := out + [TStr(left[1..][..close])];
        i := i + close + 2;
        continue;
      }
      if ch == '[' {
        var name, next := ScanName(text, i + 1);
        assert left[1..] == text[i + 1..];
        if next > |text| { return Refused(NameNotClosed); }
        out := out + [TRef(name)];
        i := next;
        continue;
      }
      n := WordLen(left);
      if n > 0 {
        out := out + [WordToken(left[..n])];
        i := i + n;
        continue;
      }
      var op := OpAt(left);
      if op.None? { return Refused(NotPartOfAnExpression); }
      out := out + [TOp(op.value)];
      i := i + |OpText(op.value)|;
    }
    assert text[i..] == "";
    return Tokens(out);
  }

  lemma {:induction false} ScanEnds()
    ensures Scan("") == Tokens([])
  {
  }

  lemma {:induction false} AfterNone(r: Scanned)
    ensures After([], r) == r
  {
    if r.Tokens? { assert [] + r.ts == r.ts; }
  }

  /** One turn of the scanner's cursor. */
  lemma {:induction false} ScanGoesOn(text: string, i: nat, out: seq<Token>)
    requires i < |text| && Scan(text) == After(out, Scan(text[i..]))
    ensures IsSpace(text[i]) ==> Scan(text) == After(out, Scan(text[i + 1..]))
    ensures !IsSpace(text[i]) ==>
              match Next(text[i..])
              case Fail(why) => Scan(text) == Refused(why)
              case Step(tok, n) => Scan(text) == After(out + [tok], Scan(text[i + n..]))
  {
    var left := text[i..];
    if IsSpace(text[i]) {
      assert left[1..] == text[i + 1..];
    } else if Next(left).Step? {
      var step := Next(left);
      assert left[step.len..] == text[i + step.len..];
      AfterAfter(out, [step.tok], Scan(text[i + step.len..]));
    }
  }

  lemma {:induction false} AfterAfter(a: seq<Token>, b: seq<Token>, r: Scanned)
    ensures After(a, After(b, r)) == After(a + b, r)
  {
    if r.Tokens? { assert a + (b + r.ts) == (a + b) + r.ts; }
  }

  // ---- spelling ----------------------------------------------------------------------------------------------------

  /** A name inside its brackets: each «]» twice. */
  function Escape(name: string): string {
    if name == "" then "" else (if name[0] == ']' then "]]" else [name[0]]) + Escape(name[1..])
  }

  function Spell(tok: Token): (s: string)
  {
    match tok
    case TNum(l) => l
    case TStr(s) => if '"' in s then "'" + s + "'" else "\"" + s + "\""
    case TRef(name) => "[" + Escape(name) + "]"
    case TKw(kw) => KeywordText(kw)
    case TId(w) => w
    case TOp(op) => OpText(op)
  }

  /** The tokens one after another, a blank after each. */
  function SpellAll(ts: seq<Token>): string {
    if ts == [] then "" else Spell(ts[0]) + " " + SpellAll(ts[1..])
  }

  // ---- scanning functions on a text cut or continued ---------------------------------------------------------------

  lemma {:induction false} DigitsCut(s: string, n: nat)
    requires n <= |s|
    ensures DigitSpan(s[..n]) == if DigitSpan(s) <= n then DigitSpan(s) else n
  {
    if n > 0 && IsDigit(s[0]) {
      DigitsCut(s[1..], n - 1);
      assert s[..n][1..] == s[1..][..n - 1];
    }
  }

  lemma {:induction false} DigitsOn(s: string, y: string)
    requires y != "" && !IsDigit(y[0])
    ensures DigitSpan(s + y) == DigitSpan(s)
  {
    if s == "" {
      assert s + y == y;
    } else if IsDigit(s[0]) {
      DigitsOn(s[1..], y);
      assert (s + y)[1..] == s[1..] + y;
    }
  }

  lemma {:induction false} MantissaCut(s: string, n: nat)
    requires MantissaLen(s) <= n <= |s|
    ensures MantissaLen(s[..n]) == MantissaLen(s)
  {
    var whole := DigitSpan(s);
    DigitsCut(s, n);
    if whole > 0 {
      if whole < |s| && s[whole] == '.' {
        DigitsCut(s[whole + 1..], n - whole - 1);
        assert s[..n][whole + 1..] == s[whole + 1..][..n - whole - 1];
      }
    } else if s != "" && s[0] == '.' && n > 0 {
      DigitsCut(s[1..], n - 1);
      assert s[..n][1..] == s[1..][..n - 1];
    }
  }

  lemma {:induction false} ExponentCut(s: string, n: nat)
    requires ExponentLen(s) <= n <= |s| && (n == ExponentLen(s) || ExponentLen(s) > 0)
    ensures ExponentLen(s[..n]) == ExponentLen(s)
  {
    if n > 0 && (s[0] == 'e' || s[0] == 'E') {
      var sign := if |s| > 1 && (s[1] == '+' || s[1] == '-') then 2 else 1;
      if ExponentLen(s) > 0 {
        DigitsCut(s[sign..], n - sign);
        assert s[..n][sign..] == s[sign..][..n - sign];
      }
    }
  }

  /** A number cut where it ends is that number. */
  lemma {:induction false} NumberCut(s: string)
    requires NumberLen(s) > 0
    ensures IsNumber(s[..NumberLen(s)])
  {
    var n, m := NumberLen(s), MantissaLen(s);
    MantissaCut(s, n);
    ExponentCut(s[m..], n - m);
    assert s[..n][m..] == s[m..][..n - m];
  }

  lemma {:induction false} MantissaOn(s: string, y: string)
    requires y != "" && y[0] == ' '
    ensures MantissaLen(s + y) == MantissaLen(s)
  {
    var whole := DigitSpan(s);
    DigitsOn(s, y);
    if whole > 0 {
      if whole < |s| && s[whole] == '.' {
        DigitsOn(s[whole + 1..], y);
        assert (s + y)[whole + 1..] == s[whole + 1..] + y;
      }
    } else if s != "" && s[0] == '.' {
      DigitsOn(s[1..], y);
      assert (s + y)[1..] == s[1..] + y;
    }
  }

  lemma {:induction false} ExponentOn(s: string, y: string)
    requires y != "" && y[0] == ' '
    ensures ExponentLen(s + y) == ExponentLen(s)
  {
    if s != "" && (s[0] == 'e' || s[0] == 'E') {
      var sign := if |s| > 1 && (s[1] == '+' || s[1] == '-') then 2 else 1;
      DigitsOn(s[sign..], y);
      assert (s + y)[sign..] == s[sign..] + y;
    }
  }

  lemma {:induction false} NumberOn(s: string, y: string)
    requires y != "" && y[0] == ' '
    ensures NumberLen(s + y) == NumberLen(s)
  {
    MantissaOn(s, y);
    var m := MantissaLen(s);
    ExponentOn(s[m..], y);
    assert (s + y)[m..] == s[m..] + y;
  }

  lemma {:induction false} WordCut(s: string, n: nat)
    requires n <= WordSpan(s)
    ensures WordSpan(s[..n]) == n
  {
    if n > 0 {
      WordCut(s[1..], n - 1);
      assert s[..n][1..] == s[1..][..n - 1];
    }
  }

  lemma {:induction false} WordOn(s: string, y: string)
    requires y != "" && !IsWordPart(y[0])
    ensures WordSpan(s + y) == WordSpan(s)
  {
    if s == "" {
      assert s + y == y;
    } else if IsWordPart(s[0]) {
      WordOn(s[1..], y);
      assert (s + y)[1..] == s[1..] + y;
    }
  }

  lemma {:induction false} AllWordParts(s: string)
    requires forall i :: 0 <= i < |s| ==> IsWordPart(s[i])
    ensures WordSpan(s) == |s|
  {
    if s != "" { AllWordParts(s[1..]); }
  }

  lemma {:induction false} LowerOfLower(s: string)
    requires forall i :: 0 <= i < |s| ==> !('A' <= s[i] <= 'Z')
    ensures Lower(s) == s
  {
    if s != "" {
      LowerOfLower(s[1..]);
      assert s == [s[0]] + s[1..];
    }
  }

  lemma {:induction false} KeywordLetters(kw: Keyword)
    ensures forall i :: 0 <= i < |KeywordText(kw)| ==> 'a' <= KeywordText(kw)[i] <= 'z'
  {
  }

  lemma {:induction false} KeywordFound(kw: Keyword)
    ensures KeywordOf(KeywordText(kw)) == Some(kw) && KeywordText(kw) != ""
  {
  }

  lemma {:induction false} KeywordReads(kw: Keyword)
    ensures IsWord(KeywordText(kw)) && KeywordOf(Lower(KeywordText(kw))) == Some(kw)
  {
    hide KeywordText, KeywordOf;
    KeywordLetters(kw);
    KeywordFound(kw);
    AllWordParts(KeywordText(kw));
    LowerOfLower(KeywordText(kw));
  }

  lemma {:induction false} FindOn(s: string, c: char, y: string)
    requires c !in s && y != "" && y[0] == c
    ensures Find(s + y, c) == |s|
  {
    if s == "" {
      assert s + y == y;
    } else {
      FindOn(s[1..], c, y);
      assert (s + y)[1..] == s[1..] + y;
    }
  }

  lemma {:induction false} NameReads(name: string, y: string)
    requires y == "" || y[0] != ']'
    ensures NameAt(Escape(name) + "]" + y) == Some((name, |Escape(name)| + 1))
  {
    var s := Escape(name) + "]" + y;
    if name != "" {
      var rest := Escape(name[1..]) + "]" + y;
      NameReads(name[1..], y);
      if name[0] == ']' {
        assert s[2..] == rest;
      } else {
        assert s[1..] == rest;
      }
      assert [name[0]] + name[1..] == name;
    }
  }

  // ---- a spelled token is scanned back -----------------------------------------------------------------------------

  lemma {:induction false} WordNext(w: string, y: string)
    requires IsWord(w) && y != "" && y[0] == ' '
    ensures Next(w + y) == Step(WordToken(w), |w|) && !IsSpace((w + y)[0])
  {
    WordOn(w, y);
    assert (w + y)[0] == w[0];
    assert (w + y)[..|w|] == w;
  }

  lemma {:induction false} OpNext(op: Op, y: string)
    requires y != "" && y[0] == ' '
    ensures Next(OpText(op) + y) == Step(TOp(op), |OpText(op)|) && !IsSpace((OpText(op) + y)[0])
  {
    OpOn(op, y);
    OpIsNoWord(op, y);
    hide NameAt, NumberLen, WordLen, OpAt;
  }

  lemma {:induction false} OpOn(op: Op, y: string)
    requires y != "" && y[0] == ' '
    ensures OpAt(OpText(op) + y) == Some(op)
  {
    var s := OpText(op) + y;
    assert s[0] == OpText(op)[0];
    assert |OpText(op)| == 1 ==> s[1] == ' ';
    assert |OpText(op)| == 2 ==> s[1] == OpText(op)[1] && s[2] == ' ';
    assert |OpText(op)| == 3 ==> s[1] == OpText(op)[1] && s[2] == OpText(op)[2];
  }

  lemma {:induction false} OpIsNoWord(op: Op, y: string)
    requires y != "" && y[0] == ' '
    ensures NumberLen(OpText(op) + y) == 0 && WordLen(OpText(op) + y) == 0
  {
    var s := OpText(op) + y;
    assert s[0] == OpText(op)[0];
  }

  lemma {:induction false} QuotedNext(q: char, t: string, y: string)
    requires (q == '"' || q == '\'') && q !in t && y != ""
    ensures var s := [q] + t + [q] + y; Next(s) == Step(TStr(t), |t| + 2) && !IsSpace(s[0])
  {
    hide WordLen, OpAt, NameAt;
    var s := [q] + t + [q] + y;
    FindOn(t, q, [q] + y);
    assert s[1..] == t + ([q] + y);
    assert s[1..][..|t|] == t;
  }

  lemma {:induction false} TextNext(t: string, y: string)
    requires !('"' in t && '\'' in t) && y != ""
    ensures var s := Spell(TStr(t)); Next(s + y) == Step(TStr(t), |s|) && !IsSpace((s + y)[0])
  {
    hide Next;
    var q := if '"' in t then '\'' else '"';
    QuotedNext(q, t, y);
    assert Spell(TStr(t)) + y == [q] + t + [q] + y;
  }

  lemma {:induction false} NameNext(name: string, y: string)
    requires y != "" && y[0] == ' '
    ensures var s := Spell(TRef(name)); Next(s + y) == Step(TRef(name), |s|) && !IsSpace((s + y)[0])
  {
    var s := Spell(TRef(name)) + y;
    NameReads(name, y);
    assert s[1..] == Escape(name) + "]" + y;
  }

  lemma {:induction false} NumberNext(l: string, y: string)
    requires IsNumber(l) && y != "" && y[0] == ' '
    ensures Next(l + y) == Step(TNum(l), |l|) && !IsSpace((l + y)[0])
  {
    NumberOn(l, y);
    assert (l + y)[0] == l[0];
    assert (l + y)[..|l|] == l;
  }

  lemma {:induction false} SpelledNext(tok: Token, y: string)
    requires TokenFits(tok) && y != "" && y[0] == ' '
    ensures Next(Spell(tok) + y) == Step(tok, |Spell(tok)|) && Spell(tok) != "" && !IsSpace((Spell(tok) + y)[0])
  {
    match tok
    case TNum(l) => NumberNext(l, y);
    case TStr(t) => TextNext(t, y);
    case TRef(name) => NameNext(name, y);
    case TKw(kw) => KeywordReads(kw); WordNext(KeywordText(kw), y);
    case TId(w) => WordNext(w, y);
    case TOp(op) => OpNext(op, y);
  }

  /** Spelling then scanning gives every token list back. */
  lemma {:induction false} SpelledScans(ts: seq<Token>)
    requires AllFit(ts)
    ensures Scan(SpellAll(ts)) == Tokens(ts)
  {
    if ts != [] {
      hide Next, Spell, TokenFits;
      var one, rest := Spell(ts[0]), SpellAll(ts[1..]);
      var s := SpellAll(ts);
      assert s == one + (" " + rest);
      SpelledNext(ts[0], " " + rest);
      SpelledScans(ts[1..]);
      assert s[|one|..] == " " + rest;
      assert (" " + rest)[1..] == rest;
      assert [ts[0]] + ts[1..] == ts;
    }
  }

  // ---- what is scanned can be spelled ------------------------------------------------------------------------------

  lemma {:induction false} NextFits(s: string)
    requires s != ""
    ensures var r := Next(s); r.Step? ==> TokenFits(r.tok)
  {
    if NumberLen(s) > 0 {
      NumberCut(s);
    } else if WordLen(s) > 0 {
      WordCut(s, WordLen(s));
      assert s[..WordLen(s)][0] == s[0];
    }
  }

  lemma {:induction false} ScanFits(s: string)
    ensures var r := Scan(s); r.Tokens? ==> AllFit(r.ts)
    decreases |s|
  {
    if s != "" {
      if IsSpace(s[0]) {
        ScanFits(s[1..]);
      } else if Next(s).Step? {
        NextFits(s);
        ScanFits(s[Next(s).len..]);
      }
    }
  }

  // ---- the calculator's text ---------------------------------------------------------------------------------------

  datatype Read = Read(tree: Tree) | NotScanned(why: ScanWhy) | NotParsed(cause: Grammar.Why)

  /** `_parse`: a text read once. */
  function ReadText(T: Table, text: string): Read {
    match Scan(text)
    case Refused(why) => NotScanned(why)
    case Tokens(ts) =>
      match Grammar.ParseTokens(T, ts)
      case Err(why) => NotParsed(why)
      case Ok(tree, _) => Read(tree)
  }

  /** A tree as text. */
  function Show(t: Tree): string { SpellAll(Print(t, 0)) }

  /** A printed tree holds only tokens a scanner hands on. */
  lemma {:induction false} PrintFits(T: Table, t: Tree, k: nat)
    requires Built(T, t)
    ensures AllFit(Print(t, k))
    decreases t, 2
  {
    BareFits(T, t);
  }

  lemma {:induction false} BareFits(T: Table, t: Tree)
    requires Built(T, t)
    ensures AllFit(Bare(t))
    decreases t, 1
  {
    hide Bare, Print;
    match t
    case Lit(_) => LeafFits(T, t);
    case Ref(_) => LeafFits(T, t);
    case Neg(a) => PrintFits(T, a, 9); NegPrinted(a, []); assert Bare(t) + [] == Bare(t);
    case Not(a) => PrintFits(T, a, 3); NotPrinted(a, []); assert Bare(t) + [] == Bare(t);
    case Logic(_, _, _) => SidesFit(T, t);
    case Cmp(_, _, _) => SidesFit(T, t);
    case Arith(op, a, b) =>
      if op == Power {
        PrintFits(T, a, 11);
        PrintFits(T, b, 9);
        PowerPrinted(a, b, []);
        assert Bare(t) + [] == Bare(t);
      } else {
        SidesFit(T, t);
      }
    case IsNull(a, negate) => PrintFits(T, a, 7); NullPrinted(a, negate, []); assert Bare(t) + [] == Bare(t);
    case Case(_, _, _) => CaseFits(T, t);
    case Call(_, _, _) => CallTokensFit(T, t);
  }

  lemma {:induction false} LeafFits(T: Table, t: Tree)
    requires Built(T, t) && (t.Lit? || t.Ref?)
    ensures AllFit(Bare(t))
  {
  }

  lemma {:induction false} SidesFit(T: Table, t: Tree)
    requires Built(T, t) && (t.Logic? || t.Cmp? || (t.Arith? && t.aop != Power))
    ensures AllFit(Bare(t))
    decreases t, 0
  {
    hide Bare, Print;
    PrintFits(T, t.a, LevelOf(t));
    PrintFits(T, t.b, LevelOf(t) + 1);
    LeftPrinted(t);
  }

  lemma {:induction false} CaseFits(T: Table, t: Tree)
    requires Built(T, t) && t.Case?
    ensures AllFit(Bare(t))
    decreases t, 0
  {
    hide Bare, Print;
    if t.subject.Some? { PrintFits(T, t.subject.value, 0); }
    WhensFit(T, t.whens);
    if t.otherwise.Some? { PrintFits(T, t.otherwise.value, 0); }
    CasePrinted(t, []);
    assert Bare(t) + [] == Bare(t);
  }

  lemma {:induction false} CallTokensFit(T: Table, t: Tree)
    requires Built(T, t) && t.Call?
    ensures AllFit(Bare(t))
    decreases t, 0
  {
    hide Bare, Print;
    ArgsFit(T, t.args);
    CallPrinted(t, []);
    assert Bare(t) + [] == Bare(t);
  }

  lemma {:induction false} WhensFit(T: Table, whens: seq<When>)
    requires forall w :: w in whens ==> Built(T, w.test) && Built(T, w.then_)
    ensures AllFit(PrintWhens(whens))
    decreases whens
  {
    hide Print;
    if whens != [] {
      var w := whens[0];
      assert w in whens && w.test < w && w.then_ < w;
      PrintFits(T, w.test, 0);
      PrintFits(T, w.then_, 0);
      WhensFit(T, whens[1..]);
    }
  }

  lemma {:induction false} ArgsFit(T: Table, args: seq<Tree>)
    requires forall a :: a in args ==> Built(T, a)
    ensures AllFit(PrintArgs(args)) && AllFit(PrintMore(args))
    decreases args
  {
    hide Print;
    if args != [] {
      assert args[0] in args;
      PrintFits(T, args[0], 0);
      ArgsFit(T, args[1..]);
    }
  }

  /** A buildable tree's text is read as that tree. */
  lemma {:induction false} ShownReads(T: Table, t: Tree)
    requires Built(T, t)
    ensures ReadText(T, Show(t)) == Read(t)
  {
    PrintFits(T, t, 0);
    SpelledScans(Print(t, 0));
    PrintedParses(T, t);
  }

  /** Every text the calculator accepts, shown from its tree, is read as the same tree. */
  lemma {:induction false} ReadShowRead(T: Table, text: string)
    requires TableFits(T)
    ensures var r := ReadText(T, text); r.Read? ==> Built(T, r.tree) && ReadText(T, Show(r.tree)) == r
  {
    ScanFits(text);
    var s := Scan(text);
    if s.Tokens? && Grammar.ParseTokens(T, s.ts).Ok? {
      ParsePrintParse(T, s.ts);
      ShownReads(T, Grammar.ParseTokens(T, s.ts).tree);
    }
  }
}
