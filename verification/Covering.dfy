/** What a scanned text is, piece by piece: blanks, and each token written as one of its spellings - nothing of the
    text is lost or read as another token - and which texts are numbers. */
module Covering {
  import opened Syntax
  import opened Words
  import opened Scanner

  function Sign(op: Op): string {
    match op
    case OpNullEq => "<=>" case OpLe => "<=" case OpGe => ">=" case OpNe => "<>" case OpBangEq => "!="
    case OpLt => "<" case OpGt => ">" case OpEq => "=" case OpPlus => "+" case OpMinus => "-"
    case OpTimes => "*" case OpDivide => "/" case OpPercent => "%" case OpCaret => "^"
    case OpOpen => "(" case OpClose => ")" case OpComma => "," case OpColon => ":"
  }

  /** The name between brackets, a «]» in it written twice. */
  function Bracketed(name: string): string {
    if name == "" then "" else (if name[0] == ']' then "]]" else [name[0]]) + Bracketed(name[1..])
  }

  /** The piece of text is the token written out: a word in any case, a text in either quotes. */
  ghost predicate Writes(w: string, tok: Token) {
    match tok
    case TNum(l) => w == l && NumberForm(l)
    case TStr(t) => (w == "\"" + t + "\"" && '"' !in t) || (w == "'" + t + "'" && '\'' !in t)
    case TRef(name) => w == "[" + Bracketed(name) + "]"
    case TKw(kw) => Lower(w) == KeywordText(kw)
    case TId(word) => w == word && WordForm(w)
    case TOp(op) => w == Sign(op)
  }

  predicate Digits(s: string) { forall i :: 0 <= i < |s| ==> IsDigit(s[i]) }

  predicate WordForm(w: string) {
    && w != "" && (IsLetter(w[0]) || w[0] == '_')
    && forall i :: 0 <= i < |w| ==> IsLetter(w[i]) || w[i] == '_' || IsDigit(w[i])
  }

  /** digits, digits.digits or .digits, and an exponent or none. */
  ghost predicate NumberForm(w: string) { exists m, e :: w == m + e && MantissaForm(m) && (e == "" || ExponentForm(e)) }

  ghost predicate MantissaForm(m: string) {
    || (m != "" && Digits(m))
    || (exists a, b :: m == a + "." + b && Digits(a) && Digits(b) && (a != "" || b != ""))
  }

  predicate ExponentForm(e: string) {
    && |e| >= 2 && (e[0] == 'e' || e[0] == 'E')
    && (Digits(e[1..]) || ((e[1] == '+' || e[1] == '-') && |e| >= 3 && Digits(e[2..])))
  }

  // ---- numbers -----------------------------------------------------------------------------------------------------

  lemma {:induction false} SpanOf(a: string, rest: string)
    requires Digits(a) && (rest == "" || !IsDigit(rest[0]))
    ensures DigitSpan(a + rest) == |a|
    decreases |a|
  {
    if a == "" {
      assert a + rest == rest;
    } else {
      SpanOf(a[1..], rest);
      assert (a + rest)[1..] == a[1..] + rest;
    }
  }

  lemma {:induction false} SpanIsDigits(s: string)
    ensures Digits(s[..DigitSpan(s)])
    ensures DigitSpan(s) < |s| ==> !IsDigit(s[DigitSpan(s)])
    decreases |s|
  {
    if s != "" && IsDigit(s[0]) {
      SpanIsDigits(s[1..]);
      assert s[..DigitSpan(s)] == [s[0]] + s[1..][..DigitSpan(s[1..])];
    }
  }

  lemma {:induction false} MantissaReads(m: string, e: string)
    requires MantissaForm(m) && (e == "" || ExponentForm(e))
    ensures MantissaLen(m + e) == |m|
  {
    if m != "" && Digits(m) {
      SpanOf(m, e);
      assert m + e != "" && (e != "" ==> (m + e)[|m|] == e[0]);
    } else {
      var a, b :| m == a + "." + b && Digits(a) && Digits(b) && (a != "" || b != "");
      PointedReads(a, b, e);
      assert m + e == a + "." + b + e;
    }
  }

  lemma {:induction false} PointedReads(a: string, b: string, e: string)
    requires Digits(a) && Digits(b) && (a != "" || b != "") && (e == "" || ExponentForm(e))
    ensures MantissaLen(a + "." + b + e) == |a| + 1 + |b|
  {
    var s := a + "." + b + e;
    assert s == a + ("." + b + e);
    SpanOf(a, "." + b + e);
    SpanOf(b, e);
    assert s[|a|] == '.' && s[|a| + 1..] == b + e;
  }

  lemma {:induction false} ExponentReads(e: string)
    requires ExponentForm(e)
    ensures ExponentLen(e) == |e|
  {
    if Digits(e[1..]) {
      SpanOf(e[1..], "");
      assert e[1..] + "" == e[1..] && IsDigit(e[1..][0]);
    } else {
      SpanOf(e[2..], "");
      assert e[2..] + "" == e[2..];
    }
  }

  lemma {:induction false} MantissaIs(s: string)
    requires MantissaLen(s) > 0
    ensures MantissaForm(s[..MantissaLen(s)])
  {
    var whole, n := DigitSpan(s), MantissaLen(s);
    SpanIsDigits(s);
    if whole > 0 && whole < |s| && s[whole] == '.' {
      var rest := s[whole + 1..];
      SpanIsDigits(rest);
      assert s[..n] == s[..whole] + "." + rest[..DigitSpan(rest)];
    } else if whole == 0 {
      var rest := s[1..];
      SpanIsDigits(rest);
      assert s[..n] == "" + "." + rest[..DigitSpan(rest)];
    }
  }

  lemma {:induction false} ExponentIs(e: string)
    requires e != "" && ExponentLen(e) == |e|
    ensures ExponentForm(e)
  {
    var sign := if |e| > 1 && (e[1] == '+' || e[1] == '-') then 2 else 1;
    SpanIsDigits(e[sign..]);
    assert e[sign..][..|e| - sign] == e[sign..];
  }

  /** A text is a number exactly in those forms. */
  lemma {:induction false} NumberExactly(w: string)
    ensures IsNumber(w) <==> NumberForm(w)
  {
    if IsNumber(w) {
      var n := MantissaLen(w);
      MantissaIs(w);
      if n < |w| { ExponentIs(w[n..]); }
      assert w == w[..n] + w[n..];
    }
    if NumberForm(w) {
      var m, e :| w == m + e && MantissaForm(m) && (e == "" || ExponentForm(e));
      MantissaReads(m, e);
      if e != "" { ExponentReads(e); }
      assert w[|m|..] == e;
      MantissaThere(m);
    }
  }

  lemma {:induction false} MantissaThere(m: string)
    requires MantissaForm(m)
    ensures m != ""
  {
  }

  // ---- the text covered --------------------------------------------------------------------------------------------

  /** The text is blanks and, in order, pieces that write the tokens. */
  ghost predicate Covers(text: string, ts: seq<Token>)
    decreases |text|
  {
    if text == "" then ts == []
    else if IsSpace(text[0]) then Covers(text[1..], ts)
    else
      ts != [] && exists n :: 0 < n <= |text| && Writes(text[..n], ts[0]) && Covers(text[n..], ts[1..])
  }

  lemma {:induction false} SignIs(op: Op)
    ensures Sign(op) == OpText(op)
  {
  }

  lemma {:induction false} OpWritten(s: string)
    requires s != "" && OpAt(s).Some?
    ensures |OpText(OpAt(s).value)| <= |s| && s[..|OpText(OpAt(s).value)|] == Sign(OpAt(s).value)
  {
    var op := OpAt(s).value;
    SignIs(op);
  }

  lemma {:induction false} NameWritten(s: string)
    ensures NameAt(s).Some? ==>
              var r := NameAt(s).value; r.1 <= |s| && s[..r.1] == Bracketed(r.0) + "]"
    decreases |s|
  {
    if NameAt(s).Some? {
      var r := NameAt(s).value;
      if s[0] == ']' {
        if |s| > 1 && s[1] == ']' {
          NameWritten(s[2..]);
          var inner := NameAt(s[2..]).value;
          assert r.0 == "]" + inner.0 && r.0[1..] == inner.0;
          assert s[..r.1] == "]]" + s[2..][..inner.1];
        } else {
          assert s[..1] == "]" && Bracketed("") == "";
        }
      } else {
        NameWritten(s[1..]);
        var inner := NameAt(s[1..]).value;
        assert r.0 == [s[0]] + inner.0 && r.0[1..] == inner.0;
        assert s[..r.1] == [s[0]] + s[1..][..inner.1];
      }
    }
  }

  lemma {:induction false} WordWritten(s: string)
    requires WordLen(s) > 0
    ensures Writes(s[..WordLen(s)], WordToken(s[..WordLen(s)]))
  {
    var w := s[..WordLen(s)];
    SpanIsWord(s);
    KeywordIs(Lower(w));
  }

  lemma {:induction false} SpanIsWord(s: string)
    ensures forall i :: 0 <= i < WordSpan(s) ==> IsWordPart(s[i])
    decreases |s|
  {
    if s != "" && IsWordPart(s[0]) {
      SpanIsWord(s[1..]);
      forall i | 0 < i < WordSpan(s) ensures IsWordPart(s[i]) { assert s[i] == s[1..][i - 1]; }
    }
  }

  lemma {:induction false} KeywordIs(w: string)
    ensures KeywordOf(w).Some? ==> KeywordText(KeywordOf(w).value) == w
  {
  }

  lemma {:induction false} NextWritten(s: string)
    requires s != "" && Next(s).Step?
    ensures 0 < Next(s).len <= |s| && Writes(s[..Next(s).len], Next(s).tok)
  {
    var n := NumberLen(s);
    if n > 0 {
      NumberCut(s);
      NumberExactly(s[..n]);
    } else if s[0] == '"' || s[0] == '\'' {
      QuotedWritten(s);
    } else if s[0] == '[' {
      NameWritten(s[1..]);
      var r := NameAt(s[1..]).value;
      assert s[..r.1 + 1] == "[" + s[1..][..r.1];
    } else if WordLen(s) > 0 {
      WordWritten(s);
    } else {
      OpWritten(s);
    }
  }

  lemma {:induction false} QuotedWritten(s: string)
    requires s != "" && (s[0] == '"' || s[0] == '\'') && NumberLen(s) == 0 && Next(s).Step?
    ensures Writes(s[..Next(s).len], Next(s).tok)
  {
    var close := Find(s[1..], s[0]);
    var t := s[1..][..close];
    assert s[..close + 2] == [s[0]] + t + [s[0]];
  }

  /** Whatever text scans, it is its tokens written one after another and blanks. */
  lemma {:induction false} ScanKeepsText(text: string)
    ensures Scan(text).Tokens? ==> Covers(text, Scan(text).ts)
    decreases |text|
  {
    hide Writes, Next;
    if text != "" && Scan(text).Tokens? {
      if IsSpace(text[0]) {
        ScanKeepsText(text[1..]);
      } else {
        NextWritten(text);
        var n := Next(text).len;
        ScanKeepsText(text[n..]);
        assert Scan(text).ts == [Next(text).tok] + Scan(text[n..]).ts;
        assert Scan(text).ts[1..] == Scan(text[n..]).ts;
      }
    }
  }
}
