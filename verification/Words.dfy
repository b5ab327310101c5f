/** Characters, words and number texts as the calculator's scanner tells them apart. */
module Words {
  import opened Syntax

  predicate IsDigit(c: char) { '0' <= c <= '9' }

  predicate IsLetter(c: char) { 'a' <= c <= 'z' || 'A' <= c <= 'Z' }

  predicate IsWordStart(c: char) { IsLetter(c) || c == '_' }

  predicate IsWordPart(c: char) { IsWordStart(c) || IsDigit(c) }

  /** Python's str.isspace: 29 code points. */
  predicate IsSpace(c: char) {
    || '\t' <= c <= '\r'
    || '\U{1c}' <= c <= ' '
    || c == '\U{85}' || c == '\U{a0}' || c == '\U{1680}'
    || '\U{2000}' <= c <= '\U{200a}'
    || c == '\U{2028}' || c == '\U{2029}' || c == '\U{202f}' || c == '\U{205f}' || c == '\U{3000}'
  }

  function LowerChar(c: char): char {
    if 'A' <= c <= 'Z' then (c as int + 32) as char else c
  }

  /** str.lower on a word (words hold ASCII only). */
  function Lower(s: string): (r: string)
    ensures |r| == |s|
  {
    if s == "" then "" else [LowerChar(s[0])] + Lower(s[1..])
  }

  /** A name holding «.» or «~» is a way from the row. */
  predicate IsWay(name: string) { '.' in name || '~' in name }

  /** How many leading characters are letters. */
  function LetterSpan(s: string): (n: nat)
    ensures n <= |s|
  {
    if s != "" && IsLetter(s[0]) then 1 + LetterSpan(s[1..]) else 0
  }

  /** How many leading characters are digits. */
  function DigitSpan(s: string): (n: nat)
    ensures n <= |s|
  {
    if s != "" && IsDigit(s[0]) then 1 + DigitSpan(s[1..]) else 0
  }

  /** CELL: letters then digits, nothing else - a sheet's cell (A1). */
  predicate IsCell(s: string) {
    var n := LetterSpan(s);
    n > 0 && n < |s| && n + DigitSpan(s[n..]) == |s|
  }

  /** How many leading characters are word characters. */
  function WordSpan(s: string): (n: nat)
    ensures n <= |s|
  {
    if s != "" && IsWordPart(s[0]) then 1 + WordSpan(s[1..]) else 0
  }

  /** The length of WORD's match at the start of `s`, 0 for none. */
  function WordLen(s: string): (n: nat)
    ensures n <= |s|
  {
    if s != "" && IsWordStart(s[0]) then WordSpan(s) else 0
  }

  predicate IsWord(s: string) { s != "" && WordLen(s) == |s| }

  /** The length of the exponent at the start of `s`, 0 for none: [eE][+-]?digits. */
  function ExponentLen(s: string): (n: nat)
    ensures n <= |s|
  {
    if s != "" && (s[0] == 'e' || s[0] == 'E') then
      var sign := if |s| > 1 && (s[1] == '+' || s[1] == '-') then 2 else 1;
      var digits := DigitSpan(s[sign..]);
      if digits > 0 then sign + digits else 0
    else 0
  }

  /** The length of the digits and the point at the start of `s`: digits.digits, digits or .digits; 0 for none. */
  function MantissaLen(s: string): (n: nat)
    ensures n <= |s|
  {
    var whole := DigitSpan(s);
    if whole > 0 then
      if whole < |s| && s[whole] == '.' then whole + 1 + DigitSpan(s[whole + 1..]) else whole
    else if s != "" && s[0] == '.' && DigitSpan(s[1..]) > 0 then 1 + DigitSpan(s[1..])
    else 0
  }

  /** The length of NUMBER's match at the start of `s`, 0 for none. */
  function NumberLen(s: string): (n: nat)
    ensures n <= |s|
  {
    var m := MantissaLen(s);
    if m == 0 then 0 else m + ExponentLen(s[m..])
  }

  predicate IsNumber(s: string) { s != "" && NumberLen(s) == |s| }

  function KeywordText(kw: Keyword): string {
    match kw
    case KwOr => "or" case KwXor => "xor" case KwAnd => "and" case KwNot => "not" case KwIs => "is"
    case KwNull => "null" case KwTrue => "true" case KwFalse => "false" case KwCase => "case"
    case KwWhen => "when" case KwThen => "then" case KwElse => "else" case KwEnd => "end"
    case KwDistinct => "distinct"
  }

  /** KEYWORDS, by their lower case. */
  function KeywordOf(w: string): Option<Keyword> {
    if w == "or" then Some(KwOr) else if w == "xor" then Some(KwXor) else if w == "and" then Some(KwAnd)
    else if w == "not" then Some(KwNot) else if w == "is" then Some(KwIs) else if w == "null" then Some(KwNull)
    else if w == "true" then Some(KwTrue) else if w == "false" then Some(KwFalse)
    else if w == "case" then Some(KwCase) else if w == "when" then Some(KwWhen)
    else if w == "then" then Some(KwThen) else if w == "else" then Some(KwElse)
    else if w == "end" then Some(KwEnd) else if w == "distinct" then Some(KwDistinct) else None
  }

  /** A word the scanner hands on as a name. */
  predicate IsName(w: string) { IsWord(w) && KeywordOf(Lower(w)).None? }
}
