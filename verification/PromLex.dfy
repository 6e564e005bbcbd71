// The lexical layer of generated PromQL: what the compiler's sanitizers and
// escaper write, and an independent lexer that reads it back.
module PromLex {
  import opened Wrappers
  import opened Text

  // ---------- character classes ----------

  predicate IsAlpha(c: char) {
    'a' <= c <= 'z' || 'A' <= c <= 'Z'
  }

  predicate IsLabelChar(c: char) {
    IsAlpha(c) || IsDigit(c) || c == '_'
  }

  predicate IsMetricChar(c: char) {
    IsLabelChar(c) || c == ':'
  }

  // ---------- sanitizers ----------

  /** ReplaceAllString with a negated character class: every other character becomes '_'. */
  function Normalize(name: string, keep: char -> bool): string {
    seq(|name|, i requires 0 <= i < |name| => if keep(name[i]) then name[i] else '_')
  }

  function GuardDigit(s: string): string {
    if s != "" && IsDigit(s[0]) then "_" + s else s
  }

  function SanitizeLabelName(name: string): string {
    GuardDigit(Normalize(name, IsLabelChar))
  }

  function SanitizeMetricName(name: string): string {
    GuardDigit(Normalize(name, IsMetricChar))
  }

  /** A PromQL identifier: non-empty, name characters only, no leading digit. */
  predicate IsName(s: string, keep: char -> bool) {
    s != "" && !IsDigit(s[0]) && forall i :: 0 <= i < |s| ==> keep(s[i])
  }

  /** Sanitizing yields an identifier unless the name is empty, and changes only non-identifiers. */
  lemma SanitizeLabelNameSpec(name: string)
    ensures name == "" ==> SanitizeLabelName(name) == ""
    ensures name != "" ==> IsName(SanitizeLabelName(name), IsLabelChar)
    ensures name != "" ==> (SanitizeLabelName(name) == name <==> IsName(name, IsLabelChar))
    ensures SanitizeLabelName(SanitizeLabelName(name)) == SanitizeLabelName(name)
  {
  }

  lemma SanitizeMetricNameSpec(name: string)
    ensures name == "" ==> SanitizeMetricName(name) == ""
    ensures name != "" ==> IsName(SanitizeMetricName(name), IsMetricChar)
    ensures name != "" ==> (SanitizeMetricName(name) == name <==> IsName(name, IsMetricChar))
    ensures SanitizeMetricName(SanitizeMetricName(name)) == SanitizeMetricName(name)
  {
  }

  lemma GuardedCharacters(name: string, keep: char -> bool)
    requires forall c :: '0' <= c <= '9' ==> keep(c)
    ensures var clean := GuardDigit(Normalize(name, keep));
            var guard := if name != "" && '0' <= name[0] <= '9' then "_" else "";
            && |clean| == |guard| + |name| && guard <= clean
            && forall i :: 0 <= i < |name| ==> clean[|guard| + i] == if keep(name[i]) then name[i] else '_'
  {
    var n := Normalize(name, keep);
    assert name != "" ==> n[0] == if keep(name[0]) then name[0] else '_';
    assert name != "" ==> (IsDigit(n[0]) <==> '0' <= name[0] <= '9');
  }

  /**
   * Character by character: letters, digits and underscores stay, colons too in metric names, anything else becomes an
   * underscore; one more goes in front of a leading digit.
   */
  lemma SanitizedCharacters(name: string)
    ensures var clean := SanitizeLabelName(name);
            var guard := if name != "" && '0' <= name[0] <= '9' then "_" else "";
            && |clean| == |guard| + |name| && guard <= clean
            && forall i :: 0 <= i < |name| ==>
                 clean[|guard| + i] ==
                 if 'a' <= name[i] <= 'z' || 'A' <= name[i] <= 'Z' || '0' <= name[i] <= '9' then name[i] else '_'
    ensures var clean := SanitizeMetricName(name);
            var guard := if name != "" && '0' <= name[0] <= '9' then "_" else "";
            && |clean| == |guard| + |name| && guard <= clean
            && forall i :: 0 <= i < |name| ==>
                 clean[|guard| + i] ==
                 if 'a' <= name[i] <= 'z' || 'A' <= name[i] <= 'Z' || '0' <= name[i] <= '9' || name[i] == ':'
                 then name[i] else '_'
  {
    GuardedCharacters(name, IsLabelChar);
    GuardedCharacters(name, IsMetricChar);
  }

  // ---------- string literals ----------

  function EscapeChar(c: char): string {
    if c == '\\' then "\\\\" else if c == '"' then "\\\"" else if c == '\n' then "\\n" else [c]
  }

  /** The value between the quotes of a double-quoted PromQL literal. */
  function EscapeLabelValue(v: string): string {
    if v == "" then "" else EscapeChar(v[0]) + EscapeLabelValue(v[1..])
  }

  function EscapeTarget(c: char): Option<char> {
    match c
    case 'a' => Some(7 as char)
    case 'b' => Some(8 as char)
    case 'f' => Some(12 as char)
    case 'n' => Some('\n')
    case 'r' => Some('\r')
    case 't' => Some('\t')
    case 'v' => Some(11 as char)
    case '\\' => Some('\\')
    case '"' => Some('"')
    case _ => None
  }

  /** Backslashes, quotes and line feeds are escaped, one at a time; everything else is printed as it is. */
  lemma {:induction false} EscapedCharacters(a: string, b: string, c: char)
    ensures EscapeLabelValue(a + b) == EscapeLabelValue(a) + EscapeLabelValue(b)
    ensures EscapeLabelValue([c]) == (match c case '\\' => "\\\\" case '"' => "\\\"" case '\n' => "\\n" case _ => [c])
  {
    assert [c][1..] == "";
    assert EscapeLabelValue("") == "";
    if a == "" {
      assert a + b == b;
    } else {
      assert (a + b)[1..] == a[1..] + b;
      EscapedCharacters(a[1..], b, c);
    }
  }

  /** Reads a literal whose opening quote is consumed; gives its value and the text after it. */
  function Unquote(s: string): (r: Option<(string, string)>)
    ensures r.Some? ==> |r.value.1| < |s|
  {
    if s == "" || s[0] == '\n' then None
    else if s[0] == '"' then Some(("", s[1..]))
    else if s[0] == '\\' then
      if |s| < 2 || EscapeTarget(s[1]) == None then None
      else match Unquote(s[2..])
        case None => None
        case Some((v, rest)) => Some(([EscapeTarget(s[1]).value] + v, rest))
    else match Unquote(s[1..])
      case None => None
      case Some((v, rest)) => Some(([s[0]] + v, rest))
  }

  lemma UnquoteChar(c: char, u: string, v: string, rest: string)
    requires Unquote(u) == Some((v, rest))
    ensures Unquote(EscapeChar(c) + u) == Some(([c] + v, rest))
  {
  }

  /** Whatever quotes, backslashes or newlines a value holds, it reads back unchanged. */
  lemma {:induction false} UnquoteEscape(v: string, rest: string)
    ensures Unquote(EscapeLabelValue(v) + "\"" + rest) == Some((v, rest))
  {
    if v == "" {
      assert EscapeLabelValue(v) + "\"" + rest == "\"" + rest;
      assert ("\"" + rest)[1..] == rest;
    } else {
      hide Unquote, EscapeChar;
      var u := EscapeLabelValue(v[1..]) + "\"" + rest;
      UnquoteEscape(v[1..], rest);
      UnquoteChar(v[0], u, v[1..], rest);
      assert EscapeLabelValue(v) + "\"" + rest == EscapeChar(v[0]) + u;
      assert v == [v[0]] + v[1..];
    }
  }

  // ---------- tokens ----------

  datatype Token = Ident(name: string) | Number(text: string) | Str(value: string)
                 | Sym(c: char) | MatchesOp | Bad

  type Toks = List<Token>

  predicate IsSym(c: char) {
    c in {'(', ')', '{', '}', '[', ']', ',', '=', '/', '*'}
  }

  predicate IsNumberChar(c: char) {
    IsAlpha(c) || IsDigit(c) || c == '.' || c == '+' || c == '-'
  }

  predicate IsNumberStart(c: char) {
    IsDigit(c) || c == '.' || c == '+' || c == '-'
  }

  predicate IsNumberText(s: string) {
    s != "" && IsNumberStart(s[0]) && forall i :: 0 <= i < |s| ==> IsNumberChar(s[i])
  }

  /** Length of the longest prefix whose characters all satisfy p. */
  function Span(s: string, p: char -> bool): (n: nat)
    ensures n <= |s|
    ensures s != "" && p(s[0]) ==> n > 0
  {
    if s == "" || !p(s[0]) then 0 else 1 + Span(s[1..], p)
  }

  lemma {:induction false} SpanOf(word: string, rest: string, p: char -> bool)
    requires forall i :: 0 <= i < |word| ==> p(word[i])
    requires rest == "" || !p(rest[0])
    ensures Span(word + rest, p) == |word|
    ensures (word + rest)[..|word|] == word && (word + rest)[|word|..] == rest
  {
    if word == "" {
      assert word + rest == rest;
    } else {
      assert (word + rest)[1..] == word[1..] + rest;
      SpanOf(word[1..], rest, p);
    }
  }

  /** The reference lexer. Durations lex as numbers; anything else becomes Bad. */
  function Lex(s: string): Toks
    decreases |s|
  {
    if s == "" then Nil
    else if s[0] == ' ' then Lex(s[1..])
    else if s[0] == '=' && |s| > 1 && s[1] == '~' then Cons(MatchesOp, Lex(s[2..]))
    else if IsSym(s[0]) then Cons(Sym(s[0]), Lex(s[1..]))
    else if s[0] == '"' then
      match Unquote(s[1..])
      case None => Cons(Bad, Nil)
      case Some((v, rest)) => Cons(Str(v), Lex(rest))
    else if IsNumberStart(s[0]) then
      var n := Span(s, IsNumberChar);
      Cons(Number(s[..n]), Lex(s[n..]))
    else if IsMetricChar(s[0]) then
      var n := Span(s, IsMetricChar);
      Cons(Ident(s[..n]), Lex(s[n..]))
    else Cons(Bad, Nil)
  }

  /** Text that cannot extend a word or turn '=' into '=~'. */
  predicate Break(s: string) {
    s == "" || !(IsMetricChar(s[0]) || IsNumberChar(s[0]) || s[0] == '~')
  }

  lemma LexEnd()
    ensures Lex("") == Nil
  {
  }

  lemma LexSpace(k: string)
    ensures Lex(" " + k) == Lex(k)
  {
  }

  lemma LexSym(c: char, k: string)
    requires IsSym(c)
    requires c == '=' ==> k == "" || k[0] != '~'
    ensures Lex([c] + k) == Cons(Sym(c), Lex(k))
  {
  }

  lemma LexMatches(k: string)
    ensures Lex("=~" + k) == Cons(MatchesOp, Lex(k))
  {
  }

  lemma LexStr(v: string, k: string)
    ensures Lex("\"" + EscapeLabelValue(v) + "\"" + k) == Cons(Str(v), Lex(k))
  {
    var s := "\"" + EscapeLabelValue(v) + "\"" + k;
    UnquoteEscape(v, k);
    assert s[1..] == EscapeLabelValue(v) + "\"" + k;
  }

  lemma LexIdent(name: string, k: string)
    requires IsName(name, IsMetricChar)
    requires Break(k)
    ensures Lex(name + k) == Cons(Ident(name), Lex(k))
  {
    SpanOf(name, k, IsMetricChar);
    assert (name + k)[0] == name[0];
  }

  lemma LexNumber(text: string, k: string)
    requires IsNumberText(text)
    requires Break(k)
    ensures Lex(text + k) == Cons(Number(text), Lex(k))
  {
    SpanOf(text, k, IsNumberChar);
    assert (text + k)[0] == text[0];
  }
}
