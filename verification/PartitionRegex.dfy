// The regular expression behind partition_id=~"...": regexp.QuoteMeta, the join
// on '|', and a reference reading of the result in which '.', '*', '+' and '?'
// keep their special meaning when they are not quoted.
module PartitionRegex {
  import opened Wrappers
  import opened Text

  predicate IsMeta(c: char) {
    c in {'\\', '.', '+', '*', '?', '(', ')', '|', '[', ']', '{', '}', '^', '$'}
  }

  function QuoteChar(c: char): string {
    if IsMeta(c) then ['\\', c] else [c]
  }

  function QuoteMeta(s: string): string {
    if s == "" then "" else QuoteChar(s[0]) + QuoteMeta(s[1..])
  }

  /** The fourteen characters with a meaning of their own get a backslash, one at a time, the others do not. */
  lemma {:induction false} QuotedCharacters(a: string, b: string, c: char)
    ensures QuoteMeta(a + b) == QuoteMeta(a) + QuoteMeta(b)
    ensures QuoteMeta([c]) == if c in "\\.+*?()|[]{}^$" then ['\\', c] else [c]
  {
    assert [c][1..] == "";
    assert QuoteMeta("") == "";
    if a == "" {
      assert a + b == b;
    } else {
      assert (a + b)[1..] == a[1..] + b;
      QuotedCharacters(a[1..], b, c);
    }
  }

  function Quoted(ids: seq<string>): (q: seq<string>)
    ensures |q| == |ids|
  {
    seq(|ids|, i requires 0 <= i < |ids| => QuoteMeta(ids[i]))
  }

  // ---------- reference semantics ----------

  datatype Atom = Lit(c: char) | AnyChar
  datatype Repeat = Once | Optional | Star | Plus
  datatype Item = Item(atom: Atom, rep: Repeat)

  type Branch = List<Item>
  type Pattern = List<Branch>

  /** Alternatives of repeated atoms; groups, classes, anchors and other escapes are outside the fragment. */
  function Parse(s: string): Option<Pattern>
    decreases |s|, 0
  {
    if s == "" then Some(Cons(Nil, Nil))
    else if s[0] == '|' then
      match Parse(s[1..])
      case None => None
      case Some(p) => Some(Cons(Nil, p))
    else if s[0] == '\\' then
      if |s| > 1 && IsMeta(s[1]) then ParseRepeat(Lit(s[1]), s[2..]) else None
    else if s[0] == '.' then ParseRepeat(AnyChar, s[1..])
    else if IsMeta(s[0]) then None
    else ParseRepeat(Lit(s[0]), s[1..])
  }

  function ParseRepeat(a: Atom, s: string): Option<Pattern>
    decreases |s|, 1
  {
    if s != "" && s[0] == '?' then PrependItem(Item(a, Optional), Parse(s[1..]))
    else if s != "" && s[0] == '*' then PrependItem(Item(a, Star), Parse(s[1..]))
    else if s != "" && s[0] == '+' then PrependItem(Item(a, Plus), Parse(s[1..]))
    else PrependItem(Item(a, Once), Parse(s))
  }

  function PrependItem(it: Item, p: Option<Pattern>): Option<Pattern> {
    match p
    case Some(Cons(b, rest)) => Some(Cons(Cons(it, b), rest))
    case _ => None
  }

  predicate AtomMatches(a: Atom, c: char) {
    match a
    case Lit(d) => c == d
    case AnyChar => true
  }

  predicate MatchBranch(b: Branch, s: string)
    decreases b, |s|
  {
    match b
    case Nil => s == ""
    case Cons(Item(a, rep), rest) =>
      var step := s != "" && AtomMatches(a, s[0]);
      match rep
      case Once => step && MatchBranch(rest, s[1..])
      case Optional => MatchBranch(rest, s) || (step && MatchBranch(rest, s[1..]))
      case Star => MatchBranch(rest, s) || (step && MatchBranch(b, s[1..]))
      case Plus => step && (MatchBranch(rest, s[1..]) || MatchBranch(b, s[1..]))
  }

  predicate MatchPattern(p: Pattern, s: string) {
    match p
    case Nil => false
    case Cons(b, rest) => MatchBranch(b, s) || MatchPattern(rest, s)
  }

  /** Prometheus anchors the whole expression on both sides. */
  predicate Accepts(text: string, s: string) {
    Parse(text).Some? && MatchPattern(Parse(text).value, s)
  }

  // ---------- the generated expression is exact ----------

  function Onto(word: string, b: Branch): Branch {
    if word == "" then b else Cons(Item(Lit(word[0]), Once), Onto(word[1..], b))
  }

  lemma ParseLiteral(c: char, u: string, b: Branch, rest: Pattern)
    requires u == "" || u[0] !in {'?', '*', '+'}
    requires Parse(u) == Some(Cons(b, rest))
    ensures Parse(QuoteChar(c) + u) == Some(Cons(Cons(Item(Lit(c), Once), b), rest))
  {
  }

  lemma QuotedHead(id: string, k: string)
    requires k == "" || k[0] == '|'
    ensures var u := QuoteMeta(id) + k; u == "" || u[0] !in {'?', '*', '+'}
  {
  }

  lemma {:induction false} ParseQuoted(id: string, k: string, b: Branch, rest: Pattern)
    requires k == "" || k[0] == '|'
    requires Parse(k) == Some(Cons(b, rest))
    ensures Parse(QuoteMeta(id) + k) == Some(Cons(Onto(id, b), rest))
  {
    hide Parse, QuoteChar;
    if id == "" {
      assert QuoteMeta(id) + k == k;
    } else {
      var u := QuoteMeta(id[1..]) + k;
      QuotedHead(id[1..], k);
      ParseQuoted(id[1..], k, b, rest);
      ParseLiteral(id[0], u, Onto(id[1..], b), rest);
      assert QuoteMeta(id) + k == QuoteChar(id[0]) + u;
    }
  }

  lemma {:induction false} LiteralBranch(word: string, s: string)
    ensures MatchBranch(Onto(word, Nil), s) <==> s == word
  {
    if word != "" {
      if s != "" && s[0] == word[0] {
        LiteralBranch(word[1..], s[1..]);
        assert s == [s[0]] + s[1..] && word == [word[0]] + word[1..];
      }
    }
  }

  function Alternatives(ids: seq<string>): Pattern {
    if ids == [] then Nil else Cons(Onto(ids[0], Nil), Alternatives(ids[1..]))
  }

  lemma {:induction false} ParseJoined(ids: seq<string>)
    requires ids != []
    ensures Parse(Join(Quoted(ids), "|")) == Some(Alternatives(ids))
  {
    var q := Quoted(ids);
    if |ids| == 1 {
      ParseQuoted(ids[0], "", Nil, Nil);
      assert QuoteMeta(ids[0]) + "" == Join(q, "|");
      assert Alternatives(ids[1..]) == Nil;
    } else {
      ParseJoined(ids[1..]);
      assert q[1..] == Quoted(ids[1..]);
      var t := Join(Quoted(ids[1..]), "|");
      assert ("|" + t)[1..] == t;
      ParseQuoted(ids[0], "|" + t, Nil, Alternatives(ids[1..]));
      assert QuoteMeta(ids[0]) + ("|" + t) == Join(q, "|");
    }
  }

  lemma {:induction false} AlternativesExact(ids: seq<string>, s: string)
    ensures MatchPattern(Alternatives(ids), s) <==> s in ids
  {
    if ids != [] {
      LiteralBranch(ids[0], s);
      AlternativesExact(ids[1..], s);
    }
  }

  /** The anchored expression accepts a string exactly when it is one of the ids. */
  lemma PartitionRegexExact(ids: seq<string>, s: string)
    requires ids != []
    ensures Accepts(Join(Quoted(ids), "|"), s) <==> s in ids
  {
    ParseJoined(ids);
    AlternativesExact(ids, s);
  }

  /** Quoting is what makes it exact: the raw join of the same ids also accepts others. */
  lemma RawJoinIsTooWide()
    ensures Accepts("p.1|q", "px1") && "px1" !in ["p.1", "q"]
  {
  }
}
