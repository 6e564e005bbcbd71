// Source expressions of command mappings and the values they name.
module Expression {
  import opened Wrappers
  import opened Text

  /** Untyped JSON data; nil is Null. Floating literals are kept as written. */
  datatype Json = Null | Bool(b: bool) | Int(n: int) | Float(text: string) | Str(s: string)
                | Arr(items: seq<Json>) | Obj(fields: map<string, Json>)

  datatype RequestContext = RequestContext(subject: string, tenant: string, partition: string, email: string)

  /** What an expression may draw on; a missing source is None. */
  datatype Sources = Sources(input: Option<map<string, Json>>, route: Option<map<string, string>>,
                             context: Option<RequestContext>, workflow: Option<map<string, Json>>)

  datatype ResolveError = EmptyExpression | BadNumber(text: string) | MissingPrefix | EmptyPath
                        | UnknownPrefix(prefix: string) | NilSource(prefix: string)
                        | NotFound(prefix: string, path: string)

  // ---------- trimming and splitting ----------

  predicate IsSpace(c: char) {
    var n := c as int;
    9 <= n <= 13 || n in {32, 0x85, 0xA0, 0x1680, 0x2028, 0x2029, 0x202F, 0x205F, 0x3000} || 0x2000 <= n <= 0x200A
  }

  function TrimLeft(s: string): (r: string)
    ensures |r| <= |s|
    ensures r == "" || !IsSpace(r[0])
    ensures r == s <==> s == "" || !IsSpace(s[0])
  {
    if s != "" && IsSpace(s[0]) then TrimLeft(s[1..]) else s
  }

  function TrimRight(s: string): (r: string)
    ensures r <= s
    ensures r == "" || !IsSpace(r[|r| - 1])
    ensures r == s <==> s == "" || !IsSpace(s[|s| - 1])
  {
    if s != "" && IsSpace(s[|s| - 1]) then TrimRight(s[..|s| - 1]) else s
  }

  function Trim(s: string): string {
    TrimRight(TrimLeft(s))
  }

  predicate IsTrimmed(s: string) {
    s == "" || (!IsSpace(s[0]) && !IsSpace(s[|s| - 1]))
  }

  lemma TrimSpec(s: string)
    ensures IsTrimmed(Trim(s))
    ensures Trim(s) == s <==> IsTrimmed(s)
  {
    var l := TrimLeft(s);
    if Trim(s) != "" { assert Trim(s)[0] == l[0]; }
  }

  function Split(s: string, sep: char): (r: seq<string>)
    ensures |r| >= 1
  {
    if s == "" then [""]
    else
      var rest := Split(s[1..], sep);
      if s[0] == sep then [""] + rest else [[s[0]] + rest[0]] + rest[1..]
  }

  function IndexOfDot(s: string): (i: Option<nat>)
    ensures i.Some? ==> i.value < |s| && s[i.value] == '.' && '.' !in s[..i.value]
    ensures i.None? ==> '.' !in s
  {
    if s == "" then None
    else if s[0] == '.' then Some(0)
    else
      match IndexOfDot(s[1..])
      case None => None
      case Some(i) => assert s[..i + 1] == [s[0]] + s[1..][..i]; Some(i + 1)
  }

  // ---------- navigation ----------

  function Field(v: Json, name: string): Json {
    if v.Obj? && name in v.fields then v.fields[name] else Null
  }

  function Follow(v: Json, parts: seq<string>): Json
    decreases |parts|
  {
    if parts == [] then v else Follow(Field(v, parts[0]), parts[1..])
  }

  function Navigate(data: map<string, Json>, path: string): Json {
    Follow(Obj(data), Split(path, '.'))
  }

  lemma {:induction false} FollowNull(parts: seq<string>)
    ensures Follow(Null, parts) == Null
  {
    if parts != [] { FollowNull(parts[1..]); }
  }

  method NavigatePath(data: map<string, Json>, path: string) returns (current: Json)
    ensures current == Navigate(data, path)
  {
    var parts := Split(path, '.');
    current := Obj(data);
    for i := 0 to |parts|
      invariant Follow(current, parts[i..]) == Navigate(data, path)
    {
      assert parts[i..][1..] == parts[i + 1..];
      if !current.Obj? {
        FollowNull(parts[i + 1..]);
        return Null;
      }
      current := if parts[i] in current.fields then current.fields[parts[i]] else Null;
    }
  }

  // ---------- literals ----------

  predicate IsSign(c: char) {
    c == '-' || c == '+'
  }

  function Dots(s: string): nat {
    if s == "" then 0 else (if s[0] == '.' then 1 else 0) + Dots(s[1..])
  }

  function Unsigned(s: string): string {
    if s != "" && IsSign(s[0]) then s[1..] else s
  }

  predicate IsNumeral(body: string) {
    body != "" && (forall i :: 0 <= i < |body| ==> IsDigit(body[i]) || body[i] == '.') && Dots(body) <= 1
  }

  /** Digits with at most one dot, after an optional sign; at least one character. */
  predicate LooksNumeric(s: string) {
    IsNumeral(Unsigned(s))
  }

  lemma {:induction false} DotsConcat(a: string, b: string)
    ensures Dots(a + b) == Dots(a) + Dots(b)
  {
    if a == "" { assert a + b == b; } else { assert (a + b)[1..] == a[1..] + b; DotsConcat(a[1..], b); }
  }

  lemma DotsStep(s: string, n: nat)
    requires n < |s|
    ensures Dots(s[..n + 1]) == Dots(s[..n]) + if s[n] == '.' then 1 else 0
    ensures Dots(s) >= Dots(s[..n + 1])
  {
    assert s[..n + 1] == s[..n] + [s[n]];
    assert s == s[..n + 1] + s[n + 1..];
    DotsConcat(s[..n], [s[n]]);
    DotsConcat(s[..n + 1], s[n + 1..]);
    assert Dots([s[n]]) == if s[n] == '.' then 1 else 0;
  }

  method IsNumericLiteral(s: string) returns (r: bool)
    ensures r == LooksNumeric(s)
  {
    if |s| == 0 {
      return false;
    }
    var start := 0;
    if s[0] == '-' || s[0] == '+' {
      start := 1;
      if start >= |s| {
        return false;
      }
    }
    ghost var body := Unsigned(s);
    assert body == s[start..];
    var hasDot := false;
    for i := start to |s|
      invariant forall k :: 0 <= k < i - start ==> IsDigit(body[k]) || body[k] == '.'
      invariant Dots(body[..i - start]) == if hasDot then 1 else 0
    {
      var n := i - start;
      assert body[n] == s[i];
      DotsStep(body, n);
      if s[i] == '.' {
        if hasDot {
          return false;
        }
        hasDot := true;
      } else if s[i] < '0' || s[i] > '9' {
        return false;
      }
    }
    assert body[..|body|] == body;
    return true;
  }

  function Digits(s: string): (n: int)
    ensures n >= 0
  {
    if s == "" then 0
    else
      var last := s[|s| - 1];
      Digits(s[..|s| - 1]) * 10 + if IsDigit(last) then last as int - '0' as int else 0
  }

  function TwoTo(n: nat): (r: nat)
    ensures r >= 1
  {
    if n == 0 then 1 else 2 * TwoTo(n - 1)
  }

  /** The least magnitude that a 64-bit float cannot hold even rounded: 2^1024 - 2^970. */
  const FLOAT_LIMIT: nat := TwoTo(970) * (TwoTo(54) - 1)

  function WholePart(s: string): string {
    var body := Unsigned(s);
    match IndexOfDot(body) case Some(dot) => body[..dot] case None => body
  }

  /** With a dot, a float: it needs a digit and must be in range. Without, a 64-bit integer. */
  function ParseNumeric(s: string): Result<Json, ResolveError> {
    if '.' in s then
      if (exists i :: 0 <= i < |s| && IsDigit(s[i])) && Digits(WholePart(s)) < FLOAT_LIMIT then Ok(Float(s))
      else Err(BadNumber(s))
    else
      var n := Digits(Unsigned(s));
      var v := if s != "" && s[0] == '-' then -n else n;
      if -0x8000_0000_0000_0000 <= v <= 0x7FFF_FFFF_FFFF_FFFF then Ok(Int(v)) else Err(BadNumber(s))
  }

  predicate IsQuoted(s: string) {
    |s| >= 2 && s[0] == '\'' && s[|s| - 1] == '\''
  }

  // ---------- resolution ----------

  function ResolveData(prefix: string, source: Option<map<string, Json>>, path: string): Result<Json, ResolveError> {
    if source.None? then Err(NilSource(prefix))
    else
      var v := Navigate(source.value, path);
      if v == Null then Err(NotFound(prefix, path)) else Ok(v)
  }

  function ResolveRoute(route: Option<map<string, string>>, name: string): Result<Json, ResolveError> {
    if route.None? then Err(NilSource("route"))
    else if name in route.value then Ok(Str(route.value[name]))
    else Err(NotFound("route", name))
  }

  function ResolveContext(context: Option<RequestContext>, field: string): Result<Json, ResolveError> {
    if context.None? then Err(NilSource("context"))
    else if field == "subject_id" then Ok(Str(context.value.subject))
    else if field == "tenant_id" then Ok(Str(context.value.tenant))
    else if field == "partition_id" then Ok(Str(context.value.partition))
    else if field == "email" then Ok(Str(context.value.email))
    else Err(NotFound("context", field))
  }

  function Resolve(expr: string, src: Sources): Result<Json, ResolveError> {
    var e := Trim(expr);
    if e == "" then Err(EmptyExpression)
    else if IsQuoted(e) then Ok(Str(e[1..|e| - 1]))
    else if LooksNumeric(e) then ParseNumeric(e)
    else
      match IndexOfDot(e)
      case None => Err(MissingPrefix)
      case Some(dot) =>
        var prefix, path := e[..dot], e[dot + 1..];
        if path == "" then Err(EmptyPath)
        else if prefix == "input" then ResolveData("input", src.input, path)
        else if prefix == "route" then ResolveRoute(src.route, path)
        else if prefix == "context" then ResolveContext(src.context, path)
        else if prefix == "workflow" then ResolveData("workflow", src.workflow, path)
        else Err(UnknownPrefix(prefix))
  }

  /** The path into the user input an expression reads, if it reads the input at all. */
  function SuppliedPath(expr: string): Option<string> {
    var e := Trim(expr);
    if |e| > 6 && HasPrefix(e, "input.") then Some(e[6..]) else None
  }

  lemma InputPrefix(e: string)
    requires HasPrefix(e, "input.")
    ensures IndexOfDot(e) == Some(5) && e[..5] == "input"
    ensures e != "" && !IsQuoted(e) && !LooksNumeric(e)
  {
    assert e[..6] == "input.";
    assert e[0] == 'i' && e[5] == '.';
    assert e[..5] == "input" && '.' !in "input";
    var dot := IndexOfDot(e).value;
    assert Unsigned(e)[0] == 'i';
  }

  lemma InputBeforeDot(e: string, dot: nat)
    requires dot < |e| && e[dot] == '.' && e[..dot] == "input"
    ensures HasPrefix(e, "input.")
  {
  }

  /** Exactly the expressions with a supplied path read the input, and they read it there. */
  lemma ResolveReadsInput(expr: string, src: Sources)
    ensures SuppliedPath(expr).Some? ==> Resolve(expr, src) == ResolveData("input", src.input, SuppliedPath(expr).value)
    ensures SuppliedPath(expr).None? ==> Resolve(expr, src) == Resolve(expr, src.(input := None))
    ensures HasPrefix(Trim(expr), "input.") && SuppliedPath(expr).None? ==> Resolve(expr, src) == Err(EmptyPath)
  {
    var e := Trim(expr);
    if HasPrefix(e, "input.") {
      InputPrefix(e);
      hide LooksNumeric, IndexOfDot, Trim;
    } else if IndexOfDot(e).Some? {
      var dot := IndexOfDot(e).value;
      if e[..dot] == "input" {
        InputBeforeDot(e, dot);
      }
    }
  }

  // ---------- what each source gives ----------

  lemma SourceShape(prefix: string, path: string)
    requires prefix in {"input", "route", "context", "workflow"}
    ensures var e := prefix + "." + path;
            && e != "" && !IsQuoted(e) && !LooksNumeric(e) && IndexOfDot(e) == Some(|prefix|)
            && e[..|prefix|] == prefix && e[|prefix| + 1..] == path
  {
    var e := prefix + "." + path;
    assert '.' !in prefix && e[|prefix|] == '.' && e[..|prefix|] == prefix && e[|prefix| + 1..] == path;
    assert e[0] == prefix[0] && prefix[0] in {'i', 'r', 'c', 'w'};
    hide Dots;
    var dot := IndexOfDot(e);
    assert dot.Some? && dot.value == |prefix|;
    assert Unsigned(e)[0] == e[0];
  }

  /** A trimmed expression that names a source is read at its first dot. */
  lemma ReadAtDot(prefix: string, path: string, src: Sources)
    requires prefix in {"input", "route", "context", "workflow"} && path != "" && IsTrimmed(prefix + "." + path)
    ensures Resolve(prefix + "." + path, src) ==
            match prefix
            case "input" => ResolveData("input", src.input, path)
            case "route" => ResolveRoute(src.route, path)
            case "context" => ResolveContext(src.context, path)
            case _ => ResolveData("workflow", src.workflow, path)
  {
    hide Trim, IsTrimmed, IsQuoted, LooksNumeric, IndexOfDot, ResolveData, ResolveRoute, ResolveContext;
    TrimSpec(prefix + "." + path);
    SourceShape(prefix, path);
  }

  /** The four fields of the request context, under their names, and no others. */
  lemma ContextField(name: string, src: Sources)
    requires name != "" && IsTrimmed("context." + name) && src.context.Some?
    ensures var c := src.context.value;
            Resolve("context." + name, src) ==
            if name == "subject_id" then Ok(Str(c.subject))
            else if name == "tenant_id" then Ok(Str(c.tenant))
            else if name == "partition_id" then Ok(Str(c.partition))
            else if name == "email" then Ok(Str(c.email))
            else Err(NotFound("context", name))
  {
    assert "context" + "." + name == "context." + name;
    ReadAtDot("context", name, src);
  }

  lemma RouteParameter(name: string, src: Sources)
    requires name != "" && IsTrimmed("route." + name) && src.route.Some?
    ensures Resolve("route." + name, src) ==
            if name in src.route.value then Ok(Str(src.route.value[name])) else Err(NotFound("route", name))
  {
    assert "route" + "." + name == "route." + name;
    ReadAtDot("route", name, src);
  }

  /** Input and workflow state are read alike, each from its own data; nothing there, or nil, is an error. */
  lemma DataField(path: string, src: Sources)
    requires path != ""
    ensures IsTrimmed("input." + path) && src.input.Some? ==>
              var v := Navigate(src.input.value, path);
              Resolve("input." + path, src) == if v == Null then Err(NotFound("input", path)) else Ok(v)
    ensures IsTrimmed("workflow." + path) && src.workflow.Some? ==>
              var v := Navigate(src.workflow.value, path);
              Resolve("workflow." + path, src) == if v == Null then Err(NotFound("workflow", path)) else Ok(v)
  {
    hide Navigate, Resolve;
    assert "input" + "." + path == "input." + path && "workflow" + "." + path == "workflow." + path;
    if IsTrimmed("input." + path) { ReadAtDot("input", path, src); }
    if IsTrimmed("workflow." + path) { ReadAtDot("workflow", path, src); }
  }

  /** A missing source is an error, whatever is asked of it. */
  lemma MissingSource(prefix: string, path: string, src: Sources)
    requires path != "" && IsTrimmed(prefix + "." + path)
    requires || (prefix == "input" && src.input.None?) || (prefix == "route" && src.route.None?)
             || (prefix == "context" && src.context.None?) || (prefix == "workflow" && src.workflow.None?)
    ensures Resolve(prefix + "." + path, src) == Err(NilSource(prefix))
  {
    ReadAtDot(prefix, path, src);
  }

  /** Without a dot a path names a field; with one, the part before it names an object and the rest a path in that. */
  lemma NavigateByParts(data: map<string, Json>, name: string, rest: string)
    requires '.' !in name
    ensures Navigate(data, name) == if name in data then data[name] else Null
    ensures Navigate(data, name + "." + rest) ==
            if name in data && data[name].Obj? then Navigate(data[name].fields, rest) else Null
  {
    SplitFirst(name, rest);
    assert Split(name, '.') == [name];
    assert [name][1..] == [] && [name][0] == name;
    var v := Field(Obj(data), name);
    assert Follow(v, []) == v;
    assert Follow(Obj(data), [name]) == Follow(v, [name][1..]);
    var parts := [name] + Split(rest, '.');
    assert parts[1..] == Split(rest, '.');
    assert Follow(Obj(data), parts) == Follow(v, Split(rest, '.'));
    if !v.Obj? {
      FollowNull(Split(rest, '.')[1..]);
      assert Follow(v, Split(rest, '.')) == Follow(Null, Split(rest, '.')[1..]);
    }
  }

  lemma {:induction false} SplitFirst(name: string, rest: string)
    requires '.' !in name
    ensures Split(name, '.') == [name]
    ensures Split(name + "." + rest, '.') == [name] + Split(rest, '.')
  {
    if name == "" {
      assert (name + "." + rest)[1..] == rest;
    } else {
      SplitFirst(name[1..], rest);
      assert (name + "." + rest)[1..] == name[1..] + "." + rest;
      assert [name[0]] + name[1..] == name;
    }
  }

  // ---------- trimming, spelled out ----------

  /** Blanks are the white space of Unicode. */
  lemma BlanksExactly(c: char)
    ensures IsSpace(c) <==>
            c in {'\t', '\n', 11 as char, 12 as char, '\r', ' ', 0x85 as char, 0xA0 as char, 0x1680 as char,
                  0x2000 as char, 0x2001 as char, 0x2002 as char, 0x2003 as char, 0x2004 as char, 0x2005 as char,
                  0x2006 as char, 0x2007 as char, 0x2008 as char, 0x2009 as char, 0x200A as char, 0x2028 as char,
                  0x2029 as char, 0x202F as char, 0x205F as char, 0x3000 as char}
  {
  }

  /** Blanks around an expression do not matter. */
  lemma {:induction false} TrimIgnoresBlanks(before: string, e: string, after: string, src: Sources)
    requires forall i :: 0 <= i < |before| ==> IsSpace(before[i])
    requires forall i :: 0 <= i < |after| ==> IsSpace(after[i])
    requires IsTrimmed(e) && e != ""
    ensures Trim(before + e + after) == e
    ensures Resolve(before + e + after, src) == Resolve(e, src)
  {
    hide Resolve;
    TrimLeftBlanks(before, e + after);
    assert before + e + after == before + (e + after);
    TrimRightBlanks(e, after);
    TrimSpec(e);
    ResolveTrims(before + e + after, e, src);
  }

  lemma ResolveTrims(a: string, b: string, src: Sources)
    requires Trim(a) == Trim(b)
    ensures Resolve(a, src) == Resolve(b, src)
  {
    hide Trim;
  }

  lemma {:induction false} TrimLeftBlanks(before: string, e: string)
    requires forall i :: 0 <= i < |before| ==> IsSpace(before[i])
    requires e != "" && !IsSpace(e[0])
    ensures TrimLeft(before + e) == e
  {
    if before == "" {
      assert before + e == e;
    } else {
      assert (before + e)[1..] == before[1..] + e;
      TrimLeftBlanks(before[1..], e);
    }
  }

  lemma {:induction false} TrimRightBlanks(e: string, after: string)
    requires forall i :: 0 <= i < |after| ==> IsSpace(after[i])
    requires e != "" && !IsSpace(e[|e| - 1])
    ensures TrimRight(e + after) == e
  {
    if after == "" {
      assert e + after == e;
    } else {
      assert (e + after)[..|e + after| - 1] == e + after[..|after| - 1];
      TrimRightBlanks(e, after[..|after| - 1]);
    }
  }

  // ---------- literals read back ----------

  /** A quoted literal stands for the text between the quotes, whatever it contains and whatever the sources. */
  lemma QuotedLiteral(s: string, src: Sources)
    ensures Resolve("'" + s + "'", src) == Ok(Str(s))
  {
    var e := "'" + s + "'";
    TrimSpec(e);
    assert e[1..|e| - 1] == s;
  }

  lemma {:induction false} NatTextReads(n: nat)
    ensures Digits(NatText(n)) == n
    ensures Dots(NatText(n)) == 0
  {
    var s := NatText(n);
    if n >= 10 {
      NatTextReads(n / 10);
      DotsConcat(NatText(n / 10), [Digit(n % 10)]);
      assert s[..|s| - 1] == NatText(n / 10);
    }
    assert [Digit(n % 10)][1..] == "";
  }

  lemma NumeralChar(c: char)
    requires IsDigit(c) || c == '-'
    ensures !IsSpace(c) && c != '.' && c != '\'' && (IsSign(c) <==> c == '-') && (IsDigit(c) ==> c != '-')
  {
  }

  lemma SignedNumeral(digits: string, e: string)
    requires digits != "" && Dots(digits) == 0 && forall i :: 0 <= i < |digits| ==> IsDigit(digits[i])
    requires e == digits || e == "-" + digits
    ensures e != "" && IsTrimmed(e) && !IsQuoted(e) && '.' !in e
    ensures Unsigned(e) == digits && LooksNumeric(e)
    ensures IsSign(e[0]) <==> e != digits
  {
    hide Dots, IsSpace, IsDigit, IsSign;
    forall i | 0 <= i < |digits|
      ensures !IsSpace(digits[i]) && digits[i] != '.' && digits[i] != '\'' && !IsSign(digits[i])
    {
      NumeralChar(digits[i]);
    }
    NumeralChar('-');
    if e != digits {
      assert e[1..] == digits;
      assert forall i :: 1 <= i < |e| ==> e[i] == digits[i - 1];
    }
  }

  lemma IntTextReads(n: int)
    ensures var e := IntText(n);
            && e != "" && IsTrimmed(e) && !IsQuoted(e) && LooksNumeric(e) && '.' !in e
            && Digits(Unsigned(e)) == (if n < 0 then -n else n) && (e[0] == '-' <==> n < 0)
  {
    var digits := NatText(if n < 0 then -n else n);
    NatTextReads(if n < 0 then -n else n);
    hide NatText, Digits, LooksNumeric, Dots;
    SignedNumeral(digits, IntText(n));
  }

  /** A decimal literal of any 64-bit integer resolves to that integer. */
  lemma IntegerLiteral(n: int, src: Sources)
    requires -0x8000_0000_0000_0000 <= n <= 0x7FFF_FFFF_FFFF_FFFF
    ensures Resolve(IntText(n), src) == Ok(Int(n))
  {
    IntTextReads(n);
    TrimSpec(IntText(n));
    hide IntText, Trim, Digits, LooksNumeric;
  }

  // ---------- the range of float literals ----------

  function TenTo(n: nat): (r: nat)
    ensures r >= 1
  {
    if n == 0 then 1 else 10 * TenTo(n - 1)
  }

  lemma {:induction false} TwoToSum(a: nat, b: nat)
    ensures TwoTo(a + b) == TwoTo(a) * TwoTo(b)
  {
    if a > 0 { TwoToSum(a - 1, b); }
  }

  lemma {:induction false} TenToGrows(a: nat, b: nat)
    requires a <= b
    ensures TenTo(a) <= TenTo(b)
  {
    if a < b { TenToGrows(a, b - 1); }
  }

  lemma {:induction false} ThreeTensBelowTenTwos(k: nat)
    ensures TenTo(3 * k) <= TwoTo(10 * k)
  {
    if k > 0 {
      var t, u := 3 * (k - 1), 10 * (k - 1);
      ThreeTensBelowTenTwos(k - 1);
      assert TenTo(t + 3) == 1000 * TenTo(t) by { assert TenTo(t + 2) == 100 * TenTo(t); }
      TwoToSum(10, u);
      assert TwoTo(10) == 1024 by { TwoToSum(5, 5); }
    }
  }

  lemma {:induction false} FourTensAboveThirteenTwos(k: nat)
    ensures TenTo(4 * k) >= TwoTo(13 * k)
  {
    if k > 0 {
      var t, u := 4 * (k - 1), 13 * (k - 1);
      FourTensAboveThirteenTwos(k - 1);
      assert TenTo(t + 4) == 10_000 * TenTo(t) by { assert TenTo(t + 2) == 100 * TenTo(t); }
      TwoToSum(13, u);
      assert TwoTo(13) == 8192 by { TwoToSum(6, 7); }
    }
  }

  lemma TimesBetween(t: nat, a: nat, b: nat)
    requires t >= 1 && a >= 1 && b == 16 * a
    ensures t * a < t * (b - 1) < t * (8 * b)
  {
    assert t * a < t * (b - 1) by { assert t * (b - 1 - a) > 0; }
    assert t * (b - 1) < t * (8 * b) by { assert t * (7 * b + 1) > 0; }
  }

  lemma SmallPowers()
    ensures TwoTo(3) == 8 && TwoTo(4) == 16
  {
  }

  lemma FloatLimitBounds()
    ensures TenTo(306) < FLOAT_LIMIT < TenTo(316)
  {
    hide TwoTo, TenTo;
    SmallPowers();
    ThreeTensBelowTenTwos(102);
    FourTensAboveThirteenTwos(79);
    TwoToSum(970, 50);
    TwoToSum(970, 57);
    TwoToSum(4, 50);
    TwoToSum(3, 54);
    TimesBetween(TwoTo(970), TwoTo(50), TwoTo(54));
  }

  lemma {:induction false} DigitsSize(s: string)
    requires forall i :: 0 <= i < |s| ==> IsDigit(s[i])
    ensures Digits(s) < TenTo(|s|)
    ensures s != "" && s[0] != '0' ==> Digits(s) >= TenTo(|s| - 1)
  {
    if s != "" { DigitsSize(s[..|s| - 1]); }
  }

  lemma DecimalShape(whole: string, fraction: string)
    requires whole + fraction != ""
    requires forall i :: 0 <= i < |whole + fraction| ==> IsDigit((whole + fraction)[i])
    ensures var e := whole + "." + fraction;
            && IsTrimmed(e) && !IsQuoted(e) && LooksNumeric(e) && '.' in e && WholePart(e) == whole
            && exists i :: 0 <= i < |e| && IsDigit(e[i])
  {
    var e := whole + "." + fraction;
    forall i | 0 <= i < |whole| ensures IsDigit(whole[i]) { assert (whole + fraction)[i] == whole[i]; }
    forall i | 0 <= i < |fraction| ensures IsDigit(fraction[i]) {
      assert (whole + fraction)[|whole| + i] == fraction[i];
    }
    assert Unsigned(e) == e;
    NoDots(whole);
    NoDots(fraction);
    DotsConcat(whole, "." + fraction);
    DotsConcat(".", fraction);
    assert e == whole + ("." + fraction);
    FirstDot(whole, fraction);
    if whole != "" { assert IsDigit(e[0]); } else { assert IsDigit(e[1]); }
  }

  lemma {:induction false} NoDots(s: string)
    requires forall i :: 0 <= i < |s| ==> IsDigit(s[i])
    ensures Dots(s) == 0
  {
    if s != "" { NoDots(s[1..]); }
  }

  lemma FirstDot(whole: string, fraction: string)
    requires '.' !in whole
    ensures IndexOfDot(whole + "." + fraction) == Some(|whole|)
    ensures (whole + "." + fraction)[..|whole|] == whole
  {
    var e := whole + "." + fraction;
    var dot := IndexOfDot(e);
    assert e[|whole|] == '.';
    assert dot.Some?;
  }

  /**
   * A decimal literal is accepted exactly when its whole part is below the limit of 64-bit floats: always with at
   * most 306 digits before the dot, never with 317 or more and no leading zero.
   */
  lemma FloatLiteral(whole: string, fraction: string, src: Sources)
    requires whole + fraction != ""
    requires forall i :: 0 <= i < |whole + fraction| ==> IsDigit((whole + fraction)[i])
    ensures var e := whole + "." + fraction;
            && Resolve(e, src) == (if Digits(whole) < FLOAT_LIMIT then Ok(Float(e)) else Err(BadNumber(e)))
            && (|whole| <= 306 ==> Resolve(e, src) == Ok(Float(e)))
            && (|whole| >= 317 && whole[0] != '0' ==> Resolve(e, src) == Err(BadNumber(e)))
  {
    hide LooksNumeric, IsQuoted, WholePart, Digits, TwoTo, TenTo, IsTrimmed, Trim, IndexOfDot, IsDigit;
    DecimalShape(whole, fraction);
    TrimSpec(whole + "." + fraction);
    forall i | 0 <= i < |whole| ensures IsDigit(whole[i]) { assert (whole + fraction)[i] == whole[i]; }
    DigitsSize(whole);
    FloatLimitBounds();
    if |whole| <= 306 { TenToGrows(|whole|, 306); }
    if |whole| >= 317 { TenToGrows(316, |whole| - 1); }
  }

  // ---------- paths read back ----------

  predicate AllDigits(s: string) {
    forall i :: 0 <= i < |s| ==> '0' <= s[i] <= '9'
  }

  lemma {:induction false} NoDotsInside(s: string)
    ensures Dots(s) == 0 <==> '.' !in s
  {
    if s != "" {
      NoDotsInside(s[1..]);
      assert s == [s[0]] + s[1..];
    }
  }

  lemma DotsAround(a: string, b: string)
    ensures Dots(a + "." + b) == Dots(a) + 1 + Dots(b)
  {
    DotsConcat(a, "." + b);
    DotsConcat(".", b);
    assert a + ("." + b) == a + "." + b;
    assert Dots(".") == 1;
  }

  /** Digits with at most one dot among them, and at least one character. */
  predicate Decimal(a: string, b: string, body: string) {
    AllDigits(a) && AllDigits(b) && ((a != "" && b == "" && body == a) || body == a + "." + b)
  }

  lemma NumeralShape(body: string)
    ensures IsNumeral(body) <==> exists a, b :: Decimal(a, b, body)
  {
    hide Dots;
    if IsNumeral(body) {
      match IndexOfDot(body)
      case None =>
        assert Decimal(body, "", body);
      case Some(dot) =>
        var a, b := body[..dot], body[dot + 1..];
        assert body == a + "." + b;
        DotsAround(a, b);
        NoDotsInside(b);
        assert forall i :: 0 <= i < |a| ==> a[i] == body[i];
        assert forall i :: 0 <= i < |b| ==> b[i] == body[dot + 1 + i] && b[i] != '.';
        assert Decimal(a, b, body);
    }
    if a, b :| Decimal(a, b, body) {
      NoDotsInside(a);
      NoDotsInside(b);
      DotsAround(a, b);
    }
  }

  /** A numeric literal is an optional sign and then digits, with at most one dot among them. */
  lemma NumericShape(s: string)
    ensures LooksNumeric(s) <==>
            exists sign, a, b, body :: s == sign + body && sign in {"", "+", "-"} && Decimal(a, b, body)
  {
    hide IsNumeral, Decimal;
    NumeralShape(Unsigned(s));
    if LooksNumeric(s) {
      var sign := if s != "" && IsSign(s[0]) then [s[0]] else "";
      var a, b :| Decimal(a, b, Unsigned(s));
      assert s == sign + Unsigned(s) && sign in {"", "+", "-"};
    }
    if sign, a, b, body :| s == sign + body && sign in {"", "+", "-"} && Decimal(a, b, body) {
      DecimalStart(a, b, body);
      assert Unsigned(s) == body;
    }
  }

  lemma DecimalStart(a: string, b: string, body: string)
    requires Decimal(a, b, body)
    ensures body != "" && !IsSign(body[0])
  {
    if a == "" { assert body[0] == '.'; } else { assert body[0] == a[0]; }
  }

  /** An integer that does not fit 64 bits is refused, and a plus sign changes nothing. */
  lemma IntegerRange(n: int, src: Sources)
    ensures Resolve(IntText(n), src) ==
            if -0x8000_0000_0000_0000 <= n <= 0x7FFF_FFFF_FFFF_FFFF then Ok(Int(n)) else Err(BadNumber(IntText(n)))
  {
    IntTextReads(n);
    TrimSpec(IntText(n));
    hide IntText, Trim, Digits, LooksNumeric;
  }

  /** Splitting a path loses nothing and leaves no separator inside a part. */
  lemma {:induction false} SplitReadsBack(s: string, sep: char)
    ensures Join(Split(s, sep), [sep]) == s
    ensures forall part :: part in Split(s, sep) ==> sep !in part
  {
    if s != "" {
      SplitReadsBack(s[1..], sep);
      var rest := Split(s[1..], sep);
      var parts := Split(s, sep);
      assert s == [s[0]] + s[1..];
      if s[0] == sep {
        assert parts[1..] == rest;
      } else {
        assert parts[1..] == rest[1..];
        assert rest == [rest[0]] + rest[1..];
      }
    }
  }
}
