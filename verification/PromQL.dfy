// A reference reading of PromQL: syntax trees for the fragment the compiler
// emits, a token parser for it, and an evaluator over a store of labelled series.
module PromQL {
  import opened Wrappers
  import opened PromLex
  import PartitionRegex

  // ---------- syntax ----------

  datatype Matcher = Eq(name: string, value: string) | Re(name: string, value: string)

  datatype Expr =
    | Num(text: string)
    | Select(metric: string, matchers: seq<Matcher>)
    | Range(metric: string, matchers: seq<Matcher>, window: string)
    | Call(fn: string, arg: Expr)
    | Aggr(op: string, grouping: Option<string>, arg: Expr)
    | TopK(k: string, arg: Expr)
    | Bin(sign: char, left: Expr, right: Expr)

  /**
   * Words a backend's grammar keeps for itself where a metric or a grouping label is expected, such as inf or on, and
   * characters its lexer refuses inside a string, such as U+FFFD.
   */
  datatype Dialect = Dialect(reservedMetric: string -> bool, reservedLabel: string -> bool, unreadable: char -> bool)

  /** ASCII is always readable. */
  predicate Readable(dialect: Dialect, s: string) {
    forall c :: c in s && c as int >= 128 ==> !dialect.unreadable(c)
  }

  datatype Kind = Constant | Instant | Ranged

  function KindOf(e: Expr): Kind {
    match e
    case Num(_) => Constant
    case Range(_, _, _) => Ranged
    case Bin(_, l, r) => if KindOf(l).Constant? && KindOf(r).Constant? then Constant else Instant
    case _ => Instant
  }

  // ---------- static checks ----------

  predicate IsAggregator(n: string) {
    n == "sum" || n == "avg" || n == "count"
  }

  predicate IsRangeFunction(n: string) {
    n == "rate" || n == "increase"
  }

  predicate RejectsEmpty(m: Matcher) {
    match m
    case Eq(_, v) => v != ""
    case Re(_, v) => !PartitionRegex.Accepts(v, "")
  }

  /** A metric name may not be given twice, and without one some matcher must reject the empty string. */
  predicate LegalSelector(dialect: Dialect, metric: string, ms: seq<Matcher>) {
    if metric == "" then exists m :: m in ms && RejectsEmpty(m)
    else !dialect.reservedMetric(metric) && forall m :: m in ms ==> m.name != "__name__"
  }

  // ---------- parser ----------

  datatype Parsed<+T> = Fail | Done(value: T, rest: Toks)

  /** Matchers up to and including the closing brace. */
  function ParseMatchers(dialect: Dialect, t: Toks): (r: Parsed<seq<Matcher>>)
    ensures r.Done? ==> r.rest < t
  {
    match t
    case Cons(Sym('}'), rest) => Done([], rest)
    case Cons(Ident(n), Cons(op, Cons(Str(v), tail))) =>
      if (op != Sym('=') && op != MatchesOp) || !Readable(dialect, v) then Fail
      else
        var m := if op == MatchesOp then Re(n, v) else Eq(n, v);
        (match tail
         case Cons(Sym('}'), rest) => Done([m], rest)
         case Cons(Sym(','), more) =>
           (match ParseMatchers(dialect, more)
            case Done(ms, rest) => Done([m] + ms, rest)
            case Fail => Fail)
         case _ => Fail)
    case _ => Fail
  }

  /** A matcher list standing alone, as between the braces of a selector. */
  function ParseMatcherList(dialect: Dialect, s: string): Option<seq<Matcher>> {
    match ParseMatchers(dialect, Lex(s + "}"))
    case Done(ms, Nil) => Some(ms)
    case _ => None
  }

  function ParseSelector(dialect: Dialect, metric: string, t: Toks): (r: Parsed<Expr>)
    ensures r.Done? ==> r.rest < t
  {
    match ParseMatchers(dialect, t)
    case Fail => Fail
    case Done(ms, rest) =>
      if !LegalSelector(dialect, metric, ms) then Fail
      else
        match rest
        case Cons(Sym('['), Cons(Number(d), Cons(Sym(']'), after))) => Done(Range(metric, ms, d), after)
        case _ => Done(Select(metric, ms), rest)
  }

  /** An expression followed by a closing parenthesis, which is consumed. */
  function ParseClosed(dialect: Dialect, t: Toks): (r: Parsed<Expr>)
    ensures r.Done? ==> r.rest < t
    decreases t, 2
  {
    match ParseExpr(dialect, t)
    case Done(e, Cons(Sym(')'), rest)) => Done(e, rest)
    case _ => Fail
  }

  function ParsePrimary(dialect: Dialect, t: Toks): (r: Parsed<Expr>)
    ensures r.Done? ==> r.rest < t
    decreases t, 0
  {
    match t
    case Cons(Number(n), rest) => Done(Num(n), rest)
    case Cons(Sym('('), inner) => ParseClosed(dialect, inner)
    case Cons(Sym('{'), ms) => ParseSelector(dialect, "", ms)
    case Cons(Ident(n), Cons(Sym('{'), ms)) => ParseSelector(dialect, n, ms)
    case Cons(Ident(n), Cons(Sym('('), inner)) => ParseApplied(dialect, n, inner)
    case Cons(Ident(n), Cons(Ident(kw), Cons(Sym('('), Cons(Ident(g), Cons(Sym(')'), Cons(Sym('('), inner)))))) =>
      if !IsAggregator(n) || kw != "by" || dialect.reservedLabel(g) then Fail
      else (match ParseClosed(dialect, inner)
            case Done(e, rest) => if KindOf(e).Instant? then Done(Aggr(n, Some(g), e), rest) else Fail
            case Fail => Fail)
    case _ => Fail
  }

  /** n "(" has been read. */
  function ParseApplied(dialect: Dialect, n: string, t: Toks): (r: Parsed<Expr>)
    ensures r.Done? ==> r.rest < t
    decreases t, 3
  {
    if n == "topk" then
      match t
      case Cons(Number(k), Cons(Sym(','), inner)) =>
        (match ParseClosed(dialect, inner)
         case Done(e, rest) => if KindOf(e).Instant? then Done(TopK(k, e), rest) else Fail
         case Fail => Fail)
      case _ => Fail
    else
      match ParseClosed(dialect, t)
      case Fail => Fail
      case Done(e, rest) =>
        if IsAggregator(n) && KindOf(e).Instant? then Done(Aggr(n, None, e), rest)
        else if IsRangeFunction(n) && KindOf(e).Ranged? then Done(Call(n, e), rest)
        else Fail
  }

  function ParseExpr(dialect: Dialect, t: Toks): (r: Parsed<Expr>)
    ensures r.Done? ==> r.rest < t
    decreases t, 1
  {
    match ParsePrimary(dialect, t)
    case Fail => Fail
    case Done(e, rest) => ParseOps(dialect, e, rest)
  }

  /** '*' and '/' bind equally tightly and to the left, and take no range as operand. */
  function ParseOps(dialect: Dialect, left: Expr, t: Toks): (r: Parsed<Expr>)
    ensures r.Done? ==> (r.rest == t || r.rest < t)
    decreases t, 0
  {
    match t
    case Cons(Sym(op), more) =>
      if op != '/' && op != '*' then Done(left, t)
      else (match ParsePrimary(dialect, more)
            case Fail => Fail
            case Done(right, rest) =>
              if KindOf(left).Ranged? || KindOf(right).Ranged? then Fail
              else ParseOps(dialect, Bin(op, left, right), rest))
    case _ => Done(left, t)
  }

  /** The meaning of a query text: its tree, or None when it is not well formed. */
  function ParseText(dialect: Dialect, s: string): Option<Expr> {
    match ParseExpr(dialect, Lex(s))
    case Done(e, Nil) => Some(e)
    case _ => None
  }

  // ---------- evaluation ----------

  datatype Series = Series(labels: map<string, string>, samples: seq<(int, real)>)

  /** A missing label reads as the empty string. */
  function Label(s: Series, name: string): string {
    if name in s.labels then s.labels[name] else ""
  }

  predicate Satisfies(s: Series, m: Matcher) {
    match m
    case Eq(n, v) => Label(s, n) == v
    case Re(n, v) => PartitionRegex.Accepts(v, Label(s, n))
  }

  predicate SatisfiesAll(s: Series, ms: seq<Matcher>) {
    forall m :: m in ms ==> Satisfies(s, m)
  }

  /** Whether a selector picks a series. */
  predicate Picks(metric: string, ms: seq<Matcher>, s: Series) {
    (metric == "" || Label(s, "__name__") == metric) && SatisfiesAll(s, ms)
  }

  function Selected(metric: string, ms: seq<Matcher>, store: set<Series>): set<Series> {
    set s | s in store && Picks(metric, ms, s)
  }

  /** What the operators compute from selected series; results hold for every such choice. */
  datatype Operators<!V> = Operators(
    number: string -> V,
    instant: set<Series> -> V,
    window: (string, set<Series>) -> V,
    call: (string, V) -> V,
    aggr: (string, Option<string>, V) -> V,
    topk: (string, V) -> V,
    bin: (char, V, V) -> V)

  function Eval<V>(e: Expr, ops: Operators<V>, store: set<Series>): V {
    match e
    case Num(t) => ops.number(t)
    case Select(m, ms) => ops.instant(Selected(m, ms, store))
    case Range(m, ms, w) => ops.window(w, Selected(m, ms, store))
    case Call(fn, a) => ops.call(fn, Eval(a, ops, store))
    case Aggr(op, g, a) => ops.aggr(op, g, Eval(a, ops, store))
    case TopK(k, a) => ops.topk(k, Eval(a, ops, store))
    case Bin(op, l, r) => ops.bin(op, Eval(l, ops, store), Eval(r, ops, store))
  }

  function MetricNames(e: Expr): set<string> {
    match e
    case Num(_) => {}
    case Select(m, _) => {m}
    case Range(m, _, _) => {m}
    case Call(_, a) => MetricNames(a)
    case Aggr(_, _, a) => MetricNames(a)
    case TopK(_, a) => MetricNames(a)
    case Bin(_, l, r) => MetricNames(l) + MetricNames(r)
  }

  /** Every selector of e starts with the given matchers. */
  predicate EverySelectorCarries(e: Expr, scope: seq<Matcher>) {
    match e
    case Num(_) => true
    case Select(_, ms) => scope <= ms
    case Range(_, ms, _) => scope <= ms
    case Call(_, a) => EverySelectorCarries(a, scope)
    case Aggr(_, _, a) => EverySelectorCarries(a, scope)
    case TopK(_, a) => EverySelectorCarries(a, scope)
    case Bin(_, l, r) => EverySelectorCarries(l, scope) && EverySelectorCarries(r, scope)
  }

  /** Some selector of e picks s. */
  predicate Reads(e: Expr, s: Series) {
    match e
    case Num(_) => false
    case Select(m, ms) => Picks(m, ms, s)
    case Range(m, ms, _) => Picks(m, ms, s)
    case Call(_, a) => Reads(a, s)
    case Aggr(_, _, a) => Reads(a, s)
    case TopK(_, a) => Reads(a, s)
    case Bin(_, l, r) => Reads(l, s) || Reads(r, s)
  }

  /** The value of an expression depends on no series it does not read. */
  lemma {:induction false} EvalDependsOnReads<V>(e: Expr, ops: Operators<V>, a: set<Series>, b: set<Series>)
    requires forall s :: Reads(e, s) ==> (s in a <==> s in b)
    ensures Eval(e, ops, a) == Eval(e, ops, b)
  {
    match e
    case Num(_) =>
    case Select(m, ms) => SelectedAlike(e, m, ms, a, b);
    case Range(m, ms, _) => SelectedAlike(e, m, ms, a, b);
    case Call(_, x) =>
      assert forall s :: Reads(x, s) ==> Reads(e, s);
      EvalDependsOnReads(x, ops, a, b);
    case Aggr(_, _, x) =>
      assert forall s :: Reads(x, s) ==> Reads(e, s);
      EvalDependsOnReads(x, ops, a, b);
    case TopK(_, x) =>
      assert forall s :: Reads(x, s) ==> Reads(e, s);
      EvalDependsOnReads(x, ops, a, b);
    case Bin(_, l, r) =>
      assert forall s :: Reads(l, s) || Reads(r, s) ==> Reads(e, s);
      EvalDependsOnReads(l, ops, a, b);
      EvalDependsOnReads(r, ops, a, b);
  }

  lemma SelectedAlike(e: Expr, metric: string, ms: seq<Matcher>, a: set<Series>, b: set<Series>)
    requires forall s :: Reads(e, s) <==> Picks(metric, ms, s)
    requires forall s :: Reads(e, s) ==> (s in a <==> s in b)
    ensures Selected(metric, ms, a) == Selected(metric, ms, b)
  {
  }

  /** Operators that pass on every series they are given. */
  function Echo(): Operators<set<Series>> {
    Operators(_ => {}, picked => picked, (_, picked) => picked, (_, v) => v, (_, _, v) => v, (_, v) => v,
              (_, l, r) => l + r)
  }

  /** And on each series it does read, the value can depend. */
  lemma {:induction false} EchoShowsReads(e: Expr, store: set<Series>)
    ensures Eval(e, Echo(), store) == set s | s in store && Reads(e, s)
  {
    match e
    case Num(_) =>
    case Select(_, _) =>
    case Range(_, _, _) =>
    case Call(_, x) => EchoShowsReads(x, store);
    case Aggr(_, _, x) => EchoShowsReads(x, store);
    case TopK(_, x) => EchoShowsReads(x, store);
    case Bin(_, l, r) =>
      EchoShowsReads(l, store);
      EchoShowsReads(r, store);
  }

  /** What an expression reads satisfies the matchers all its selectors carry. */
  lemma {:induction false} ReadsWithinScope(e: Expr, scope: seq<Matcher>, s: Series)
    requires EverySelectorCarries(e, scope) && Reads(e, s)
    ensures SatisfiesAll(s, scope)
  {
    match e
    case Select(_, _) =>
    case Range(_, _, _) =>
    case Call(_, x) => ReadsWithinScope(x, scope, s);
    case Aggr(_, _, x) => ReadsWithinScope(x, scope, s);
    case TopK(_, x) => ReadsWithinScope(x, scope, s);
    case Bin(_, l, r) => if Reads(l, s) { ReadsWithinScope(l, scope, s); } else { ReadsWithinScope(r, scope, s); }
  }

  /** When every selector names a metric, whatever is read bears one of the names. */
  lemma {:induction false} ReadsBearName(e: Expr, s: Series)
    requires "" !in MetricNames(e) && Reads(e, s)
    ensures Label(s, "__name__") in MetricNames(e)
  {
    match e
    case Select(_, _) =>
    case Range(_, _, _) =>
    case Call(_, x) => ReadsBearName(x, s);
    case Aggr(_, _, x) => ReadsBearName(x, s);
    case TopK(_, x) => ReadsBearName(x, s);
    case Bin(_, l, r) => if Reads(l, s) { ReadsBearName(l, s); } else { ReadsBearName(r, s); }
  }
}
