// What the generated text means: it parses to the intended tree, and the tree
// never looks outside the tenant scope.
module QueryMeaning {
  import opened Wrappers
  import opened Text
  import opened PromLex
  import opened Query
  import opened PromQL
  import opened Compiler

  // ---------- tokens of the text builders ----------

  predicate LabelNames(ms: seq<Matcher>) {
    forall m :: m in ms ==> m.name == "" || IsName(m.name, IsLabelChar)
  }

  predicate NamesPresent(ms: seq<Matcher>) {
    forall m :: m in ms ==> m.name != ""
  }

  function Named(name: string, k: Toks): Toks {
    if name == "" then k else Cons(Ident(name), k)
  }

  function MatcherToks(m: Matcher, k: Toks): Toks {
    Named(m.name, Cons(if m.Re? then MatchesOp else Sym('='), Cons(Str(m.value), k)))
  }

  function MatchersToks(ms: seq<Matcher>, k: Toks): Toks {
    if ms == [] then k
    else if |ms| == 1 then MatcherToks(ms[0], k)
    else MatcherToks(ms[0], Cons(Sym(','), MatchersToks(ms[1..], k)))
  }

  function SelectorToks(metric: string, ms: seq<Matcher>, k: Toks): Toks {
    Named(metric, Cons(Sym('{'), MatchersToks(ms, Cons(Sym('}'), k))))
  }

  function RangeToks(fn: string, metric: string, ms: seq<Matcher>, w: string, k: Toks): Toks {
    Cons(Ident(fn), Cons(Sym('('), SelectorToks(metric, ms,
      Cons(Sym('['), Cons(Number(w), Cons(Sym(']'), Cons(Sym(')'), k)))))))
  }

  function GroupToks(op: string, groupBy: string, inner: Toks): Toks {
    if groupBy == "" then Cons(Ident(op), Cons(Sym('('), inner))
    else Cons(Ident(op), Cons(Ident("by"), Cons(Sym('('), Cons(Ident(groupBy), Cons(Sym(')'), Cons(Sym('('), inner))))))
  }

  // ---------- lexing the builders' output ----------

  lemma LexNamed(name: string, k: string)
    requires name == "" || IsName(name, IsMetricChar)
    requires Break(k)
    ensures Lex(name + k) == Named(name, Lex(k))
  {
    hide Lex;
    if name == "" { assert name + k == k; } else { LexIdent(name, k); }
  }

  lemma MatcherShape(m: Matcher, k: string)
    ensures MatcherText(m) + k ==
            m.name + ((if m.Re? then "=~" else ['=']) + ("\"" + EscapeLabelValue(m.value) + "\"" + k))
  {
  }

  lemma LexMatcher(m: Matcher, k: string)
    requires m.name == "" || IsName(m.name, IsLabelChar)
    ensures Lex(MatcherText(m) + k) == MatcherToks(m, Lex(k))
  {
    hide Lex, EscapeLabelValue, MatcherText;
    var lit := "\"" + EscapeLabelValue(m.value) + "\"" + k;
    MatcherShape(m, k);
    LexStr(m.value, k);
    if m.Eq? {
      LexSym('=', lit);
      LexNamed(m.name, ['='] + lit);
    } else {
      LexMatches(lit);
      LexNamed(m.name, "=~" + lit);
    }
  }

  lemma {:induction false} LexMatchers(ms: seq<Matcher>, k: string)
    requires LabelNames(ms)
    ensures Lex(Join(Texts(ms), ",") + k) == MatchersToks(ms, Lex(k))
  {
    hide Lex, MatcherText, MatcherToks, IsName;
    if ms == [] {
      assert Join(Texts(ms), ",") + k == k;
    } else if |ms| == 1 {
      LexMatcher(ms[0], k);
    } else {
      var tail := Join(Texts(ms[1..]), ",") + k;
      LexMatchers(ms[1..], k);
      LexSym(',', tail);
      LexMatcher(ms[0], [','] + tail);
      JoinShape(ms, k);
    }
  }

  lemma JoinShape(ms: seq<Matcher>, k: string)
    requires |ms| > 1
    ensures Join(Texts(ms), ",") + k == MatcherText(ms[0]) + ([','] + (Join(Texts(ms[1..]), ",") + k))
  {
    hide MatcherText;
    assert Texts(ms)[1..] == Texts(ms[1..]);
  }

  lemma LexSelector(metric: string, ms: seq<Matcher>, k: string)
    requires metric == "" || IsName(metric, IsMetricChar)
    requires LabelNames(ms)
    ensures Lex(SelectorText(metric, Join(Texts(ms), ",")) + k) == SelectorToks(metric, ms, Lex(k))
  {
    hide Lex;
    var labels := Join(Texts(ms), ",");
    assert SelectorText(metric, labels) + k == metric + (['{'] + (labels + (['}'] + k)));
    LexSym('}', k);
    LexMatchers(ms, ['}'] + k);
    LexSym('{', labels + (['}'] + k));
    LexNamed(metric, ['{'] + (labels + (['}'] + k)));
  }

  /** A word directly followed by an opening parenthesis. */
  lemma LexOpen(word: string, k: string)
    requires IsName(word, IsMetricChar)
    ensures Lex(word + "(" + k) == Cons(Ident(word), Cons(Sym('('), Lex(k)))
  {
    hide Lex;
    assert word + "(" + k == word + (['('] + k);
    LexSym('(', k);
    LexIdent(word, ['('] + k);
  }

  lemma LexRange(fn: string, metric: string, ms: seq<Matcher>, w: string, k: string)
    requires IsName(fn, IsMetricChar)
    requires metric == "" || IsName(metric, IsMetricChar)
    requires LabelNames(ms) && IsNumberText(w)
    ensures Lex(RangeText(fn, SelectorText(metric, Join(Texts(ms), ",")), w) + k)
         == RangeToks(fn, metric, ms, w, Lex(k))
  {
    hide Lex;
    var sel := SelectorText(metric, Join(Texts(ms), ","));
    var close := [']'] + ([')'] + k);
    assert RangeText(fn, sel, w) + k == fn + "(" + (sel + (['['] + (w + close)));
    LexOpen(fn, sel + (['['] + (w + close)));
    LexSelector(metric, ms, ['['] + (w + close));
    LexSym('[', w + close);
    LexNumber(w, close);
    LexSym(']', [')'] + k);
    LexSym(')', k);
  }

  lemma LexGroup(op: string, groupBy: string, inner: string, k: string)
    requires IsName(op, IsMetricChar)
    requires groupBy == "" || IsName(groupBy, IsLabelChar)
    ensures Lex(GroupText(op, groupBy, inner) + k) == GroupToks(op, groupBy, Lex(inner + ([')'] + k)))
  {
    hide Lex;
    var rest := inner + ([')'] + k);
    if groupBy == "" {
      assert GroupText(op, groupBy, inner) + k == op + "(" + rest;
      LexOpen(op, rest);
    } else {
      var t1 := [')'] + (" " + (['('] + rest));
      var t2 := ['('] + (groupBy + t1);
      assert GroupText(op, groupBy, inner) + k == op + (" " + ("by" + (" " + t2)));
      LexSym('(', rest);
      LexSpace(['('] + rest);
      LexSym(')', " " + (['('] + rest));
      LexIdent(groupBy, t1);
      LexSym('(', groupBy + t1);
      LexSpace(t2);
      LexIdent("by", " " + t2);
      LexSpace("by" + (" " + t2));
      LexIdent(op, " " + ("by" + (" " + t2)));
    }
  }

  // ---------- parsing the tokens ----------

  /** Every matcher has a name and a value the backend's lexer takes. */
  predicate Printable(dialect: Dialect, ms: seq<Matcher>) {
    NamesPresent(ms) && forall m :: m in ms ==> Readable(dialect, m.value)
  }

  lemma PrintableCons(dialect: Dialect, ms: seq<Matcher>)
    requires ms != []
    ensures Printable(dialect, ms) <==>
            ms[0].name != "" && Readable(dialect, ms[0].value) && Printable(dialect, ms[1..])
  {
    hide Readable;
    assert ms == [ms[0]] + ms[1..];
  }

  lemma {:induction false} ParseMatchersToks(dialect: Dialect, ms: seq<Matcher>, k: Toks)
    ensures ParseMatchers(dialect, MatchersToks(ms, Cons(Sym('}'), k)))
         == if Printable(dialect, ms) then Done(ms, k) else Fail
  {
    if ms != [] {
      PrintableCons(dialect, ms);
      hide Printable, Readable;
      if |ms| == 1 {
        assert ms == [ms[0]];
        assert Printable(dialect, ms[1..]) by { NothingPrintable(dialect); }
      } else {
        ParseMatchersToks(dialect, ms[1..], k);
        assert ms == [ms[0]] + ms[1..];
      }
    }
  }

  lemma NothingPrintable(dialect: Dialect)
    ensures Printable(dialect, [])
  {
  }

  predicate Legal(dialect: Dialect, metric: string, ms: seq<Matcher>) {
    Printable(dialect, ms) && LegalSelector(dialect, metric, ms)
  }

  lemma ParseSelectorToks(dialect: Dialect, metric: string, ms: seq<Matcher>, k: Toks)
    requires !(k.Cons? && k.head == Sym('['))
    ensures ParsePrimary(dialect, SelectorToks(metric, ms, k))
         == if Legal(dialect, metric, ms) then Done(Select(metric, ms), k) else Fail
  {
    hide LegalSelector;
    ParseMatchersToks(dialect, ms, k);
  }

  predicate NoOperator(k: Toks) {
    k.Cons? ==> k.head != Sym('/') && k.head != Sym('*')
  }

  /** A primary followed by a closing parenthesis is a closed expression. */
  lemma ParseClosedPrimary(dialect: Dialect, t: Toks, e: Parsed<Expr>, k: Toks)
    requires ParsePrimary(dialect, t) == e
    requires e.Done? ==> e.rest == Cons(Sym(')'), k)
    ensures ParseClosed(dialect, t) == if e.Done? then Done(e.value, k) else Fail
  {
    if e.Done? {
      assert ParseOps(dialect, e.value, e.rest) == Done(e.value, e.rest);
    }
  }

  lemma ParseRangeToks(dialect: Dialect, fn: string, metric: string, ms: seq<Matcher>, w: string, k: Toks)
    requires IsRangeFunction(fn)
    ensures ParsePrimary(dialect, RangeToks(fn, metric, ms, w, k))
         == if Legal(dialect, metric, ms) then Done(Call(fn, Range(metric, ms, w)), k) else Fail
  {
    hide LegalSelector;
    var tail := Cons(Sym('['), Cons(Number(w), Cons(Sym(']'), Cons(Sym(')'), k))));
    var sel := SelectorToks(metric, ms, tail);
    ParseMatchersToks(dialect, ms, tail);
    assert ParsePrimary(dialect, sel)
        == if Legal(dialect, metric, ms) then Done(Range(metric, ms, w), Cons(Sym(')'), k)) else Fail;
    ParseClosedPrimary(dialect, sel, ParsePrimary(dialect, sel), k);
    assert fn[0] != "topk"[0];
    assert ParsePrimary(dialect, RangeToks(fn, metric, ms, w, k)) == ParseApplied(dialect, fn, sel);
  }

  predicate LegalGrouping(dialect: Dialect, groupBy: string) {
    groupBy == "" || !dialect.reservedLabel(groupBy)
  }

  lemma ParseGroupToks(dialect: Dialect, op: string, groupBy: string, inner: Toks)
    requires IsAggregator(op)
    ensures ParsePrimary(dialect, GroupToks(op, groupBy, inner)) ==
            match ParseClosed(dialect, inner)
            case Fail => Fail
            case Done(e, k) =>
              if LegalGrouping(dialect, groupBy) && KindOf(e).Instant?
              then Done(Aggr(op, if groupBy == "" then None else Some(groupBy), e), k) else Fail
  {
  }

  // ---------- the builders' parts are well formed ----------

  lemma FormatDurationIsNumber(d: int)
    ensures IsNumberText(FormatDuration(d))
  {
  }

  lemma {:induction false} FilterMatcherNames(keys: seq<string>, filters: map<string, string>)
    requires forall k :: k in keys ==> k in filters
    ensures LabelNames(FilterMatchers(keys, filters))
    ensures NamesPresent(FilterMatchers(keys, filters)) <==> "" !in keys
  {
    if keys != [] {
      FilterMatcherNames(keys[1..], filters);
      SanitizeLabelNameSpec(keys[0]);
      assert keys == [keys[0]] + keys[1..];
    }
  }

  lemma ScopeMatcherNames(f: TenantFilter)
    ensures forall m :: m in ScopeMatchers(f) ==> IsReservedScopeLabel(m.name)
    ensures IsName("tenant_id", IsLabelChar) && IsName("partition_id", IsLabelChar)
  {
  }

  lemma QueryMatcherNames(q: MetricQuery, f: TenantFilter)
    ensures LabelNames(QueryMatchers(q, f))
    ensures NamesPresent(QueryMatchers(q, f)) <==> "" !in q.filters
  {
    var keys := KeysOf(q.filters);
    var scope, rest := ScopeMatchers(f), FilterMatchers(keys, q.filters);
    FilterMatcherNames(keys, q.filters);
    ScopeMatcherNames(f);
    NamesConcat(scope, rest);
  }

  lemma NamesConcat(a: seq<Matcher>, b: seq<Matcher>)
    ensures LabelNames(a + b) <==> LabelNames(a) && LabelNames(b)
    ensures NamesPresent(a + b) <==> NamesPresent(a) && NamesPresent(b)
  {
  }

  // ---------- the matchers of a query ----------

  lemma {:induction false} FilterMatcherMembers(keys: seq<string>, filters: map<string, string>, m: Matcher)
    requires forall k :: k in keys ==> k in filters
    ensures m in FilterMatchers(keys, filters) <==>
            exists k :: k in keys && !IsReservedKey(k) && m == Eq(SanitizeLabelName(k), filters[k])
  {
    hide IsReservedKey, SanitizeLabelName;
    if keys != [] {
      FilterMatcherMembers(keys[1..], filters, m);
      assert keys == [keys[0]] + keys[1..];
    }
  }

  lemma QueryMatcherMembers(q: MetricQuery, f: TenantFilter, m: Matcher)
    ensures m in QueryMatchers(q, f) <==>
            m in ScopeMatchers(f)
            || exists k :: k in q.filters && !IsReservedKey(k) && m == Eq(SanitizeLabelName(k), q.filters[k])
  {
    hide IsReservedKey, SanitizeLabelName, ScopeMatchers;
    FilterMatcherMembers(KeysOf(q.filters), q.filters, m);
  }

  // ---------- readable values ----------

  /** Everything the label matchers quote is text the backend's lexer takes. */
  predicate ReadableValues(dialect: Dialect, q: MetricQuery, f: TenantFilter) {
    && (f.scoped ==> Readable(dialect, f.tenantId) && forall id :: id in f.partitionIds ==> Readable(dialect, id))
    && forall k :: k in q.filters && !IsReservedKey(k) ==> Readable(dialect, q.filters[k])
  }

  lemma ReadableConcat(dialect: Dialect, a: string, b: string)
    ensures Readable(dialect, a + b) <==> Readable(dialect, a) && Readable(dialect, b)
  {
    assert forall c :: c in a + b <==> c in a || c in b;
  }

  lemma {:induction false} ReadableQuoted(dialect: Dialect, id: string)
    ensures Readable(dialect, PartitionRegex.QuoteMeta(id)) <==> Readable(dialect, id)
  {
    if id != "" {
      var first := [id[0]];
      assert id == first + id[1..];
      ReadableQuoted(dialect, id[1..]);
      ReadableConcat(dialect, first, id[1..]);
      ReadableConcat(dialect, PartitionRegex.QuoteChar(id[0]), PartitionRegex.QuoteMeta(id[1..]));
      if PartitionRegex.IsMeta(id[0]) {
        assert PartitionRegex.QuoteChar(id[0]) == ['\\'] + first;
        ReadableConcat(dialect, ['\\'], first);
      }
    }
  }

  lemma {:induction false} ReadableJoined(dialect: Dialect, ids: seq<string>)
    ensures Readable(dialect, Join(PartitionRegex.Quoted(ids), "|")) <==>
            forall id :: id in ids ==> Readable(dialect, id)
  {
    if ids != [] {
      hide Readable, PartitionRegex.QuoteMeta;
      var quoted := PartitionRegex.Quoted(ids);
      assert ids == [ids[0]] + ids[1..];
      ReadableQuoted(dialect, ids[0]);
      if |ids| > 1 {
        ReadableJoined(dialect, ids[1..]);
        assert quoted[1..] == PartitionRegex.Quoted(ids[1..]);
        ReadableConcat(dialect, quoted[0] + "|", Join(quoted[1..], "|"));
        ReadableConcat(dialect, quoted[0], "|");
        assert Readable(dialect, "|") by { BarReadable(dialect); }
      }
    }
  }

  lemma BarReadable(dialect: Dialect)
    ensures Readable(dialect, "|")
  {
  }

  lemma ReadableScope(dialect: Dialect, f: TenantFilter)
    ensures (forall m :: m in ScopeMatchers(f) ==> Readable(dialect, m.value)) <==>
            (f.scoped ==> Readable(dialect, f.tenantId) && forall id :: id in f.partitionIds ==> Readable(dialect, id))
  {
    hide Readable;
    if f.scoped {
      var ids, tenant := f.partitionIds, Eq("tenant_id", f.tenantId);
      if ids == [] {
        assert ScopeMatchers(f) == [tenant] && tenant in [tenant];
      } else {
        var partition := PartitionMatchers(ids)[0];
        assert ScopeMatchers(f) == [tenant, partition];
        assert tenant in [tenant, partition] && partition in [tenant, partition];
        ReadableJoined(dialect, ids);
        assert |ids| == 1 ==> ids == [ids[0]];
      }
    }
  }

  /** The compiled matchers are printable exactly when no filter key is empty and every value is readable. */
  lemma PrintableExactly(dialect: Dialect, q: MetricQuery, f: TenantFilter)
    ensures Printable(dialect, QueryMatchers(q, f)) <==> "" !in q.filters && ReadableValues(dialect, q, f)
  {
    hide Readable, ScopeMatchers, QueryMatchers, SanitizeLabelName;
    var ms := QueryMatchers(q, f);
    QueryMatcherNames(q, f);
    ReadableScope(dialect, f);
    forall m { QueryMatcherMembers(q, f, m); }
    forall k | k in q.filters && !IsReservedKey(k) ensures Eq(SanitizeLabelName(k), q.filters[k]) in ms {}
    if Printable(dialect, ms) {
      forall k | k in q.filters && !IsReservedKey(k) ensures Readable(dialect, q.filters[k]) {
        assert Eq(SanitizeLabelName(k), q.filters[k]) in ms;
      }
    }
  }

  /** The printed label matchers read back as exactly the intended list, unless a key is empty or a value unreadable. */
  lemma LabelMatchersRoundTrip(dialect: Dialect, q: MetricQuery, f: TenantFilter)
    ensures ParseMatcherList(dialect, LabelText(q, f)) ==
            if "" !in q.filters && ReadableValues(dialect, q, f) then Some(QueryMatchers(q, f)) else None
  {
    hide Lex, Printable, ReadableValues, QueryMatchers;
    var ms := QueryMatchers(q, f);
    QueryMatcherNames(q, f);
    PrintableExactly(dialect, q, f);
    LexMatchers(ms, "}");
    LexEnd();
    assert "}" == ['}'] + "";
    LexSym('}', "");
    ParseMatchersToks(dialect, ms, Nil);
  }

  // ---------- which selectors are legal ----------

  /** The scope or a client filter asks for a label that must not be empty. */
  predicate HasNonEmptyMatcher(q: MetricQuery, f: TenantFilter) {
    || (f.scoped && (f.tenantId != "" || (f.partitionIds != [] && "" !in f.partitionIds)))
    || exists k :: k in q.filters && !IsReservedKey(k) && q.filters[k] != ""
  }

  /** What a caller must see to for a compiled selector to be legal. */
  predicate GoodSelector(dialect: Dialect, metric: string, q: MetricQuery, f: TenantFilter) {
    && "" !in q.filters && ReadableValues(dialect, q, f)
    && if metric == "" then HasNonEmptyMatcher(q, f)
       else !dialect.reservedMetric(SanitizeMetricName(metric))
            && forall k :: k in q.filters ==> SanitizeLabelName(k) != "__name__"
  }

  lemma ScopeRejectsEmpty(f: TenantFilter)
    ensures (exists m :: m in ScopeMatchers(f) && RejectsEmpty(m)) <==>
            f.scoped && (f.tenantId != "" || (f.partitionIds != [] && "" !in f.partitionIds))
  {
    if f.scoped {
      var ids := f.partitionIds;
      var tenant := Eq("tenant_id", f.tenantId);
      if ids == [] {
        assert ScopeMatchers(f) == [tenant] && tenant in [tenant];
      } else {
        var partition := PartitionMatchers(ids)[0];
        assert ScopeMatchers(f) == [tenant, partition];
        assert tenant in [tenant, partition] && partition in [tenant, partition];
        PartitionRegex.PartitionRegexExact(ids, "");
        assert |ids| == 1 ==> ids == [ids[0]];
        assert RejectsEmpty(partition) <==> "" !in ids;
      }
    }
  }

  /** The static checks on a compiled selector come down to conditions on the query and its scope. */
  lemma LegalExactly(dialect: Dialect, metric: string, q: MetricQuery, f: TenantFilter)
    ensures Legal(dialect, SanitizeMetricName(metric), QueryMatchers(q, f)) <==> GoodSelector(dialect, metric, q, f)
  {
    hide ScopeMatchers, QueryMatchers, SanitizeMetricName, SanitizeLabelName, Printable, ReadableValues;
    var ms := QueryMatchers(q, f);
    QueryMatcherNames(q, f);
    PrintableExactly(dialect, q, f);
    SanitizeMetricNameSpec(metric);
    ScopeMatcherNames(f);
    ScopeRejectsEmpty(f);
    forall m { QueryMatcherMembers(q, f, m); }
    forall k | k in q.filters && !IsReservedKey(k)
      ensures var m := Eq(SanitizeLabelName(k), q.filters[k]); m in ms && (RejectsEmpty(m) <==> q.filters[k] != "")
    {
      assert Eq(SanitizeLabelName(k), q.filters[k]) in ms;
    }
  }

  // ---------- whole queries ----------

  /** Every compiled selector of q is legal, and so is the label it is grouped by. */
  predicate WellFormed(dialect: Dialect, q: MetricQuery, f: TenantFilter) {
    if q.IsRatio() then WellFormed(dialect, q.numerator.value, f) && WellFormed(dialect, q.denominator.value, f)
    else if q.IsDuration() then
      GoodSelector(dialect, q.durationMetric, q, f) && GoodSelector(dialect, q.durationCountMetric, q, f)
    else
      && GoodSelector(dialect, q.metric, q, f)
      && (q.aggregation.Other? || LegalGrouping(dialect, SanitizeLabelName(q.groupBy)))
  }

  ghost predicate GoodFormat(g: FloatFormat) {
    forall x: real :: IsNumberText(g(x))
  }

  lemma FunctionNames()
    ensures IsName("rate", IsMetricChar) && IsName("increase", IsMetricChar)
    ensures IsName("sum", IsMetricChar) && IsName("avg", IsMetricChar) && IsName("count", IsMetricChar)
  {
  }

  lemma WindowReads(dialect: Dialect, fn: string, metric: string, q: MetricQuery, f: TenantFilter, w: string, k: string)
    requires IsRangeFunction(fn) && IsNumberText(w)
    ensures ParsePrimary(dialect, Lex(RangeText(fn, SelectorText(SanitizeMetricName(metric), LabelText(q, f)), w) + k))
         == if GoodSelector(dialect, metric, q, f)
            then Done(Window(fn, metric, QueryMatchers(q, f), w), Lex(k)) else Fail
  {
    hide Lex, GoodSelector, Legal, ParsePrimary, QueryMatchers, SanitizeMetricName, IsName, IsNumberText, RangeText,
         LabelNames;
    var ms := QueryMatchers(q, f);
    QueryMatcherNames(q, f);
    SanitizeMetricNameSpec(metric);
    LegalExactly(dialect, metric, q, f);
    FunctionNames();
    LexRange(fn, SanitizeMetricName(metric), ms, w, k);
    ParseRangeToks(dialect, fn, SanitizeMetricName(metric), ms, w, Lex(k));
  }

  lemma GaugeReads(dialect: Dialect, q: MetricQuery, f: TenantFilter, k: string)
    requires !(Lex(k).Cons? && Lex(k).head == Sym('['))
    ensures ParsePrimary(dialect, Lex(SelectorText(SanitizeMetricName(q.metric), LabelText(q, f)) + k))
         == if GoodSelector(dialect, q.metric, q, f)
            then Done(Select(SanitizeMetricName(q.metric), QueryMatchers(q, f)), Lex(k)) else Fail
  {
    hide Lex, GoodSelector, Legal, ParsePrimary, QueryMatchers, SanitizeMetricName, IsName, LabelNames;
    var ms := QueryMatchers(q, f);
    QueryMatcherNames(q, f);
    SanitizeMetricNameSpec(q.metric);
    LegalExactly(dialect, q.metric, q, f);
    LexSelector(SanitizeMetricName(q.metric), ms, k);
    ParseSelectorToks(dialect, SanitizeMetricName(q.metric), ms, Lex(k));
  }

  /** If the inner text reads as e before any closing parenthesis, the aggregated text reads as the aggregate of e. */
  lemma GroupReads(dialect: Dialect, op: string, groupBy: string, inner: string, e: Parsed<Expr>, k: string)
    requires IsAggregator(op)
    requires groupBy == "" || IsName(groupBy, IsLabelChar)
    requires ParsePrimary(dialect, Lex(inner + ([')'] + k))) == e
    requires e.Done? ==> e.rest == Lex([')'] + k) && KindOf(e.value).Instant?
    ensures ParsePrimary(dialect, Lex(GroupText(op, groupBy, inner) + k))
         == if e.Done? && LegalGrouping(dialect, groupBy)
            then Done(Aggr(op, if groupBy == "" then None else Some(groupBy), e.value), Lex(k)) else Fail
  {
    hide Lex, IsName, ParsePrimary, ParseClosed;
    FunctionNames();
    LexGroup(op, groupBy, inner, k);
    ParseGroupToks(dialect, op, groupBy, Lex(inner + ([')'] + k)));
    LexSym(')', k);
    ParseClosedPrimary(dialect, Lex(inner + ([')'] + k)), e, Lex(k));
  }

  lemma AggregateOfWindowReads(dialect: Dialect, op: string, fn: string, groupBy: string, metric: string,
                               q: MetricQuery, f: TenantFilter, w: string, k: string)
    requires IsAggregator(op) && IsRangeFunction(fn) && IsNumberText(w)
    requires groupBy == "" || IsName(groupBy, IsLabelChar)
    ensures ParsePrimary(dialect, Lex(GroupText(op, groupBy,
                RangeText(fn, SelectorText(SanitizeMetricName(metric), LabelText(q, f)), w)) + k))
         == if GoodSelector(dialect, metric, q, f) && LegalGrouping(dialect, groupBy)
            then Done(Aggr(op, if groupBy == "" then None else Some(groupBy),
                           Window(fn, metric, QueryMatchers(q, f), w)), Lex(k))
            else Fail
  {
    hide Lex, GoodSelector;
    var inner := RangeText(fn, SelectorText(SanitizeMetricName(metric), LabelText(q, f)), w);
    WindowReads(dialect, fn, metric, q, f, w, [')'] + k);
    GroupReads(dialect, op, groupBy, inner, ParsePrimary(dialect, Lex(inner + ([')'] + k))), k);
  }

  lemma GaugeAggregateReads(dialect: Dialect, groupBy: string, q: MetricQuery, f: TenantFilter, k: string)
    requires groupBy == "" || IsName(groupBy, IsLabelChar)
    ensures ParsePrimary(dialect, Lex(GroupText("sum", groupBy,
                SelectorText(SanitizeMetricName(q.metric), LabelText(q, f))) + k))
         == if GoodSelector(dialect, q.metric, q, f) && LegalGrouping(dialect, groupBy)
            then Done(Aggr("sum", if groupBy == "" then None else Some(groupBy),
                           Select(SanitizeMetricName(q.metric), QueryMatchers(q, f))), Lex(k))
            else Fail
  {
    hide Lex, GoodSelector;
    var inner := SelectorText(SanitizeMetricName(q.metric), LabelText(q, f));
    LexSym(')', k);
    GaugeReads(dialect, q, f, [')'] + k);
    GroupReads(dialect, "sum", groupBy, inner, ParsePrimary(dialect, Lex(inner + ([')'] + k))), k);
  }

  predicate IsPlain(q: MetricQuery) {
    !q.IsRatio() && !q.IsDuration()
  }

  lemma PlainReads(dialect: Dialect, q: MetricQuery, f: TenantFilter, dur: int, g: FloatFormat, k: string)
    requires IsPlain(q)
    ensures ParsePrimary(dialect, Lex(BuildScalarPromQL(q, f, dur, g) + k))
         == if WellFormed(dialect, q, f) then Done(Compile(q, f, dur, g), Lex(k)) else Fail
  {
    hide Lex, GoodSelector, FormatDuration, SanitizeMetricName, QueryMatchers, LabelText, ParsePrimary;
    var w := FormatDuration(dur);
    var group := SanitizeLabelName(q.groupBy);
    FormatDurationIsNumber(dur);
    SanitizeLabelNameSpec(q.groupBy);
    match q.aggregation
    case Gauge => GaugeAggregateReads(dialect, group, q, f, k);
    case Count => AggregateOfWindowReads(dialect, "sum", "increase", group, q.metric, q, f, w, k);
    case Sum => AggregateOfWindowReads(dialect, "sum", "increase", group, q.metric, q, f, w, k);
    case Avg => AggregateOfWindowReads(dialect, "avg", "increase", group, q.metric, q, f, w, k);
    case Other(_) => AggregateOfWindowReads(dialect, "sum", "increase", "", q.metric, q, f, w, k);
    case CountDistinct =>
      if group == "" {
        AggregateOfWindowReads(dialect, "count", "increase", "", q.metric, q, f, w, k);
      } else {
        var window := RangeText("increase", SelectorText(SanitizeMetricName(q.metric), LabelText(q, f)), w);
        var inner := GroupText("count", group, window);
        AggregateOfWindowReads(dialect, "count", "increase", group, q.metric, q, f, w, [')'] + k);
        GroupReads(dialect, "count", "", inner, ParsePrimary(dialect, Lex(inner + ([')'] + k))), k);
      }
  }

  /** An operator between single spaces. */
  lemma LexOperator(op: char, k: string)
    requires op == '/' || op == '*'
    ensures Lex(" " + ([op] + (" " + k))) == Cons(Sym(op), Lex(k))
  {
    hide Lex;
    LexSpace(k);
    LexSym(op, " " + k);
    LexSpace([op] + (" " + k));
  }

  lemma QuotientShape(a: string, b: string, m: string, k: string)
    ensures a + " / " + b + " * " + m + k == a + (" " + (['/'] + (" " + (b + (" " + (['*'] + (" " + (m + k))))))))
  {
  }

  lemma DurationReads(dialect: Dialect, q: MetricQuery, f: TenantFilter, dur: int, g: FloatFormat, k: string)
    requires !q.IsRatio() && q.IsDuration()
    requires GoodFormat(g) && Break(k) && NoOperator(Lex(k))
    ensures ParseExpr(dialect, Lex(BuildScalarPromQL(q, f, dur, g) + k))
         == if WellFormed(dialect, q, f) then Done(Compile(q, f, dur, g), Lex(k)) else Fail
  {
    hide Lex, GoodSelector, FormatDuration, SanitizeMetricName, QueryMatchers, LabelText;
    var w := FormatDuration(dur);
    FormatDurationIsNumber(dur);
    var m := g(Multiplier(q));
    var labels := LabelText(q, f);
    var a := GroupText("sum", "", RangeText("rate", SelectorText(SanitizeMetricName(q.durationMetric), labels), w));
    var count := SelectorText(SanitizeMetricName(q.durationCountMetric), labels);
    var b := GroupText("sum", "", RangeText("rate", count, w));
    var k2 := " " + (['*'] + (" " + (m + k)));
    var k1 := " " + (['/'] + (" " + (b + k2)));
    QuotientShape(a, b, m, k);
    LexNumber(m, k);
    LexOperator('*', m + k);
    LexOperator('/', b + k2);
    AggregateOfWindowReads(dialect, "sum", "rate", "", q.durationMetric, q, f, w, k1);
    AggregateOfWindowReads(dialect, "sum", "rate", "", q.durationCountMetric, q, f, w, k2);
    if WellFormed(dialect, q, f) {
      var ms := QueryMatchers(q, f);
      OpsReads(dialect, Aggr("sum", None, Window("rate", q.durationMetric, ms, w)),
               Aggr("sum", None, Window("rate", q.durationCountMetric, ms, w)), Lex(b + k2), m, Lex(k));
    }
  }

  /** After a left operand, "/ primary * number" folds to the left. */
  lemma OpsReads(dialect: Dialect, left: Expr, right: Expr, t: Toks, m: string, k: Toks)
    requires ParsePrimary(dialect, t) == Done(right, Cons(Sym('*'), Cons(Number(m), k)))
    requires KindOf(left).Instant? && KindOf(right).Instant?
    requires NoOperator(k)
    ensures ParseOps(dialect, left, Cons(Sym('/'), t)) == Done(Bin('*', Bin('/', left, right), Num(m)), k)
  {
    var half := Bin('/', left, right);
    assert ParseOps(dialect, left, Cons(Sym('/'), t)) == ParseOps(dialect, half, Cons(Sym('*'), Cons(Number(m), k)));
    assert ParsePrimary(dialect, Cons(Number(m), k)) == Done(Num(m), k);
    assert ParseOps(dialect, Bin('*', half, Num(m)), k) == Done(Bin('*', half, Num(m)), k);
  }

  /** Every compiled query denotes an instant vector, the only result type the client decodes for instant queries. */
  lemma {:induction false} CompileIsInstant(q: MetricQuery, f: TenantFilter, dur: int, g: FloatFormat)
    ensures KindOf(Compile(q, f, dur, g)).Instant?
  {
    hide Window, QueryMatchers, FormatDuration, SanitizeMetricName, SanitizeLabelName;
    if q.IsRatio() {
      CompileIsInstant(q.numerator.value, f, dur, g);
    }
    if q.IsRatio() || q.IsDuration() {
      assert KindOf(Compile(q, f, dur, g).left).Instant?;
    }
  }

  lemma {:induction false} ScalarReads(dialect: Dialect, q: MetricQuery, f: TenantFilter, dur: int, g: FloatFormat,
                                       k: string)
    requires GoodFormat(g) && Break(k) && NoOperator(Lex(k))
    ensures ParseExpr(dialect, Lex(BuildScalarPromQL(q, f, dur, g) + k))
         == if WellFormed(dialect, q, f) then Done(Compile(q, f, dur, g), Lex(k)) else Fail
    decreases q
  {
    if q.IsRatio() {
      RatioReads(dialect, q, f, dur, g, k);
    } else if q.IsDuration() {
      DurationReads(dialect, q, f, dur, g, k);
    } else {
      PlainReads(dialect, q, f, dur, g, k);
    }
  }

  lemma {:induction false} RatioReads(dialect: Dialect, q: MetricQuery, f: TenantFilter, dur: int, g: FloatFormat,
                                      k: string)
    requires q.IsRatio()
    requires GoodFormat(g) && Break(k) && NoOperator(Lex(k))
    ensures ParseExpr(dialect, Lex(BuildScalarPromQL(q, f, dur, g) + k))
         == if WellFormed(dialect, q, f) then Done(Compile(q, f, dur, g), Lex(k)) else Fail
    decreases q, 0
  {
    hide Lex;
    var n := BuildScalarPromQL(q.numerator.value, f, dur, g);
    var d := BuildScalarPromQL(q.denominator.value, f, dur, g);
    var k3 := " " + (['*'] + (" " + ("100" + k)));
    var k2 := [')'] + k3;
    var k1 := " " + (['/'] + (" " + (['('] + (d + k2))));
    assert BuildScalarPromQL(q, f, dur, g) + k == ['('] + (n + ([')'] + k1));
    LexNumber("100", k);
    LexOperator('*', "100" + k);
    LexSym(')', k3);
    LexSym('(', d + k2);
    LexOperator('/', ['('] + (d + k2));
    LexSym(')', k1);
    LexSym('(', n + ([')'] + k1));
    ScalarReads(dialect, q.numerator.value, f, dur, g, [')'] + k1);
    ScalarReads(dialect, q.denominator.value, f, dur, g, k2);
    CompileIsInstant(q.numerator.value, f, dur, g);
    CompileIsInstant(q.denominator.value, f, dur, g);
    RatioTokensRead(dialect, Lex(n + ([')'] + k1)), Lex(d + k2), ParseExpr(dialect, Lex(n + ([')'] + k1))),
                    ParseExpr(dialect, Lex(d + k2)), Lex(k));
  }

  lemma RatioTokensRead(dialect: Dialect, n: Toks, d: Toks, num: Parsed<Expr>, den: Parsed<Expr>, k: Toks)
    requires NoOperator(k)
    requires ParseExpr(dialect, n) == num && ParseExpr(dialect, d) == den
    requires num.Done? ==> num.rest == Cons(Sym(')'), Cons(Sym('/'), Cons(Sym('('), d))) && KindOf(num.value).Instant?
    requires den.Done? ==>
               den.rest == Cons(Sym(')'), Cons(Sym('*'), Cons(Number("100"), k))) && KindOf(den.value).Instant?
    ensures ParseExpr(dialect, Cons(Sym('('), n)) ==
            if num.Done? && den.Done? then Done(Bin('*', Bin('/', num.value, den.value), Num("100")), k) else Fail
  {
    if num.Done? {
      assert ParsePrimary(dialect, Cons(Sym('('), n)) == Done(num.value, Cons(Sym('/'), Cons(Sym('('), d)));
      if den.Done? {
        assert ParsePrimary(dialect, Cons(Sym('('), d)) == Done(den.value, Cons(Sym('*'), Cons(Number("100"), k)));
        OpsReads(dialect, num.value, den.value, Cons(Sym('('), d), "100", k);
      } else {
        assert ParsePrimary(dialect, Cons(Sym('('), d)) == Fail;
      }
    } else {
      assert ParsePrimary(dialect, Cons(Sym('('), n)) == Fail;
    }
  }
}
