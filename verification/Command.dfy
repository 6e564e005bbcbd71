// Command input mapping, local validation, and the translation of error fields
// back to the names the user interface knows.
module Command {
  import opened Wrappers
  import opened Text
  import opened Expression

  type Projection = map<string, string>
  type Body = map<string, Json>

  datatype MappingError = MappingError(field: string, error: ResolveError)

  // ---------- projection ----------

  predicate AllResolve(p: Projection, src: Sources) {
    forall f :: f in p ==> Resolve(p[f], src).Ok?
  }

  function ResolvedBody(p: Projection, src: Sources): Body
    requires AllResolve(p, src)
  {
    map f | f in p :: Resolve(p[f], src).value
  }

  /**
   * resolveProjection and resolveTemplate: one entry at a time, in whatever order the map yields.
   * Success and the body do not depend on that order; a failure names some field that does not resolve.
   */
  method ResolveAll(p: Projection, src: Sources) returns (r: Result<Body, MappingError>)
    ensures r.Ok? <==> AllResolve(p, src)
    ensures r.Ok? ==> r.value == ResolvedBody(p, src)
    ensures r.Ok? ==> r.value.Keys == p.Keys && forall f :: f in p ==> Resolve(p[f], src) == Ok(r.value[f])
    ensures r.Err? ==> r.error.field in p && Resolve(p[r.error.field], src) == Err(r.error.error)
  {
    hide Resolve;
    var result: Body := map[];
    var rest := p.Keys;
    while rest != {}
      invariant rest <= p.Keys
      invariant forall f :: f in p && f !in rest ==> Resolve(p[f], src).Ok?
      invariant result.Keys == p.Keys - rest
      invariant forall f :: f in result ==> Resolve(p[f], src) == Ok(result[f])
    {
      var f :| f in rest;
      var v := Resolve(p[f], src);
      if v.Err? {
        return Err(MappingError(f, v.error));
      }
      result := result[f := v.value];
      rest := rest - {f};
    }
    assert result == ResolvedBody(p, src);
    r := Ok(result);
  }

  // ---------- reverse map ----------

  function ReversePath(expr: string): Option<string> {
    if HasPrefix(expr, "input.") then Some(expr[6..]) else None
  }

  function ReverseFields(p: Projection): map<string, string> {
    map f | f in p && ReversePath(p[f]).Some? :: ReversePath(p[f]).value
  }

  method ReverseFieldMap(p: Projection) returns (reverse: map<string, string>)
    ensures reverse == ReverseFields(p)
    ensures forall f :: f in reverse <==> f in p && |p[f]| >= 6 && p[f][..6] == "input."
    ensures forall f :: f in reverse ==> p[f] == "input." + reverse[f]
  {
    reverse := map[];
    var rest := p.Keys;
    while rest != {}
      invariant rest <= p.Keys
      invariant reverse == map f | f in p && f !in rest && ReversePath(p[f]).Some? :: ReversePath(p[f]).value
    {
      var f :| f in rest;
      rest := rest - {f};
      if HasPrefix(p[f], "input.") {
        reverse := reverse[f := p[f][6..]];
      }
    }
  }

  /** For an expression that reads the input, the reverse path is the path it reads exactly when it is trimmed. */
  lemma ReversePathExact(expr: string)
    requires SuppliedPath(expr).Some?
    ensures ReversePath(expr) == SuppliedPath(expr) <==> IsTrimmed(expr)
  {
    TrimSpec(expr);
    var e := Trim(expr);
    if ReversePath(expr) == SuppliedPath(expr) {
      assert expr == expr[..6] + expr[6..] && e == e[..6] + e[6..];
      assert expr[..6] == "input." == e[..6];
    }
  }

  /** A trimmed expression with a non-empty reverse path reads the input there. */
  lemma ReversedIsSupplied(expr: string)
    requires IsTrimmed(expr) && ReversePath(expr).Some? && ReversePath(expr) != Some("")
    ensures SuppliedPath(expr) == ReversePath(expr)
  {
    TrimSpec(expr);
    assert |expr[6..]| == |expr| - 6;
  }

  /**
   * When mapping succeeds the body has exactly the projection's fields, and each reversed field of a trimmed
   * expression holds the value found in the input at its reverse path.
   */
  lemma ReverseNamesSupplier(p: Projection, src: Sources)
    requires AllResolve(p, src)
    ensures ResolvedBody(p, src).Keys == p.Keys
    ensures forall f :: f in ReverseFields(p) && IsTrimmed(p[f]) ==>
              && src.input.Some?
              && ResolvedBody(p, src)[f] == Navigate(src.input.value, ReverseFields(p)[f])
              && ResolvedBody(p, src)[f] != Null
    ensures forall f :: f in p && IsTrimmed(p[f]) && f !in ReverseFields(p) ==>
              Resolve(p[f], src) == Resolve(p[f], src.(input := None))
  {
    forall f | f in p && IsTrimmed(p[f])
      ensures f in ReverseFields(p) ==>
                && src.input.Some?
                && ResolvedBody(p, src)[f] == Navigate(src.input.value, ReverseFields(p)[f])
                && ResolvedBody(p, src)[f] != Null
      ensures f !in ReverseFields(p) ==> Resolve(p[f], src) == Resolve(p[f], src.(input := None))
    {
      TrimmedExpression(p[f], src);
    }
  }

  /** The same for one trimmed expression that resolves. */
  lemma TrimmedExpression(expr: string, src: Sources)
    requires IsTrimmed(expr) && Resolve(expr, src).Ok?
    ensures match ReversePath(expr)
            case Some(path) => src.input.Some? && Resolve(expr, src).value == Navigate(src.input.value, path) != Null
            case None => Resolve(expr, src) == Resolve(expr, src.(input := None))
  {
    TrimSpec(expr);
    ResolveReadsInput(expr, src);
    hide Resolve, Trim;
    if ReversePath(expr).Some? && ReversePath(expr) != Some("") {
      ReversedIsSupplied(expr);
    }
  }

  // ---------- validation and translation ----------

  datatype ValidationError = ValidationError(field: string, message: string)
  datatype FieldError = FieldError(field: string, code: string, message: string)

  /** The required fields of the request schema that the body lacks, in schema order. */
  function MissingRequired(required: seq<string>, body: Body): seq<ValidationError> {
    if required == [] then []
    else (if required[0] in body then [] else [ValidationError(required[0], required[0] + " is required")])
         + MissingRequired(required[1..], body)
  }

  predicate SameLetter(sc: char, wc: char) {
    var s, w := sc as int, wc as int;
    s == w || s == w + 32 || s == w - 32
  }

  predicate WordAt(s: string, word: string, i: nat) {
    i + |word| <= |s| && forall j :: 0 <= j < |word| ==> SameLetter(s[i + j], word[j])
  }

  predicate ContainsWord(s: string, word: string) {
    exists i: nat :: i <= |s| && WordAt(s, word, i)
  }

  function Rename(field: string, reverse: map<string, string>): string {
    if field in reverse then reverse[field] else field
  }

  function Translate(e: ValidationError, reverse: map<string, string>): FieldError {
    FieldError(Rename(e.field, reverse),
               if e.field != "" && ContainsWord(e.message, "required") then "REQUIRED" else "INVALID_VALUE",
               e.message)
  }

  method TranslateValidationErrors(errors: seq<ValidationError>,
                                   reverse: map<string, string>) returns (r: seq<FieldError>)
    ensures |r| == |errors|
    ensures forall i :: 0 <= i < |errors| ==> r[i] == Translate(errors[i], reverse)
    ensures forall i :: 0 <= i < |errors| ==>
              && r[i].field == (if errors[i].field in reverse then reverse[errors[i].field] else errors[i].field)
              && r[i].message == errors[i].message
  {
    r := [];
    for i := 0 to |errors|
      invariant |r| == i
      invariant forall k :: 0 <= k < i ==> r[k] == Translate(errors[k], reverse)
    {
      var field := errors[i].field;
      if field in reverse {
        field := reverse[field];
      }
      var code := "INVALID_VALUE";
      if errors[i].field != "" && ContainsWord(errors[i].message, "required") {
        code := "REQUIRED";
      }
      r := r + [FieldError(field, code, errors[i].message)];
    }
  }

  lemma {:induction false} MissingRequiredExact(required: seq<string>, body: Body)
    ensures forall e :: e in MissingRequired(required, body) <==>
              e.field in required && e.field !in body && e.message == e.field + " is required"
  {
    if required != [] {
      MissingRequiredExact(required[1..], body);
      assert required == [required[0]] + required[1..];
    }
  }

  /** Schema order is kept: the errors of a longer list begin with those of the shorter one. */
  lemma {:induction false} MissingInOrder(a: seq<string>, b: seq<string>, body: Body)
    ensures MissingRequired(a + b, body) == MissingRequired(a, body) + MissingRequired(b, body)
  {
    if a == [] {
      assert a + b == b;
    } else {
      assert (a + b)[1..] == a[1..] + b;
      MissingInOrder(a[1..], b, body);
    }
  }

  /** The letters of the word, each possibly off by 32 in its code, in whichever direction. */
  predicate Spells(w: string, word: string) {
    |w| == |word| && forall j :: 0 <= j < |w| ==>
      w[j] == word[j] || w[j] as int == word[j] as int + 32 || w[j] as int == word[j] as int - 32
  }

  lemma WordExactly(m: string, word: string)
    ensures ContainsWord(m, word) <==> exists before, w, after :: m == before + w + after && Spells(w, word)
  {
    if i: nat :| i <= |m| && WordAt(m, word, i) {
      var w := m[i..i + |word|];
      assert m == m[..i] + w + m[i + |word|..];
      assert forall j :: 0 <= j < |word| ==> SameLetter(m[i + j], word[j]) && w[j] == m[i + j];
      assert Spells(w, word);
    }
    if before, w, after :| m == before + w + after && Spells(w, word) {
      assert forall j :: 0 <= j < |word| ==> m[|before| + j] == w[j];
      assert WordAt(m, word, |before|);
    }
  }

  /** An error is coded as required exactly when it names a field and its message has the word in it. */
  lemma CodeExactly(e: ValidationError, reverse: map<string, string>)
    ensures Translate(e, reverse).code == "REQUIRED" || Translate(e, reverse).code == "INVALID_VALUE"
    ensures Translate(e, reverse).code == "REQUIRED" <==>
            e.field != "" && exists before, w, after :: e.message == before + w + after && Spells(w, "required")
  {
    hide ContainsWord, Spells;
    WordExactly(e.message, "required");
    assert "REQUIRED"[0] != "INVALID_VALUE"[0];
  }

  lemma RequiredMessage(field: string)
    ensures ContainsWord(field + " is required", "required")
  {
    var s := field + " is required";
    var i := |field| + 4;
    assert s[i..] == "required";
    assert forall j :: 0 <= j < 8 ==> s[i + j] == s[i..][j];
    assert WordAt(s, "required", i);
  }

  /**
   * In projection mode the errors found before the call are exactly the required fields the projection does not
   * produce; they keep their own names, and every one with a name is reported as REQUIRED.
   */
  lemma LocalErrorsNeverRenamed(p: Projection, src: Sources, required: seq<string>)
    requires AllResolve(p, src)
    ensures forall e :: e in MissingRequired(required, ResolvedBody(p, src)) ==>
              && e.field in required && e.field !in p
              && Translate(e, ReverseFields(p)) ==
                 FieldError(e.field, if e.field == "" then "INVALID_VALUE" else "REQUIRED", e.message)
    ensures forall f :: f in required && f !in p ==>
              ValidationError(f, f + " is required") in MissingRequired(required, ResolvedBody(p, src))
  {
    var body := ResolvedBody(p, src);
    MissingRequiredExact(required, body);
    forall e | e in MissingRequired(required, body)
      ensures Translate(e, ReverseFields(p)) ==
              FieldError(e.field, if e.field == "" then "INVALID_VALUE" else "REQUIRED", e.message)
    {
      RequiredMessage(e.field);
    }
  }

  // ---------- backend field errors ----------

  /** handleClientError rewrites the field of each detail in place. */
  method RenameDetails(details: array<FieldError>, reverse: map<string, string>)
    modifies details
    ensures details[..] == Renamed(old(details[..]), reverse)
    ensures forall i :: 0 <= i < details.Length ==>
              var was := old(details[i]);
              details[i] == was.(field := if was.field in reverse then reverse[was.field] else was.field)
  {
    for i := 0 to details.Length
      invariant forall k :: 0 <= k < i ==>
                  details[k] == old(details[k]).(field := Rename(old(details[k]).field, reverse))
      invariant forall k :: i <= k < details.Length ==> details[k] == old(details[k])
    {
      if details[i].field in reverse {
        details[i] := details[i].(field := reverse[details[i].field]);
      }
    }
  }

  function Renamed(details: seq<FieldError>, reverse: map<string, string>): (r: seq<FieldError>)
    ensures |r| == |details|
  {
    seq(|details|, i requires 0 <= i < |details| => details[i].(field := Rename(details[i].field, reverse)))
  }

  /** A backend error on a projected input field comes back under the input path whose value was sent. */
  lemma BackendErrorNamesItsInput(p: Projection, src: Sources, details: seq<FieldError>, i: nat)
    requires AllResolve(p, src) && i < |details|
    requires details[i].field in p && SuppliedPath(p[details[i].field]).Some? && IsTrimmed(p[details[i].field])
    ensures var shown := Renamed(details, ReverseFields(p))[i];
            && shown.code == details[i].code && shown.message == details[i].message
            && src.input.Some?
            && ResolvedBody(p, src)[details[i].field] == Navigate(src.input.value, shown.field)
  {
    ReverseNamesSupplier(p, src);
    ReversePathExact(p[details[i].field]);
  }
}
