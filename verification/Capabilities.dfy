// Capability sets with wildcards, as they are consulted by the other components.
module Capabilities {
  import opened Text

  type CapabilitySet = set<string>

  predicate MatchWildcard(pattern: string, cap: string) {
    pattern == "*" ||
    (|pattern| >= 2 && pattern[|pattern| - 2..] == ":*" && HasPrefix(cap, pattern[..|pattern| - 1]))
  }

  predicate Has(caps: CapabilitySet, cap: string) {
    cap in caps || exists p :: p in caps && MatchWildcard(p, cap)
  }

  /** The test a child partition must pass to be included in a wildcard query. */
  predicate GrantsAnalytics(caps: CapabilitySet) {
    Has(caps, "analytics:*") || exists c :: c in caps && HasPrefix(c, "analytics:")
  }

  lemma AnalyticsWildcards(p: string)
    ensures MatchWildcard(p, "analytics:*") <==> p == "*" || p == "analytics:*"
  {
    if |p| >= 2 && p[|p| - 2..] == ":*" {
      var n := |p| - 1;
      var cap := "analytics:*";
      assert cap[0] != ':' && cap[1] != ':' && cap[2] != ':' && cap[3] != ':' && cap[4] != ':';
      assert cap[5] != ':' && cap[6] != ':' && cap[7] != ':' && cap[8] != ':' && cap[9] == ':' && cap[10] != ':';
      assert p[n - 1] == p[|p| - 2..][0] == ':';
      assert p[n] == p[|p| - 2..][1] == '*';
      if p[..n] <= cap {
        assert cap[n - 1] == p[n - 1];
        assert n == 10;
        assert p == p[..n] + [p[n]] == cap[..10] + ['*'] == cap;
      }
    }
  }

  /** A capability is held literally, under "*", or under "*" after one of its own prefixes that end in a colon. */
  lemma HasExactly(caps: CapabilitySet, cap: string)
    ensures Has(caps, cap) <==>
            cap in caps || "*" in caps || exists i :: 0 <= i < |cap| && cap[i] == ':' && cap[..i + 1] + "*" in caps
  {
    if Has(caps, cap) && cap !in caps && "*" !in caps {
      var p :| p in caps && MatchWildcard(p, cap);
      var n := |p| - 1;
      assert p[n - 1] == p[|p| - 2..][0] == ':' && p[n] == p[|p| - 2..][1] == '*';
      assert p == p[..n] + "*" && p[..n] <= cap;
      assert cap[..n] == p[..n] && cap[n - 1] == p[n - 1];
      assert cap[..n - 1 + 1] + "*" == p;
    }
    if "*" in caps { assert MatchWildcard("*", cap); }
    if i :| 0 <= i < |cap| && cap[i] == ':' && cap[..i + 1] + "*" in caps {
      var p := cap[..i + 1] + "*";
      assert p[|p| - 2..] == ":*" && p[..|p| - 1] == cap[..i + 1];
      assert MatchWildcard(p, cap);
    }
  }

  /** A child counts exactly when it grants everything or any one analytics capability. */
  lemma GrantsAnalyticsExact(caps: CapabilitySet)
    ensures GrantsAnalytics(caps) <==> "*" in caps || exists c :: c in caps && HasPrefix(c, "analytics:")
  {
    forall p { AnalyticsWildcards(p); }
    assert HasPrefix("analytics:*", "analytics:");
    if "*" in caps { assert MatchWildcard("*", "analytics:*"); }
  }
}
