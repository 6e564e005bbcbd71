// Keys made by joining identifiers with a separator.
module CompositeKey {
  import opened Text

  predicate ColonFree(s: string) {
    ':' !in s
  }

  function Key3(a: string, b: string, c: string): string {
    a + ":" + b + ":" + c
  }

  function Prefix2(a: string, b: string): string {
    a + ":" + b + ":"
  }

  lemma ColonsOfKey3(a: string, b: string, c: string, i: nat)
    requires ColonFree(a) && ColonFree(b) && ColonFree(c)
    requires i < |Key3(a, b, c)|
    ensures Key3(a, b, c)[i] == ':' <==> i == |a| || i == |a| + 1 + |b|
  {
  }

  lemma KeyParts(a: string, b: string, c: string)
    ensures var k := Key3(a, b, c);
            && |k| == |a| + |b| + |c| + 2 && k[|a|] == ':' && k[|a| + 1 + |b|] == ':'
            && k[..|a|] == a && k[|a| + 1..|a| + 1 + |b|] == b && k[|a| + |b| + 2..] == c
            && k[..|a| + |b| + 2] == Prefix2(a, b)
  {
  }

  lemma PrefixParts(a: string, b: string)
    ensures var p := Prefix2(a, b);
            && |p| == |a| + |b| + 2 && p[|a|] == ':' && p[|a| + 1 + |b|] == ':'
            && p[..|a|] == a && p[|a| + 1..|a| + 1 + |b|] == b
  {
  }

  /** A prefix made of a subject and a tenant matches a colon-free key exactly when they are its first two parts. */
  lemma PrefixExact(a: string, b: string, x: string, y: string, z: string)
    requires ColonFree(x) && ColonFree(y) && ColonFree(z)
    ensures HasPrefix(Key3(x, y, z), Prefix2(a, b)) <==> a == x && b == y
  {
    var k, p := Key3(x, y, z), Prefix2(a, b);
    KeyParts(x, y, z);
    PrefixParts(a, b);
    if p <= k {
      assert k[|a|] == p[|a|] && k[|a| + 1 + |b|] == p[|a| + 1 + |b|];
      ColonsOfKey3(x, y, z, |a|);
      ColonsOfKey3(x, y, z, |a| + 1 + |b|);
      assert |a| == |x| && |b| == |y|;
      assert a == p[..|a|] == k[..|a|] == x;
      assert b == p[|a| + 1..|a| + 1 + |b|] == k[|a| + 1..|a| + 1 + |b|] == y;
    }
  }

  lemma Key3Injective(a: string, b: string, c: string, x: string, y: string, z: string)
    requires ColonFree(x) && ColonFree(y) && ColonFree(z)
    requires Key3(a, b, c) == Key3(x, y, z)
    ensures a == x && b == y && c == z
  {
    KeyParts(a, b, c);
    KeyParts(x, y, z);
    assert Prefix2(a, b) <= Key3(x, y, z);
    PrefixExact(a, b, x, y, z);
  }

  lemma SplitAt(s: string, i: nat) returns (x: string, y: string)
    requires i < |s| && s[i] == ':'
    ensures s == x + ":" + y && |x| < |s| && |y| < |s|
  {
    x, y := s[..i], s[i + 1..];
  }

  /** A key has a single reading as three identifiers exactly when none of them contains a colon. */
  lemma KeyUniqueExactly(x: string, y: string, z: string)
    ensures (forall a, b, c :: Key3(a, b, c) == Key3(x, y, z) ==> a == x && b == y && c == z)
            <==> ColonFree(x) && ColonFree(y) && ColonFree(z)
  {
    if ColonFree(x) && ColonFree(y) && ColonFree(z) {
      forall a, b, c | Key3(a, b, c) == Key3(x, y, z) ensures a == x && b == y && c == z {
        Key3Injective(a, b, c, x, y, z);
      }
    } else if !ColonFree(x) {
      var i :| 0 <= i < |x| && x[i] == ':';
      var u, v := SplitAt(x, i);
      assert Key3(u, v, y + ":" + z) == Key3(x, y, z);
    } else if !ColonFree(y) {
      var i :| 0 <= i < |y| && y[i] == ':';
      var u, v := SplitAt(y, i);
      assert Key3(x, u, v + ":" + z) == Key3(x, y, z);
    } else {
      var i :| 0 <= i < |z| && z[i] == ':';
      var u, v := SplitAt(z, i);
      assert Key3(x + ":" + y, u, v) == Key3(x, y, z);
    }
  }

  function Pair(sep: char, a: string, b: string): string {
    a + [sep] + b
  }

  lemma PairParts(sep: char, a: string, b: string)
    ensures var k := Pair(sep, a, b); |k| == |a| + 1 + |b| && k[|a|] == sep && k[..|a|] == a && k[|a| + 1..] == b
  {
  }

  lemma PairInjective(sep: char, a: string, b: string, x: string, y: string)
    requires sep !in x && sep !in y
    requires Pair(sep, a, b) == Pair(sep, x, y)
    ensures a == x && b == y
  {
    PairParts(sep, a, b);
    PairParts(sep, x, y);
  }

  /** A joined pair has a single reading exactly when neither part contains the separator. */
  lemma PairUniqueExactly(sep: char, x: string, y: string)
    ensures (forall a, b :: Pair(sep, a, b) == Pair(sep, x, y) ==> a == x && b == y) <==> sep !in x && sep !in y
  {
    if sep !in x && sep !in y {
      forall a, b | Pair(sep, a, b) == Pair(sep, x, y) ensures a == x && b == y { PairInjective(sep, a, b, x, y); }
    } else if sep in x {
      var i :| 0 <= i < |x| && x[i] == sep;
      assert x == x[..i] + [sep] + x[i + 1..];
      assert Pair(sep, x[..i], x[i + 1..] + [sep] + y) == Pair(sep, x, y);
    } else {
      var i :| 0 <= i < |y| && y[i] == sep;
      assert y == y[..i] + [sep] + y[i + 1..];
      assert Pair(sep, x + [sep] + y[..i], y[i + 1..]) == Pair(sep, x, y);
    }
  }
}
