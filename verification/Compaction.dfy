// Dropping empty partition ids in place, in a slice that a cache still holds.
module Compaction {

  function NonEmpty(s: seq<string>): (r: seq<string>)
    ensures |r| <= |s|
  {
    if s == [] then [] else (if s[0] != "" then [s[0]] else []) + NonEmpty(s[1..])
  }

  function Ids(s: seq<string>): set<string> {
    set x | x in s && x != ""
  }

  /** What the backing array holds afterwards: the kept ids, then whatever lay beyond them. */
  function Compacted(s: seq<string>): (r: seq<string>)
    ensures |r| == |s|
  {
    NonEmpty(s) + s[|NonEmpty(s)|..]
  }

  lemma {:induction false} NonEmptyConcat(a: seq<string>, b: seq<string>)
    ensures NonEmpty(a + b) == NonEmpty(a) + NonEmpty(b)
  {
    if a == [] {
      assert a + b == b;
    } else {
      assert (a + b)[1..] == a[1..] + b;
      NonEmptyConcat(a[1..], b);
    }
  }

  lemma {:induction false} NonEmptySpec(s: seq<string>)
    ensures "" !in NonEmpty(s)
    ensures forall x :: x in NonEmpty(s) <==> x in Ids(s)
    ensures NonEmpty(NonEmpty(s)) == NonEmpty(s)
    ensures |NonEmpty(s)| == |s| <==> "" !in s
  {
    if s != [] {
      NonEmptySpec(s[1..]);
      assert s == [s[0]] + s[1..];
      var rest := NonEmpty(s[1..]);
      assert NonEmpty(s) == if s[0] != "" then [s[0]] + rest else rest;
      assert ([s[0]] + rest)[1..] == rest;
    }
  }

  /** The compaction loop: reads and writes the same array, the write index never ahead of the read index. */
  method CompactInPlace(a: array<string>) returns (w: nat)
    modifies a
    ensures a[..] == Compacted(old(a[..]))
    ensures w <= a.Length && a[..w] == NonEmpty(old(a[..]))
    ensures forall k :: w <= k < a.Length ==> a[k] == old(a[k])
  {
    ghost var was := a[..];
    w := 0;
    for i := 0 to a.Length
      invariant w <= i
      invariant a[..w] == NonEmpty(was[..i])
      invariant forall k :: w <= k < a.Length ==> a[k] == was[k]
    {
      assert was[..i + 1] == was[..i] + [was[i]];
      NonEmptyConcat(was[..i], [was[i]]);
      if a[i] != "" {
        a[w] := a[i];
        w := w + 1;
      }
    }
    assert was[..a.Length] == was;
    assert a[..] == a[..w] + was[w..];
  }

  // ---------- repeated compaction ----------

  function Iterated(s: seq<string>, n: nat): (r: seq<string>)
    ensures |r| == |s|
  {
    if n == 0 then s else Compacted(Iterated(s, n - 1))
  }

  lemma NextDelivery(s: seq<string>)
    ensures NonEmpty(Compacted(s)) == NonEmpty(s) + NonEmpty(s[|NonEmpty(s)|..])
    ensures Ids(Compacted(s)) == Ids(s)
  {
    NonEmptyConcat(NonEmpty(s), s[|NonEmpty(s)|..]);
    NonEmptySpec(s);
    forall x | x in s[|NonEmpty(s)|..] ensures x in s {}
    assert forall x :: x in Compacted(s) <==> x in NonEmpty(s) || x in s[|NonEmpty(s)|..];
  }

  /** However often the cached slice is compacted, the same ids are delivered, and none is empty. */
  lemma {:induction false} SameIdsEveryTime(s: seq<string>, n: nat)
    ensures Ids(Iterated(s, n)) == Ids(s)
    ensures "" !in NonEmpty(Iterated(s, n)) && forall x :: x in NonEmpty(Iterated(s, n)) <==> x in Ids(s)
  {
    if n > 0 {
      SameIdsEveryTime(s, n - 1);
      NextDelivery(Iterated(s, n - 1));
    }
    NonEmptySpec(Iterated(s, n));
  }

  /** A list already delivered shares the array, and later compactions leave it as it was. */
  lemma {:induction false} DeliveredListUndisturbed(s: seq<string>, n: nat)
    requires n >= 1
    ensures NonEmpty(s) <= Iterated(s, n) && NonEmpty(s) <= NonEmpty(Iterated(s, n))
  {
    var t := Iterated(s, n - 1);
    NextDelivery(s);
    if n == 1 {
      assert Iterated(s, 1) == Compacted(s);
    } else {
      DeliveredListUndisturbed(s, n - 1);
      NextDelivery(t);
      assert NonEmpty(s) <= NonEmpty(t) <= Compacted(t);
    }
  }

  /** No empty id stands before a non-empty one. */
  predicate EmptiesLast(s: seq<string>) {
    forall j :: 0 <= j < |s| && s[j] != "" ==> "" !in s[..j]
  }

  lemma EmptiesBehind(front: seq<string>, back: seq<string>)
    requires "" !in front && forall k :: 0 <= k < |back| ==> back[k] == ""
    ensures EmptiesLast(front + back)
  {
    var s := front + back;
    forall j | 0 <= j < |s| && s[j] != "" ensures "" !in s[..j] {
      assert j < |front|;
      assert s[..j] == front[..j];
    }
  }

  lemma EmptyAhead(front: seq<string>, back: seq<string>, i: nat, k: nat)
    requires i < |front| && front[i] == ""
    requires k < |back| && back[k] != ""
    ensures !EmptiesLast(front + back)
  {
    var s := front + back;
    assert s[|front| + k] != "" && s[..|front| + k][i] == "";
  }

  lemma EmptiesLastExact(s: seq<string>)
    ensures EmptiesLast(s) <==> NonEmpty(s[|NonEmpty(s)|..]) == []
  {
    hide EmptiesLast;
    var w := |NonEmpty(s)|;
    var front, back := s[..w], s[w..];
    assert s == front + back;
    NonEmptyConcat(front, back);
    NonEmptySpec(front);
    AllEmpty(back);
    if NonEmpty(back) == [] {
      EmptiesBehind(front, back);
    } else {
      var i :| 0 <= i < w && front[i] == "";
      var k :| 0 <= k < |back| && back[k] != "";
      EmptyAhead(front, back, i, k);
    }
  }

  lemma {:induction false} AllEmpty(s: seq<string>)
    ensures NonEmpty(s) == [] <==> forall k :: 0 <= k < |s| ==> s[k] == ""
  {
    if s != [] {
      AllEmpty(s[1..]);
      if NonEmpty(s) == [] {
        forall k | 0 <= k < |s| ensures s[k] == "" {
          if k > 0 { assert s[1..][k - 1] == s[k]; }
        }
      }
      if forall k :: 0 <= k < |s| ==> s[k] == "" {
        forall k | 0 <= k < |s| - 1 ensures s[1..][k] == "" { assert s[k + 1] == ""; }
      }
    }
  }

  /** The list itself, repetitions included, is the same on the next query exactly when no empty id precedes another. */
  lemma SameListExactly(s: seq<string>)
    ensures NonEmpty(Compacted(s)) == NonEmpty(s) <==> EmptiesLast(s)
    ensures |NonEmpty(Compacted(s))| == |NonEmpty(s)| <==> EmptiesLast(s)
  {
    NextDelivery(s);
    EmptiesLastExact(s);
  }
}
